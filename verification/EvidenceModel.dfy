/** Combining the confidences of several reconciliation signals: sorting, dependency weights, diminishing
    multipliers and the noisy-or product. All arithmetic is exact; results are those before rounding. */
module EvidenceModel {
  import opened Wrappers
  import opened Reals

  datatype Signal = Signal(name: string, conf: real)

  datatype Config = Config(cap: real, diminishingFactor: real, correlations: map<(string, string), real>)

  function Clamp(x: real): (r: real)
    ensures 0.0 <= r <= 1.0
  {
    if x < 0.0 then 0.0 else Min(1.0, x)
  }

  /** No probability lies nearer. */
  lemma ClampNearest(x: real, p: real)
    requires 0.0 <= p <= 1.0
    ensures Distance(x, Clamp(x)) <= Distance(x, p)
  {
  }

  function Bounded(signals: seq<Signal>): (r: seq<Signal>)
    ensures |r| == |signals|
    ensures forall i :: 0 <= i < |r| ==> r[i] == Signal(signals[i].name, Clamp(signals[i].conf))
  {
    seq(|signals|, i requires 0 <= i < |signals| => Signal(signals[i].name, Clamp(signals[i].conf)))
  }

  /** All confidences are probabilities. */
  ghost predicate Proper(s: seq<Signal>) {
    forall i :: 0 <= i < |s| ==> 0.0 <= s[i].conf <= 1.0
  }

  // ---------------------------------------------------------------------------------------------
  // Sorting

  /** Strongest first. The new signal goes before equals, so a sort built from it is stable. */
  function InsertDesc(x: Signal, s: seq<Signal>): (r: seq<Signal>)
    ensures |r| == |s| + 1
  {
    if s == [] || x.conf >= s[0].conf then [x] + s else [s[0]] + InsertDesc(x, s[1..])
  }

  function SortDesc(s: seq<Signal>): (r: seq<Signal>)
    ensures |r| == |s|
  {
    if s == [] then [] else InsertDesc(s[0], SortDesc(s[1..]))
  }

  lemma {:induction false} InsertPermutes(x: Signal, s: seq<Signal>)
    ensures multiset(InsertDesc(x, s)) == multiset(s) + multiset{x}
  {
    if s != [] && x.conf < s[0].conf {
      InsertPermutes(x, s[1..]);
      assert s == [s[0]] + s[1..];
    }
  }

  lemma {:induction false} SortMultiset(s: seq<Signal>)
    ensures multiset(SortDesc(s)) == multiset(s)
  {
    if s != [] {
      SortMultiset(s[1..]);
      InsertPermutes(s[0], SortDesc(s[1..]));
      assert s == [s[0]] + s[1..];
    }
  }

  /** Sorting loses and invents nothing. */
  lemma SortPermutes(s: seq<Signal>)
    ensures multiset(SortDesc(s)) == multiset(s)
    ensures forall x :: x in SortDesc(s) <==> x in s
  {
    SortMultiset(s);
    forall x ensures x in SortDesc(s) <==> x in s {
      assert x in SortDesc(s) <==> x in multiset(SortDesc(s));
    }
  }

  ghost predicate Descending(s: seq<Signal>) {
    forall i, j :: 0 <= i < j < |s| ==> s[i].conf >= s[j].conf
  }

  lemma {:induction false} InsertDescending(x: Signal, s: seq<Signal>)
    requires Descending(s)
    ensures Descending(InsertDesc(x, s))
    ensures InsertDesc(x, s)[0] == x || (s != [] && InsertDesc(x, s)[0] == s[0])
  {
    if s != [] && x.conf < s[0].conf {
      var t := InsertDesc(x, s[1..]);
      InsertDescending(x, s[1..]);
      assert t[0] == x || t[0] == s[1];
      forall i, j | 0 <= i < j < |t| + 1 ensures ([s[0]] + t)[i].conf >= ([s[0]] + t)[j].conf {
        if i == 0 { assert t[0].conf >= t[j - 1].conf; }
      }
    }
  }

  lemma {:induction false} SortDescending(s: seq<Signal>)
    ensures Descending(SortDesc(s))
  {
    if s != [] {
      SortDescending(s[1..]);
      InsertDescending(s[0], SortDesc(s[1..]));
    }
  }

  function OfConf(s: seq<Signal>, c: real): seq<Signal> {
    if s == [] then [] else (if s[0].conf == c then [s[0]] else []) + OfConf(s[1..], c)
  }

  lemma {:induction false} InsertStable(x: Signal, s: seq<Signal>, c: real)
    requires Descending(s)
    ensures OfConf(InsertDesc(x, s), c) == (if x.conf == c then [x] else []) + OfConf(s, c)
  {
    if s == [] || x.conf >= s[0].conf {
      assert ([x] + s)[1..] == s;
    } else {
      var (t, rest) := (InsertDesc(x, s[1..]), OfConf(s[1..], c));
      InsertStable(x, s[1..], c);
      assert ([s[0]] + t)[1..] == t;
      if s[0].conf == c {
        assert OfConf(t, c) == [] + rest == rest;
      } else {
        assert OfConf([s[0]] + t, c) == [] + OfConf(t, c) == OfConf(t, c);
        assert OfConf(s, c) == [] + rest == rest;
      }
    }
  }

  /** Signals of equal confidence keep their order. */
  lemma {:induction false} SortStable(s: seq<Signal>, c: real)
    ensures OfConf(SortDesc(s), c) == OfConf(s, c)
  {
    if s != [] {
      SortStable(s[1..], c);
      SortDescending(s[1..]);
      InsertStable(s[0], SortDesc(s[1..]), c);
    }
  }

  // ---------------------------------------------------------------------------------------------
  // Dependency weights

  /** The discount of a pair. A zero stored in the queried orientation counts as absent. */
  function Discount(correlations: map<(string, string), real>, a: string, b: string): Option<real> {
    if (a, b) in correlations && correlations[(a, b)] != 0.0 then Some(correlations[(a, b)])
    else if (b, a) in correlations then Some(correlations[(b, a)])
    else None
  }

  /** The method that the pair at positions i < j discounts: the weaker one, the earlier one on a tie. */
  function Weaker(s: seq<Signal>, i: nat, j: nat): string
    requires i < |s| && j < |s|
  {
    if s[i].conf <= s[j].conf then s[i].name else s[j].name
  }

  /** The pair at i < j discounts `name` by `d`. */
  predicate Hits(s: seq<Signal>, correlations: map<(string, string), real>, i: nat, j: nat, name: string, d: real) {
    i < j < |s| && Discount(correlations, s[i].name, s[j].name) == Some(d) && Weaker(s, i, j) == name
  }

  function PairWeight(s: seq<Signal>, correlations: map<(string, string), real>, name: string, i: nat, j: nat): real
    requires i < |s| && j < |s|
  {
    var d := Discount(correlations, s[i].name, s[j].name);
    if d.Some? && Weaker(s, i, j) == name then d.value else 1.0
  }

  /** The weight left to `name` by the pairs of row i from column j on. */
  function RowWeight(s: seq<Signal>, correlations: map<(string, string), real>, name: string, i: nat, j: nat): (w: real)
    requires i < j <= |s|
    ensures w <= 1.0
    decreases |s| - j
  {
    if j == |s| then 1.0 else Min(PairWeight(s, correlations, name, i, j), RowWeight(s, correlations, name, i, j + 1))
  }

  /** The weight left to `name` by all pairs from row i on. */
  function WeightFrom(s: seq<Signal>, correlations: map<(string, string), real>, name: string, i: nat): (w: real)
    requires i <= |s|
    ensures w <= 1.0
    decreases |s| - i
  {
    if i == |s| then 1.0 else Min(RowWeight(s, correlations, name, i, i + 1), WeightFrom(s, correlations, name, i + 1))
  }

  function Weight(s: seq<Signal>, correlations: map<(string, string), real>, name: string): (w: real)
    ensures w <= 1.0
  {
    WeightFrom(s, correlations, name, 0)
  }

  lemma {:induction false} RowWeightIsLeast(s: seq<Signal>, correlations: map<(string, string), real>, name: string,
                                            i: nat, j: nat)
    requires i < j <= |s|
    ensures var w := RowWeight(s, correlations, name, i, j);
      && (forall k, d :: j <= k && Hits(s, correlations, i, k, name, d) ==> w <= d)
      && (w == 1.0 || exists k :: j <= k && Hits(s, correlations, i, k, name, w))
    decreases |s| - j
  {
    if j < |s| {
      RowWeightIsLeast(s, correlations, name, i, j + 1);
      var w := PairWeight(s, correlations, name, i, j);
      assert w == 1.0 || Hits(s, correlations, i, j, name, w);
    }
  }

  lemma {:induction false} WeightFromIsLeast(s: seq<Signal>, correlations: map<(string, string), real>, name: string,
                                             i: nat)
    requires i <= |s|
    ensures var w := WeightFrom(s, correlations, name, i);
      && (forall h, k, d :: i <= h && Hits(s, correlations, h, k, name, d) ==> w <= d)
      && (w == 1.0 || exists h, k :: i <= h && Hits(s, correlations, h, k, name, w))
    decreases |s| - i
  {
    if i < |s| {
      RowWeightIsLeast(s, correlations, name, i, i + 1);
      WeightFromIsLeast(s, correlations, name, i + 1);
    }
  }

  /** A weight is the least of one and the discounts that hit the method. */
  lemma WeightIsLeast(s: seq<Signal>, correlations: map<(string, string), real>, name: string)
    ensures var w := Weight(s, correlations, name);
      && w <= 1.0
      && (forall h, k, d :: Hits(s, correlations, h, k, name, d) ==> w <= d)
      && (w == 1.0 || exists h, k :: Hits(s, correlations, h, k, name, w))
  {
    WeightFromIsLeast(s, correlations, name, 0);
  }

  function Names(s: seq<Signal>): set<string> {
    set i | 0 <= i < |s| :: s[i].name
  }

  function Weights(s: seq<Signal>, correlations: map<(string, string), real>): map<string, real> {
    map name | name in Names(s) :: Weight(s, correlations, name)
  }

  function WeightIn(weights: map<string, real>, name: string): real {
    if name in weights then weights[name] else 1.0
  }

  ghost predicate AtMostOne(weights: map<string, real>) {
    forall m :: m in weights ==> weights[m] <= 1.0
  }

  // ---------------------------------------------------------------------------------------------
  // The product

  /** Full weight for the first two, then one more diminishing factor per signal. */
  function Multipliers(n: nat, factor: real): (r: seq<real>)
    ensures |r| == n
  {
    if n == 0 then []
    else
      var prev := Multipliers(n - 1, factor);
      prev + [if n <= 2 then 1.0 else Times(prev[n - 2], factor)]
  }

  /** What a signal contributes at its weight and its place. */
  function Effective(conf: real, weight: real, multiplier: real): (e: real)
    ensures 0.0 <= e <= 1.0
  {
    Clamp(Times(Times(conf, weight), multiplier))
  }

  function Effectives(sorted: seq<Signal>, weights: map<string, real>, multipliers: seq<real>): (r: seq<real>)
    requires |multipliers| == |sorted|
    ensures |r| == |sorted|
  {
    seq(|sorted|, k requires 0 <= k < |sorted| =>
        Effective(sorted[k].conf, WeightIn(weights, sorted[k].name), multipliers[k]))
  }

  /** The doubt that independent confidences leave. */
  function Complement(confs: seq<real>): real {
    if confs == [] then 1.0 else Times(1.0 - confs[0], Complement(confs[1..]))
  }

  function SortedEffectives(s: seq<Signal>, cfg: Config): seq<real> {
    Effectives(SortDesc(s), Weights(s, cfg.correlations), Multipliers(|s|, cfg.diminishingFactor))
  }

  /** The combined confidence, before the cap and before rounding. */
  function Combined(signals: seq<Signal>, cfg: Config): real {
    var s := Bounded(signals);
    if |s| == 0 then 0.0
    else if |s| == 1 then s[0].conf
    else 1.0 - Complement(SortedEffectives(s, cfg))
  }

  /** The plain noisy-or of independent confidences. */
  function CombineNoisyOrSimple(confs: seq<real>, cap: real): real {
    if confs == [] then 0.0 else Min(cap, 1.0 - Complement(confs))
  }
}
