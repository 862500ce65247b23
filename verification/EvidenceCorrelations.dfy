/** Which correlations keep the order laws of the combination for all lists of distinct methods: for every other map of
    correlations, signals that break the law. */
module EvidenceCorrelations {
  import opened Reals
  import opened EvidenceModel
  import opened EvidenceBounds
  import opened EvidenceOrder
  import opened EvidenceLimits
  import opened EvidenceClusters
  import opened EvidenceUndiminished
  import opened EvidenceUnclustered

  /** No pair of methods is discounted. */
  ghost predicate NoDiscounts(m: map<(string, string), real>) {
    forall a, b :: a != b ==> Left(m, a, b) == 1.0
  }

  // ---------------------------------------------------------------------------------------------
  // Two and three signals

  /** What a method keeps in a pair with a signal at least as strong, listed later or before. */
  lemma WeightOfTwo(x: Signal, y: Signal, m: map<(string, string), real>)
    requires x.name != y.name
    ensures Weight([x, y], m, x.name) == if x.conf <= y.conf then Left(m, x.name, y.name) else 1.0
    ensures Weight([x, y], m, y.name) == if x.conf <= y.conf then 1.0 else Left(m, x.name, y.name)
  {
    PairsOfTwo([x, y], m, x.name);
    PairsOfTwo([x, y], m, y.name);
  }

  lemma PairsOfTwo(s: seq<Signal>, m: map<(string, string), real>, name: string)
    requires |s| == 2
    ensures Weight(s, m, name) == Min(1.0, PairWeight(s, m, name, 0, 1))
  {
    assert RowWeight(s, m, name, 0, 2) == RowWeight(s, m, name, 1, 2) == 1.0;
    assert WeightFrom(s, m, name, 2) == 1.0;
    assert WeightFrom(s, m, name, 1) == 1.0;
    assert RowWeight(s, m, name, 0, 1) == Min(PairWeight(s, m, name, 0, 1), 1.0);
  }

  lemma PairsOfThree(s: seq<Signal>, m: map<(string, string), real>, name: string)
    requires |s| == 3
    ensures Weight(s, m, name) == Min(1.0, Min(PairWeight(s, m, name, 0, 1),
                                               Min(PairWeight(s, m, name, 0, 2), PairWeight(s, m, name, 1, 2))))
  {
    assert RowWeight(s, m, name, 0, 3) == RowWeight(s, m, name, 1, 3) == RowWeight(s, m, name, 2, 3) == 1.0;
    assert WeightFrom(s, m, name, 3) == 1.0;
    assert RowWeight(s, m, name, 0, 2) == Min(PairWeight(s, m, name, 0, 2), 1.0);
    assert RowWeight(s, m, name, 1, 2) == Min(PairWeight(s, m, name, 1, 2), 1.0);
    assert WeightFrom(s, m, name, 2) == 1.0;
    assert WeightFrom(s, m, name, 1) == Min(PairWeight(s, m, name, 1, 2), 1.0);
    assert RowWeight(s, m, name, 0, 1)
        == Min(PairWeight(s, m, name, 0, 1), Min(PairWeight(s, m, name, 0, 2), 1.0));
    assert WeightFrom(s, m, name, 0) == Min(RowWeight(s, m, name, 0, 1), WeightFrom(s, m, name, 1));
  }

  /** The weights of three methods, read off the pairs that hit them. */
  lemma WeightsOfThree(x: Signal, y: Signal, z: Signal, m: map<(string, string), real>)
    requires x.name != y.name && x.name != z.name && y.name != z.name
    ensures Weight([x, y, z], m, x.name) == Min(if x.conf <= y.conf then Left(m, x.name, y.name) else 1.0,
                                                if x.conf <= z.conf then Left(m, x.name, z.name) else 1.0)
    ensures Weight([x, y, z], m, y.name) == Min(if x.conf <= y.conf then 1.0 else Left(m, x.name, y.name),
                                                if y.conf <= z.conf then Left(m, y.name, z.name) else 1.0)
    ensures Weight([x, y, z], m, z.name) == Min(if x.conf <= z.conf then 1.0 else Left(m, x.name, z.name),
                                                if y.conf <= z.conf then 1.0 else Left(m, y.name, z.name))
  {
    PairsOfThree([x, y, z], m, x.name);
    PairsOfThree([x, y, z], m, y.name);
    PairsOfThree([x, y, z], m, z.name);
  }

  /** What one sorted signal contributes. */
  lemma EffectiveAt(s: seq<Signal>, cfg: Config, k: nat, x: Signal, weight: real, multiplier: real)
    requires k < |s| && SortDesc(s)[k] == x && Weight(s, cfg.correlations, x.name) == weight
    requires Multipliers(|s|, cfg.diminishingFactor)[k] == multiplier
    ensures SortedEffectives(s, cfg)[k] == Effective(x.conf, weight, multiplier)
  {
    WeightFound(s, cfg.correlations, k);
  }

  lemma MultipliersOfThree(factor: real)
    ensures Multipliers(3, factor) == [1.0, 1.0, factor]
  {
    MultiplierAt(3, 0, factor);
    MultiplierAt(3, 1, factor);
    MultiplierAt(3, 2, factor);
    TimesUnit(factor);
  }

  /** Three signals, sorted into x, y, z with the weights u, v, w. */
  lemma EffectivesOfThree(s: seq<Signal>, cfg: Config, x: Signal, y: Signal, z: Signal, u: real, v: real, w: real)
    requires |s| == 3 && SortDesc(s) == [x, y, z]
    requires Weight(s, cfg.correlations, x.name) == u && Weight(s, cfg.correlations, y.name) == v
    requires Weight(s, cfg.correlations, z.name) == w
    ensures |SortedEffectives(s, cfg)| == 3
    ensures SortedEffectives(s, cfg)[0] == Effective(x.conf, u, 1.0)
    ensures SortedEffectives(s, cfg)[1] == Effective(y.conf, v, 1.0)
    ensures SortedEffectives(s, cfg)[2] == Effective(z.conf, w, cfg.diminishingFactor)
  {
    MultipliersOfThree(cfg.diminishingFactor);
    EffectiveAt(s, cfg, 0, x, u, 1.0);
    EffectiveAt(s, cfg, 1, y, v, 1.0);
    EffectiveAt(s, cfg, 2, z, w, cfg.diminishingFactor);
  }

  lemma ComplementOfThree(es: seq<real>)
    requires |es| == 3
    ensures Complement(es) == Times(1.0 - es[0], Times(1.0 - es[1], 1.0 - es[2]))
  {
    assert es[1..][1..] == es[2..] && es[2..][1..] == [];
    TimesUnit(1.0 - es[2]);
    assert Complement(es[2..]) == 1.0 - es[2];
    assert Complement(es[1..]) == Times(1.0 - es[1], 1.0 - es[2]);
  }

  /** The doubt three contributions leave. */
  lemma DoubtOfThree(s: seq<Signal>, cfg: Config, d: real, e: real, f: real)
    requires Bounded(s) == s && |s| == 3
    requires var es := SortedEffectives(s, cfg); 1.0 - es[0] == d && 1.0 - es[1] == e && 1.0 - es[2] == f
    ensures 1.0 - Combined(s, cfg) == Times(d, Times(e, f))
  {
    ComplementOfThree(SortedEffectives(s, cfg));
  }

  lemma ComplementOfTwo(es: seq<real>)
    requires |es| == 2
    ensures Complement(es) == Times(1.0 - es[0], 1.0 - es[1])
  {
    assert es[1..][1..] == [];
    TimesUnit(1.0 - es[1]);
    assert Complement(es[1..]) == 1.0 - es[1];
  }

  lemma FullEffective(conf: real)
    requires 0.0 <= conf <= 1.0
    ensures Effective(conf, 1.0, 1.0) == conf
  {
    TimesUnit(conf);
  }

  lemma WeightedEffective(conf: real, w: real)
    requires 0.0 <= conf <= 1.0 && w <= 1.0
    ensures Effective(conf, w, 1.0) == Times(conf, Clamp(w))
  {
    EffectiveClamped(conf, w, 1.0);
    TimesUnit(Times(conf, Clamp(w)));
  }

  // ---------------------------------------------------------------------------------------------
  // A method that no correlation mentions

  lemma {:induction false} LongerThanAll(names: set<(string, string)>) returns (n: nat)
    ensures forall p :: p in names ==> |p.0| < n && |p.1| < n
    decreases |names|
  {
    n := 0;
    if names != {} {
      var p :| p in names;
      n := LongerThanAll(names - {p});
      n := n + |p.0| + |p.1| + 1;
      assert forall q :: q in names ==> q == p || q in names - {p};
    }
  }

  lemma FreshMethod(m: map<(string, string), real>, a: string, b: string) returns (c: string)
    ensures c != a && c != b && (forall x :: Left(m, c, x) == 1.0) && forall x :: Left(m, x, c) == 1.0
  {
    var n := LongerThanAll(m.Keys);
    c := seq(n + |a| + |b| + 1, i => 'x');
    forall x ensures Left(m, c, x) == 1.0 && Left(m, x, c) == 1.0 {
      assert (c, x) !in m.Keys && (x, c) !in m.Keys;
    }
  }

  // ---------------------------------------------------------------------------------------------
  // One discounted pair and a third method

  /** The first method is uncorrelated; the second gives way to the third. */
  function Overtaker(a: string, b: string, c: string, x: real): seq<Signal> {
    [Signal(c, 0.5), Signal(a, x), Signal(b, 0.875)]
  }

  ghost predicate Witness(m: map<(string, string), real>, a: string, b: string, c: string) {
    a != b && c != a && c != b && Left(m, a, b) < 1.0 && forall x :: Left(m, c, x) == 1.0
  }

  lemma SortOvertaker(a: string, b: string, c: string, x: real)
    requires 0.0 <= x < 0.875
    ensures var (p, q, r) := (Signal(c, 0.5), Signal(a, x), Signal(b, 0.875));
            SortDesc(Overtaker(a, b, c, x)) == if x <= 0.5 then [r, p, q] else [r, q, p]
  {
    SortWithThirdOnTop(Signal(c, 0.5), Signal(a, x), Signal(b, 0.875));
  }

  lemma SortWithThirdOnTop(x: Signal, y: Signal, z: Signal)
    requires x.conf < z.conf && y.conf < z.conf
    ensures SortDesc([x, y, z]) == if y.conf <= x.conf then [z, x, y] else [z, y, x]
  {
    assert [x, y, z][1..] == [y, z] && [y, z][1..] == [z] && [z][1..] == [];
    assert SortDesc([z]) == [z];
    assert SortDesc([y, z]) == InsertDesc(y, [z]) == [z] + InsertDesc(y, []) == [z, y];
    assert [z, y][1..] == [y] && [y][1..] == [];
    assert InsertDesc(x, [z, y]) == [z] + InsertDesc(x, [y]);
    assert InsertDesc(x, [y]) == if x.conf >= y.conf then [x, y] else [y, x];
  }

  lemma OvertakerWeights(m: map<(string, string), real>, a: string, b: string, c: string, x: real)
    requires Witness(m, a, b, c) && 0.0 <= x < 0.875
    ensures var s := Overtaker(a, b, c, x);
            Weight(s, m, a) == Left(m, a, b) && Weight(s, m, b) == 1.0 && Weight(s, m, c) == 1.0
  {
    WeightsOfThree(Signal(c, 0.5), Signal(a, x), Signal(b, 0.875), m);
    assert Left(m, c, a) == Left(m, c, b) == 1.0;
  }

  /** In the third place the discounted method keeps little; */
  lemma DoubtBehind(cfg: Config, a: string, b: string, c: string, x: real)
    requires Witness(cfg.correlations, a, b, c) && 0.0 <= cfg.diminishingFactor <= 1.0 && 0.0 <= x <= 0.5
    ensures var kept := Times(Times(x, Clamp(Left(cfg.correlations, a, b))), cfg.diminishingFactor);
            1.0 - Combined(Overtaker(a, b, c, x), cfg) == Times(0.125, Times(0.5, 1.0 - kept))
  {
    var s := Overtaker(a, b, c, x);
    assert Bounded(s) == s;
    BehindContributions(cfg, a, b, c, x);
    var kept := Times(Times(x, Clamp(Left(cfg.correlations, a, b))), cfg.diminishingFactor);
    DoubtOfThree(s, cfg, 0.125, 0.5, 1.0 - kept);
  }

  lemma BehindContributions(cfg: Config, a: string, b: string, c: string, x: real)
    requires Witness(cfg.correlations, a, b, c) && 0.0 <= cfg.diminishingFactor <= 1.0 && 0.0 <= x <= 0.5
    ensures var es := SortedEffectives(Overtaker(a, b, c, x), cfg);
            && |es| == 3 && es[0] == 0.875 && es[1] == 0.5
            && es[2] == Times(Times(x, Clamp(Left(cfg.correlations, a, b))), cfg.diminishingFactor)
  {
    var s := Overtaker(a, b, c, x);
    SortOvertaker(a, b, c, x);
    OvertakerWeights(cfg.correlations, a, b, c, x);
    EffectivesOfThree(s, cfg, s[2], s[0], s[1], 1.0, 1.0, Left(cfg.correlations, a, b));
    FullEffective(0.875);
    FullEffective(0.5);
    EffectiveClamped(x, Left(cfg.correlations, a, b), cfg.diminishingFactor);
  }

  ghost predicate Ahead(cfg: Config, s: seq<Signal>, kept: real) {
    && Bounded(s) == s && |s| == 3
    && var es := SortedEffectives(s, cfg);
       |es| == 3 && es[0] == 0.875 && es[1] == kept && es[2] == Times(0.5, cfg.diminishingFactor)
  }

  /** in the second place it pushes the other behind. */
  lemma DoubtAhead(cfg: Config, s: seq<Signal>, kept: real)
    requires Ahead(cfg, s, kept)
    ensures 1.0 - Combined(s, cfg) == Times(0.125, Times(1.0 - kept, 1.0 - Times(0.5, cfg.diminishingFactor)))
  {
    DoubtOfThree(s, cfg, 0.125, 1.0 - kept, 1.0 - Times(0.5, cfg.diminishingFactor));
  }

  lemma AheadContributions(cfg: Config, s: seq<Signal>, a: string, b: string, c: string, x: real, w: real)
    requires |s| == 3 && Bounded(s) == s && SortDesc(s) == [Signal(b, 0.875), Signal(a, x), Signal(c, 0.5)]
    requires 0.0 <= cfg.diminishingFactor <= 1.0 && 0.0 <= x <= 1.0 && w <= 1.0
    requires var m := cfg.correlations; Weight(s, m, a) == w && Weight(s, m, b) == 1.0 && Weight(s, m, c) == 1.0
    ensures Ahead(cfg, s, Times(x, Clamp(w)))
  {
    EffectivesOfThree(s, cfg, Signal(b, 0.875), Signal(a, x), Signal(c, 0.5), 1.0, w, 1.0);
    FullEffective(0.875);
    WeightedEffective(x, w);
    HalfEffective(cfg.diminishingFactor);
  }

  lemma HalfEffective(factor: real)
    requires 0.0 <= factor <= 1.0
    ensures Effective(0.5, 1.0, factor) == Times(0.5, factor)
  {
    EffectiveClamped(0.5, 1.0, factor);
    TimesUnit(0.5);
  }

  /** The raised signal gains less than the one it pushes behind loses. */
  lemma PushedBehind(kept: real, factor: real, x: real)
    requires 0.0 <= kept < 1.0 && 0.0 <= factor < 1.0
    requires 0.5 <= x <= 0.5 + 0.25 * Times(1.0 - kept, 1.0 - factor)
    ensures Times(0.125, Times(0.5, 1.0 - Times(Times(0.5, kept), factor)))
          < Times(0.125, Times(1.0 - Times(x, kept), 1.0 - Times(0.5, factor)))
  {
    var (g, p) := (Times(1.0 - kept, 1.0 - factor), kept * factor);
    assert g == 1.0 - kept - factor + p;
    PositiveGap(kept, factor);
    var e := x - 0.5;
    assert Times(Times(0.5, kept), factor) == 0.5 * p;
    TimesMono(x, 0.5 + 0.25 * g, kept, kept);
    var top := Times(0.5 + 0.25 * g, kept);
    assert top == 0.5 * kept + 0.25 * Times(g, kept);
    TimesMono(g, g, kept, 1.0);
    TimesUnit(g);
    assert 1.0 - Times(x, kept) >= 1.0 - 0.5 * kept - 0.25 * g;
    var rest := 1.0 - Times(0.5, factor);
    TimesSplit(1.0 - Times(x, kept) - (1.0 - 0.5 * kept - 0.25 * g), 1.0 - 0.5 * kept - 0.25 * g, rest);
    TimesMono(0.0, 1.0 - Times(x, kept) - (1.0 - 0.5 * kept - 0.25 * g), rest, rest);
    assert Times(1.0 - 0.5 * kept - 0.25 * g, rest) == (1.0 - 0.5 * kept) * rest - 0.25 * Times(g, rest);
    assert (1.0 - 0.5 * kept) * rest == 1.0 - 0.5 * kept - 0.5 * factor + 0.25 * p;
    TimesMono(g, g, rest, 1.0);
  }

  lemma PositiveGap(x: real, y: real)
    requires x < 1.0 && y < 1.0
    ensures Times(1.0 - x, 1.0 - y) > 0.0
  {
    PositiveTimes(1.0 - x, 1.0 - y);
  }

  // ---------------------------------------------------------------------------------------------
  // Monotonicity

  lemma NoDiscountsUndiscounted(s: seq<Signal>, m: map<(string, string), real>)
    requires NoDiscounts(m) && DistinctNames(s)
    ensures Undiscounted(Bounded(s), m)
  {
  }

  lemma RaisedContributions(cfg: Config, a: string, b: string, c: string, x: real)
    requires Witness(cfg.correlations, a, b, c) && 0.0 <= cfg.diminishingFactor <= 1.0 && 0.5 < x < 0.875
    ensures Ahead(cfg, Overtaker(a, b, c, x), Times(x, Clamp(Left(cfg.correlations, a, b))))
  {
    var t := Overtaker(a, b, c, x);
    assert Bounded(t) == t;
    SortOvertaker(a, b, c, x);
    OvertakerWeights(cfg.correlations, a, b, c, x);
    AheadContributions(cfg, t, a, b, c, x, Left(cfg.correlations, a, b));
  }

  /** A list in which the discounted method comes third combines to more than one in which it comes second. */
  lemma Overtaken(cfg: Config, a: string, b: string, c: string, t: seq<Signal>, x: real)
    requires Witness(cfg.correlations, a, b, c) && 0.0 <= cfg.diminishingFactor < 1.0
    requires var kept := Clamp(Left(cfg.correlations, a, b));
             && 0.5 <= x <= 0.5 + 0.25 * Times(1.0 - kept, 1.0 - cfg.diminishingFactor)
             && Ahead(cfg, t, Times(x, kept))
    ensures Combined(Overtaker(a, b, c, 0.5), cfg) > Combined(t, cfg)
  {
    var kept := Clamp(Left(cfg.correlations, a, b));
    DoubtBehind(cfg, a, b, c, 0.5);
    DoubtAhead(cfg, t, Times(x, kept));
    PushedBehind(kept, cfg.diminishingFactor, x);
  }

  lemma OvertakerNames(a: string, b: string, c: string, x: real)
    requires a != b && a != c && b != c
    ensures DistinctNames(Overtaker(a, b, c, x))
  {
  }

  /** A discounted pair: raising the discounted method past an uncorrelated one lowers the result. */
  lemma RaiseThatLowers(cfg: Config, a: string, b: string) returns (s: seq<Signal>, t: seq<Signal>)
    requires a != b && Left(cfg.correlations, a, b) < 1.0 && 0.0 <= cfg.diminishingFactor < 1.0
    ensures DistinctNames(s) && DistinctNames(t) && Grown(s, t) && Combined(s, cfg) > Combined(t, cfg)
  {
    var c := FreshMethod(cfg.correlations, a, b);
    var x := RaisedConf(Clamp(Left(cfg.correlations, a, b)), cfg.diminishingFactor);
    s, t := Overtaker(a, b, c, 0.5), Overtaker(a, b, c, x);
    OvertakerNames(a, b, c, 0.5);
    OvertakerNames(a, b, c, x);
    RaiseStrengthens(s, 1, x);
    assert t == s[1 := Signal(a, x)];
    RaisedContributions(cfg, a, b, c, x);
    Overtaken(cfg, a, b, c, t, x);
  }

  lemma RaisedConf(kept: real, factor: real) returns (x: real)
    requires 0.0 <= kept < 1.0 && 0.0 <= factor < 1.0
    ensures 0.5 < x < 0.875 && x == 0.5 + 0.25 * Times(1.0 - kept, 1.0 - factor)
  {
    x := 0.5 + 0.25 * Times(1.0 - kept, 1.0 - factor);
    PositiveGap(kept, factor);
    TimesMono(1.0 - kept, 1.0, 1.0 - factor, 1.0);
    TimesUnit(1.0);
  }

  /** The correlations that keep the laws: no discounts while returns diminish, and clusters when they do not. */
  ghost predicate Orderly(cfg: Config) {
    if cfg.diminishingFactor < 1.0 then NoDiscounts(cfg.correlations) else Clustered(cfg.correlations)
  }

  lemma NoDiscountsOrAPair(m: map<(string, string), real>) returns (a: string, b: string)
    requires !NoDiscounts(m)
    ensures a != b && Left(m, a, b) < 1.0
  {
    a, b :| a != b && Left(m, a, b) != 1.0;
  }

  lemma ClusteredOrThree(m: map<(string, string), real>) returns (a: string, b: string, c: string)
    requires !Clustered(m)
    ensures a != b && a != c && b != c && !TopTwice(Kept(m, a, b), Kept(m, a, c), Kept(m, b, c))
  {
    a, b, c :| a != b && a != c && b != c && !TopTwice(Kept(m, a, b), Kept(m, a, c), Kept(m, b, c));
  }

  lemma OrderlyNeverLower(s: seq<Signal>, t: seq<Signal>, cfg: Config)
    requires 0.0 <= cfg.diminishingFactor <= 1.0 && Orderly(cfg)
    requires DistinctNames(s) && DistinctNames(t) && Grown(s, t)
    ensures Combined(s, cfg) <= Combined(t, cfg)
  {
    if cfg.diminishingFactor < 1.0 {
      NoDiscountsUndiscounted(s, cfg.correlations);
      NoDiscountsUndiscounted(t, cfg.correlations);
      GrownStrengthened(s, t);
      StrongerNeverLower(s, t, cfg);
    } else {
      ClusteredNeverLower(s, t, cfg);
    }
  }

  /** More or stronger evidence never lowers the result exactly when no pair of methods is discounted or, where nothing
      diminishes, the methods are clustered. */
  lemma StrongerNeverLowerIff(cfg: Config)
    requires 0.0 <= cfg.diminishingFactor <= 1.0
    ensures (forall s, t :: DistinctNames(s) && DistinctNames(t) && Grown(s, t) ==>
            Combined(s, cfg) <= Combined(t, cfg))
       <==> Orderly(cfg)
  {
    if Orderly(cfg) {
      forall s, t | DistinctNames(s) && DistinctNames(t) && Grown(s, t) ensures Combined(s, cfg) <= Combined(t, cfg) {
        OrderlyNeverLower(s, t, cfg);
      }
    } else {
      var s, t := RaiseThatMatters(cfg);
    }
  }

  lemma RaiseThatMatters(cfg: Config) returns (s: seq<Signal>, t: seq<Signal>)
    requires 0.0 <= cfg.diminishingFactor <= 1.0 && !Orderly(cfg)
    ensures DistinctNames(s) && DistinctNames(t) && Grown(s, t) && Combined(s, cfg) > Combined(t, cfg)
  {
    if cfg.diminishingFactor < 1.0 {
      var a, b := NoDiscountsOrAPair(cfg.correlations);
      s, t := RaiseThatLowers(cfg, a, b);
    } else {
      var a, b, c := ClusteredOrThree(cfg.correlations);
      s, t := RaiseAmongUnclustered(cfg, a, b, c);
    }
  }

  // ---------------------------------------------------------------------------------------------
  // Order

  ghost predicate Permuted(s: seq<Signal>, t: seq<Signal>) {
    multiset(s) == multiset(t)
  }

  /** The same signals, the two equally strong ones exchanged. */
  function Exchanged(a: string, b: string, c: string): seq<Signal> {
    [Signal(a, 0.5), Signal(c, 0.5), Signal(b, 0.875)]
  }

  /** A discounted pair: exchanging two equally strong signals, one of them discounted, changes the result. */
  lemma ExchangeThatMatters(cfg: Config, a: string, b: string) returns (s: seq<Signal>, t: seq<Signal>)
    requires a != b && Left(cfg.correlations, a, b) < 1.0 && 0.0 <= cfg.diminishingFactor < 1.0
    ensures DistinctNames(s) && DistinctNames(t) && Permuted(s, t) && Combined(s, cfg) != Combined(t, cfg)
  {
    var c := FreshMethod(cfg.correlations, a, b);
    s, t := Overtaker(a, b, c, 0.5), Exchanged(a, b, c);
    OvertakerNames(a, b, c, 0.5);
    ExchangedNames(a, b, c);
    ExchangedContributions(cfg, a, b, c);
    PositiveGap(Clamp(Left(cfg.correlations, a, b)), cfg.diminishingFactor);
    Overtaken(cfg, a, b, c, t, 0.5);
  }

  lemma ExchangedNames(a: string, b: string, c: string)
    requires a != b && a != c && b != c
    ensures DistinctNames(Exchanged(a, b, c)) && Permuted(Overtaker(a, b, c, 0.5), Exchanged(a, b, c))
  {
  }

  lemma ExchangedContributions(cfg: Config, a: string, b: string, c: string)
    requires Witness(cfg.correlations, a, b, c) && forall x :: Left(cfg.correlations, x, c) == 1.0
    requires 0.0 <= cfg.diminishingFactor <= 1.0
    ensures Ahead(cfg, Exchanged(a, b, c), Times(0.5, Clamp(Left(cfg.correlations, a, b))))
  {
    var (x, y, z) := (Signal(a, 0.5), Signal(c, 0.5), Signal(b, 0.875));
    assert Bounded([x, y, z]) == [x, y, z];
    SortWithThirdOnTop(x, y, z);
    WeightsOfThree(x, y, z, cfg.correlations);
    assert Left(cfg.correlations, a, c) == Left(cfg.correlations, c, b) == 1.0;
    AheadContributions(cfg, [x, y, z], a, b, c, 0.5, Left(cfg.correlations, a, b));
  }

  lemma NoDiscountsOrder(s: seq<Signal>, t: seq<Signal>, cfg: Config)
    requires NoDiscounts(cfg.correlations) && DistinctNames(s) && Permuted(s, t)
    ensures Combined(s, cfg) == Combined(t, cfg)
  {
    NoDiscountsUndiscounted(s, cfg.correlations);
    assert SameBothWays(cfg.correlations, cfg.diminishingFactor);
    SameBothWaysIff(cfg.correlations, cfg.diminishingFactor);
    UndiscountedTiesAlike(Bounded(s), cfg);
    OrderIrrelevant(s, t, cfg);
  }

  /** The order of the signals never matters exactly when no pair of methods is discounted or, where nothing diminishes,
      the methods are clustered and the stored discounts act alike in both orientations. */
  lemma OrderIrrelevantIff(cfg: Config)
    requires 0.0 <= cfg.diminishingFactor <= 1.0
    ensures (forall s, t :: DistinctNames(s) && DistinctNames(t) && Permuted(s, t) ==>
            Combined(s, cfg) == Combined(t, cfg))
       <==> Orderly(cfg) && StoredAlike(cfg.correlations, cfg.diminishingFactor)
  {
    SameBothWaysIff(cfg.correlations, cfg.diminishingFactor);
    if Orderly(cfg) && StoredAlike(cfg.correlations, cfg.diminishingFactor) {
      forall s, t | DistinctNames(s) && DistinctNames(t) && Permuted(s, t)
          ensures Combined(s, cfg) == Combined(t, cfg) {
        if cfg.diminishingFactor < 1.0 { NoDiscountsOrder(s, t, cfg); } else { ClusteredOrder(s, t, cfg); }
      }
    } else {
      var s, t := OrderThatMatters(cfg);
    }
  }

  lemma OrderThatMatters(cfg: Config) returns (s: seq<Signal>, t: seq<Signal>)
    requires 0.0 <= cfg.diminishingFactor <= 1.0
    requires !(Orderly(cfg) && SameBothWays(cfg.correlations, cfg.diminishingFactor))
    ensures DistinctNames(s) && DistinctNames(t) && Permuted(s, t) && Combined(s, cfg) != Combined(t, cfg)
  {
    var (m, f) := (cfg.correlations, cfg.diminishingFactor);
    if !SameBothWays(m, f) {
      var a, b :| a != b && !Alike(f, Left(m, a, b), Left(m, b, a));
      s, t := OrientationThatMatters(cfg, a, b);
    } else if f < 1.0 {
      var a, b := NoDiscountsOrAPair(m);
      s, t := ExchangeThatMatters(cfg, a, b);
    } else {
      var a, b, c := ClusteredOrThree(m);
      s, t := ExchangeAmongUnclustered(cfg, a, b, c);
    }
  }

  /** A discount that differs between the orientations matters even without ties. */
  lemma OrientationThatMatters(cfg: Config, a: string, b: string) returns (s: seq<Signal>, t: seq<Signal>)
    requires a != b && 0.0 <= cfg.diminishingFactor
    requires !Alike(cfg.diminishingFactor, Left(cfg.correlations, a, b), Left(cfg.correlations, b, a))
    ensures DistinctNames(s) && DistinctNames(t) && Permuted(s, t) && DistinctConfs(Bounded(s))
    ensures Combined(s, cfg) != Combined(t, cfg)
  {
    var (x, y) := (Signal(a, 0.25), Signal(b, 0.5));
    s, t := [x, y], [y, x];
    DoubtOfTwo(cfg, x, y, s, Left(cfg.correlations, a, b));
    DoubtOfTwo(cfg, x, y, t, Left(cfg.correlations, b, a));
    assert DistinctConfs(Bounded(s));
  }

  lemma DoubtOfTwo(cfg: Config, x: Signal, y: Signal, s: seq<Signal>, w: real)
    requires x.conf == 0.25 && y.conf == 0.5 && x.name != y.name && (s == [x, y] || s == [y, x])
    requires w == if s == [x, y] then Left(cfg.correlations, x.name, y.name) else Left(cfg.correlations, y.name, x.name)
    ensures 1.0 - Combined(s, cfg) == Times(0.5, 1.0 - Times(0.25, Clamp(w)))
  {
    assert Bounded(s) == s;
    assert [x, y][1..] == [y] && [y, x][1..] == [x] && [x][1..] == [] && [y][1..] == [];
    assert SortDesc([y]) == [y] && SortDesc([x]) == [x];
    assert SortDesc(s) == [y, x];
    if s == [x, y] { WeightOfTwo(x, y, cfg.correlations); } else { WeightOfTwo(y, x, cfg.correlations); }
    MultiplierAt(2, 0, cfg.diminishingFactor);
    MultiplierAt(2, 1, cfg.diminishingFactor);
    EffectiveAt(s, cfg, 0, y, 1.0, 1.0);
    EffectiveAt(s, cfg, 1, x, w, 1.0);
    FullEffective(0.5);
    WeightedEffective(0.25, w);
    ComplementOfTwo(SortedEffectives(s, cfg));
  }

  /** While no two signals are equally strong, the order never matters exactly when the stored discounts act alike in
      both orientations. */
  lemma UntiedOrderIrrelevantIff(cfg: Config)
    requires 0.0 <= cfg.diminishingFactor
    ensures (forall s, t :: DistinctNames(s) && Permuted(s, t) && DistinctConfs(Bounded(s)) ==>
            Combined(s, cfg) == Combined(t, cfg))
       <==> StoredAlike(cfg.correlations, cfg.diminishingFactor)
  {
    SameBothWaysIff(cfg.correlations, cfg.diminishingFactor);
    if SameBothWays(cfg.correlations, cfg.diminishingFactor) {
      forall s, t | DistinctNames(s) && Permuted(s, t) && DistinctConfs(Bounded(s))
          ensures Combined(s, cfg) == Combined(t, cfg) {
        DistinctTiesAlike(Bounded(s), cfg);
        OrderIrrelevant(s, t, cfg);
      }
    } else {
      var a, b :| a != b && !Alike(cfg.diminishingFactor, Left(cfg.correlations, a, b), Left(cfg.correlations, b, a));
      var s, t := OrientationThatMatters(cfg, a, b);
    }
  }

  // ---------------------------------------------------------------------------------------------
  // Diminishing returns

  /** The next signal adds no more than this one, and from the second on at most the factor of it. */
  ghost predicate Diminishes(signals: seq<Signal>, cfg: Config, k: nat) {
    k + 1 < |signals| ==>
      var es := SortedEffectives(Bounded(signals), cfg);
      Gain(es, k + 1) <= Times(if k == 0 then 1.0 else cfg.diminishingFactor, Gain(es, k))
  }

  /** A discounted pair: of two weak, equally strong signals the discounted one comes first and adds less. */
  lemma SecondAddsMore(cfg: Config, a: string, b: string) returns (s: seq<Signal>)
    requires a != b && Left(cfg.correlations, a, b) < 1.0 && 0.0 <= cfg.diminishingFactor <= 1.0
    ensures DistinctNames(s) && !Diminishes(s, cfg, 0)
  {
    var w := Left(cfg.correlations, a, b);
    var kept := Clamp(w);
    var x := 0.5 * (1.0 - kept);
    s := [Signal(a, x), Signal(b, x)];
    assert Bounded(s) == s;
    TiedPair(cfg, s, x, w);
    var es := SortedEffectives(s, cfg);
    ContributionsBounded(s, cfg);
    GainIsShareOfDoubt(es, 0);
    GainIsShareOfDoubt(es, 1);
    assert es[..0] == [] && es[..1] == [] + [es[0]];
    ComplementAppend([], es[0]);
    TimesUnit(es[0]);
    TimesUnit(1.0 - es[0]);
    TimesUnit(Gain(es, 0));
    WeakAdds(kept, x);
  }

  lemma TiedPair(cfg: Config, s: seq<Signal>, x: real, w: real)
    requires |s| == 2 && s[0].conf == s[1].conf == x && s[0].name != s[1].name && 0.0 <= x <= 1.0
    requires w == Left(cfg.correlations, s[0].name, s[1].name)
    ensures SortedEffectives(s, cfg)[0] == Times(x, Clamp(w)) && SortedEffectives(s, cfg)[1] == x
  {
    var (p, q) := (s[0], s[1]);
    assert s == [p, q] && s[1..] == [q] && [q][1..] == [];
    assert SortDesc([q]) == [q] && SortDesc(s) == [p, q];
    WeightOfTwo(p, q, cfg.correlations);
    MultiplierAt(2, 0, cfg.diminishingFactor);
    MultiplierAt(2, 1, cfg.diminishingFactor);
    EffectiveAt(s, cfg, 0, p, w, 1.0);
    EffectiveAt(s, cfg, 1, q, 1.0, 1.0);
    WeightedEffective(x, w);
    FullEffective(x);
  }

  lemma WeakAdds(kept: real, x: real)
    requires 0.0 <= kept < 1.0 && x == 0.5 * (1.0 - kept)
    ensures Times(1.0 - Times(x, kept), x) > Times(x, kept)
  {
    TimesMono(x, x, kept, 1.0);
    TimesUnit(x);
    PositiveTimes(1.0 - Times(x, kept) - kept, x);
    TimesSplit(1.0 - Times(x, kept) - kept, kept, x);
    assert Times(kept, x) == Times(x, kept);
  }

  /** Each additional signal adds less, as the factor says, exactly when no pair of methods is discounted. */
  lemma DiminishingReturnsIff(cfg: Config)
    requires 0.0 <= cfg.diminishingFactor <= 1.0
    ensures (forall s, k: nat :: DistinctNames(s) ==> Diminishes(s, cfg, k)) <==> NoDiscounts(cfg.correlations)
  {
    if NoDiscounts(cfg.correlations) {
      forall s, k: nat | DistinctNames(s) ensures Diminishes(s, cfg, k) {
        if k + 1 < |s| {
          NoDiscountsUndiscounted(s, cfg.correlations);
          DiminishingReturns(s, cfg, k);
        }
      }
    } else {
      var a, b := NoDiscountsOrAPair(cfg.correlations);
      var s := SecondAddsMore(cfg, a, b);
    }
  }
}
