/** How the combination responds to its input: more or stronger evidence never hurts while no pair of methods is
    discounted, and the order of the signals does not matter while discounts act alike in both orientations and equally
    strong signals neither discount each other nor weigh differently. */
module EvidenceOrder {
  import opened Wrappers
  import opened Reals
  import opened EvidenceModel
  import opened EvidenceBounds

  // ---------------------------------------------------------------------------------------------
  // Monotonicity

  /** `t` has at least as many signals as `s`, each place at least as strong. */
  ghost predicate Below(s: seq<Signal>, t: seq<Signal>) {
    |s| <= |t| && forall i :: 0 <= i < |s| ==> s[i].conf <= t[i].conf
  }

  /** `t` has a signal at least as strong for each of `s`, in the same order, and any number of others in between. */
  ghost predicate Strengthened(s: seq<Signal>, t: seq<Signal>)
    decreases |t|
  {
    if t == [] then s == []
    else (s != [] && s[0].conf <= t[0].conf && Strengthened(s[1..], t[1..])) || Strengthened(s, t[1..])
  }

  /** `t` is `s` with any number of signals raised, at their place, and any number of signals added, anywhere. */
  ghost predicate Grown(s: seq<Signal>, t: seq<Signal>)
    decreases |t|
  {
    if t == [] then s == []
    else
      || (s != [] && s[0].name == t[0].name && s[0].conf <= t[0].conf && Grown(s[1..], t[1..]))
      || Grown(s, t[1..])
  }

  lemma {:induction false} GrownStrengthened(s: seq<Signal>, t: seq<Signal>)
    requires Grown(s, t)
    ensures Strengthened(s, t)
    decreases |t|
  {
    if t != [] {
      if s != [] && s[0].name == t[0].name && s[0].conf <= t[0].conf && Grown(s[1..], t[1..]) {
        GrownStrengthened(s[1..], t[1..]);
      } else {
        GrownStrengthened(s, t[1..]);
      }
    }
  }

  /** Where an insertion leaves place i: between its old holder and the one before, and no further from the new
      signal than these. */
  lemma {:induction false} InsertPlace(x: Signal, s: seq<Signal>, i: nat)
    requires Descending(s) && i <= |s|
    ensures var u := InsertDesc(x, s)[i].conf;
      && (i < |s| ==> s[i].conf <= u && (u <= x.conf || u <= s[i].conf))
      && (i > 0 ==> Min(x.conf, s[i - 1].conf) <= u <= s[i - 1].conf)
      && (i == 0 ==> x.conf <= u)
      && (i == |s| ==> u <= x.conf)
    decreases |s|
  {
    if s != [] && x.conf < s[0].conf && i > 0 {
      InsertPlace(x, s[1..], i - 1);
    }
  }

  lemma {:induction false} InsertBelow(x: Signal, y: Signal, s: seq<Signal>, t: seq<Signal>)
    requires Descending(s) && Descending(t) && Below(s, t) && x.conf <= y.conf
    ensures Below(InsertDesc(x, s), InsertDesc(y, t))
  {
    forall i | 0 <= i < |s| + 1 ensures InsertDesc(x, s)[i].conf <= InsertDesc(y, t)[i].conf {
      InsertPlace(x, s, i);
      InsertPlace(y, t, i);
    }
  }

  lemma AddedBelow(x: Signal, s: seq<Signal>, t: seq<Signal>)
    requires Descending(t) && Below(s, t)
    ensures Below(s, InsertDesc(x, t))
  {
    forall i | 0 <= i < |s| ensures s[i].conf <= InsertDesc(x, t)[i].conf {
      InsertPlace(x, t, i);
    }
  }

  /** Sorting keeps the advantage, even when a raised signal overtakes others. */
  lemma {:induction false} SortBelow(s: seq<Signal>, t: seq<Signal>)
    requires Strengthened(s, t)
    ensures Below(SortDesc(s), SortDesc(t))
    decreases |t|
  {
    if t != [] {
      SortDescending(t[1..]);
      if s != [] && s[0].conf <= t[0].conf && Strengthened(s[1..], t[1..]) {
        SortBelow(s[1..], t[1..]);
        SortDescending(s[1..]);
        InsertBelow(s[0], t[0], SortDesc(s[1..]), SortDesc(t[1..]));
      } else {
        SortBelow(s, t[1..]);
        AddedBelow(t[0], SortDesc(s), SortDesc(t[1..]));
      }
    }
  }

  /** What the pair leaves of the weight of its weaker method. */
  function Left(correlations: map<(string, string), real>, a: string, b: string): (w: real)
    ensures w <= 1.0
  {
    var d := Discount(correlations, a, b);
    if d.Some? then Min(1.0, d.value) else 1.0
  }

  /** No pair of the signals is discounted. */
  ghost predicate Undiscounted(s: seq<Signal>, correlations: map<(string, string), real>) {
    forall i, j :: 0 <= i < j < |s| ==> Left(correlations, s[i].name, s[j].name) == 1.0
  }

  lemma UndiscountedWeight(s: seq<Signal>, correlations: map<(string, string), real>, name: string)
    requires Undiscounted(s, correlations)
    ensures WeightIn(Weights(s, correlations), name) == 1.0
  {
    UndiscountedFullWeight(s, correlations, name);
  }

  lemma UndiscountedFullWeight(s: seq<Signal>, correlations: map<(string, string), real>, name: string)
    requires Undiscounted(s, correlations)
    ensures Weight(s, correlations, name) == 1.0
  {
    WeightIsLeast(s, correlations, name);
    var w := Weight(s, correlations, name);
    if h: nat, k: nat :| Hits(s, correlations, h, k, name, w) {
      assert Left(correlations, s[h].name, s[k].name) == 1.0;
    }
  }

  /** Without discounts a contribution is confidence times multiplier, and the doubt covers all cases. */
  lemma UndiscountedCombined(signals: seq<Signal>, cfg: Config)
    requires Undiscounted(Bounded(signals), cfg.correlations) && 0.0 <= cfg.diminishingFactor <= 1.0
    ensures var s := Bounded(signals);
            var (es, sorted, ms) := (SortedEffectives(s, cfg), SortDesc(s), Multipliers(|s|, cfg.diminishingFactor));
      && Unit(es) && Combined(signals, cfg) == 1.0 - Complement(es)
      && forall k :: 0 <= k < |s| ==> 0.0 <= sorted[k].conf && es[k] == Times(sorted[k].conf, ms[k])
  {
    var s := Bounded(signals);
    ContributionsBounded(s, cfg);
    SortPermutes(s);
    var sorted := SortDesc(s);
    forall k | 0 <= k < |s|
        ensures SortedEffectives(s, cfg)[k] == Times(sorted[k].conf, Multipliers(|s|, cfg.diminishingFactor)[k]) {
      UndiscountedWeight(s, cfg.correlations, sorted[k].name);
      MultipliersShrink(|s|, k, cfg.diminishingFactor);
      EffectiveBound(sorted[k].conf, 1.0, Multipliers(|s|, cfg.diminishingFactor)[k]);
    }
    if |s| == 1 {
      MultiplierAt(1, 0, cfg.diminishingFactor);
      TimesUnit(sorted[0].conf);
      TimesUnit(1.0 - sorted[0].conf);
      assert SortedEffectives(s, cfg)[1..] == [];
    }
  }

  /** Among signals of which no pair is discounted, and while nothing diminishes, the combination is the simplified
      noisy-or. */
  lemma UndiscountedIsNoisyOr(signals: seq<Signal>, cfg: Config)
    requires Undiscounted(Bounded(signals), cfg.correlations)
    requires cfg.diminishingFactor == 1.0 || (|signals| <= 2 && 0.0 <= cfg.diminishingFactor <= 1.0)
    ensures (if signals == [] then 0.0 else Min(cfg.cap, Combined(signals, cfg)))
         == CombineNoisyOrSimple(Confs(Bounded(signals)), cfg.cap)
  {
    var s := Bounded(signals);
    UndiscountedCombined(signals, cfg);
    var (es, sorted, ms) := (SortedEffectives(s, cfg), SortDesc(s), Multipliers(|s|, cfg.diminishingFactor));
    forall k | 0 <= k < |s| ensures es[k] == Confs(sorted)[k] {
      if cfg.diminishingFactor == 1.0 { NothingDiminishes(|s|, k); }
      MultiplierAt(|s|, k, cfg.diminishingFactor);
      TimesUnit(sorted[k].conf);
    }
    assert es == Confs(sorted);
    SortResidue(s);
    ResidueIsComplement(s);
    ResidueIsComplement(sorted);
  }

  lemma {:induction false} BoundedStrengthened(s: seq<Signal>, t: seq<Signal>)
    requires Strengthened(s, t)
    ensures Strengthened(Bounded(s), Bounded(t))
    decreases |t|
  {
    if t != [] {
      assert Bounded(t)[1..] == Bounded(t[1..]);
      if s != [] && s[0].conf <= t[0].conf && Strengthened(s[1..], t[1..]) {
        assert Bounded(s)[1..] == Bounded(s[1..]);
        BoundedStrengthened(s[1..], t[1..]);
      } else {
        BoundedStrengthened(s, t[1..]);
      }
    }
  }

  /** Among signals of which no pair is discounted, raising signals and adding signals never lowers the combined
      confidence. */
  lemma {:induction false} StrongerNeverLower(s: seq<Signal>, t: seq<Signal>, cfg: Config)
    requires Strengthened(s, t) && 0.0 <= cfg.diminishingFactor <= 1.0
    requires Undiscounted(Bounded(s), cfg.correlations) && Undiscounted(Bounded(t), cfg.correlations)
    ensures Combined(s, cfg) <= Combined(t, cfg)
  {
    var (a, b, f) := (Bounded(s), Bounded(t), cfg.diminishingFactor);
    BoundedStrengthened(s, t);
    SortBelow(a, b);
    UndiscountedCombined(s, cfg);
    UndiscountedCombined(t, cfg);
    MultipliersPrefix(|a|, |b|, f);
    forall k | 0 <= k < |a| ensures SortedEffectives(a, cfg)[k] <= SortedEffectives(b, cfg)[k] {
      assert Multipliers(|b|, f)[..|a|][k] == Multipliers(|b|, f)[k];
      MultipliersShrink(|a|, k, f);
      TimesMono(SortDesc(a)[k].conf, SortDesc(b)[k].conf, Multipliers(|a|, f)[k], Multipliers(|a|, f)[k]);
    }
    ComplementAntitone(SortedEffectives(a, cfg), SortedEffectives(b, cfg));
  }

  lemma {:induction false} SameGrown(s: seq<Signal>)
    ensures Grown(s, s)
  {
    if s != [] { SameGrown(s[1..]); }
  }

  /** Raising one signal is such a change. */
  lemma {:induction false} RaiseStrengthens(s: seq<Signal>, i: nat, conf: real)
    requires i < |s| && s[i].conf <= conf
    ensures var t := s[i := Signal(s[i].name, conf)]; Grown(s, t) && Strengthened(s, t)
  {
    var t := s[i := Signal(s[i].name, conf)];
    if i == 0 {
      SameGrown(s[1..]);
      assert t[1..] == s[1..];
    } else {
      RaiseStrengthens(s[1..], i - 1, conf);
      assert t[1..] == s[1..][i - 1 := Signal(s[i].name, conf)];
    }
    GrownStrengthened(s, t);
  }

  /** So is adding one, anywhere. */
  lemma {:induction false} AddStrengthens(s: seq<Signal>, i: nat, x: Signal)
    requires i <= |s|
    ensures var t := s[..i] + [x] + s[i..]; Grown(s, t) && Strengthened(s, t)
  {
    var t := s[..i] + [x] + s[i..];
    if i == 0 {
      SameGrown(s);
      assert t[1..] == s;
    } else {
      AddStrengthens(s[1..], i - 1, x);
      assert t[1..] == s[1..][..i - 1] + [x] + s[1..][i - 1..];
    }
    GrownStrengthened(s, t);
  }

  // ---------------------------------------------------------------------------------------------
  // Diminishing returns

  /** How much confidence the k-th strongest signal adds to that of the stronger ones. */
  function Gain(es: seq<real>, k: nat): real
    requires k < |es|
  {
    Complement(es[..k]) - Complement(es[..k + 1])
  }

  lemma {:induction false} ComplementAppend(es: seq<real>, x: real)
    ensures Complement(es + [x]) == Times(Complement(es), 1.0 - x)
  {
    if es == [] {
      assert [x][1..] == [];
      TimesUnit(1.0 - x);
    } else {
      assert (es + [x])[1..] == es[1..] + [x];
      ComplementAppend(es[1..], x);
      TimesSwap(1.0 - es[0], Complement(es[1..]), 1.0 - x);
    }
  }

  /** A signal adds its contribution, as far as the stronger ones have left doubt. */
  lemma GainIsShareOfDoubt(es: seq<real>, k: nat)
    requires Unit(es) && k < |es|
    ensures Gain(es, k) == Times(Complement(es[..k]), es[k]) >= 0.0
    ensures 0.0 <= Complement(es[..k + 1]) <= Complement(es[..k])
  {
    var doubt := Complement(es[..k]);
    ComplementInUnit(es[..k]);
    ComplementInUnit(es[..k + 1]);
    assert es[..k + 1] == es[..k] + [es[k]];
    ComplementAppend(es[..k], es[k]);
    assert Times(doubt, 1.0 - es[k]) == doubt - Times(doubt, es[k]);
    TimesMono(doubt, doubt, es[k], es[k]);
  }

  /** From the second signal on, a contribution is at most the diminishing factor times the one before. */
  lemma ContributionsShrink(signals: seq<Signal>, cfg: Config, k: nat)
    requires Undiscounted(Bounded(signals), cfg.correlations) && 0.0 <= cfg.diminishingFactor <= 1.0
    requires k + 1 < |signals|
    ensures var es := SortedEffectives(Bounded(signals), cfg);
            es[k + 1] <= Times(if k == 0 then 1.0 else cfg.diminishingFactor, es[k])
  {
    var (s, f) := (Bounded(signals), cfg.diminishingFactor);
    var (sorted, ms) := (SortDesc(s), Multipliers(|s|, f));
    UndiscountedCombined(signals, cfg);
    SortDescending(s);
    MultipliersShrink(|s|, k, f);
    MultiplierAt(|s|, k, f);
    MultiplierAt(|s|, k + 1, f);
    TimesMono(sorted[k + 1].conf, sorted[k].conf, ms[k], ms[k]);
    var share := Times(sorted[k].conf, ms[k]);
    if k == 0 {
      TimesUnit(share);
    } else {
      TimesSwap(f, sorted[k + 1].conf, ms[k]);
      TimesMono(f, f, Times(sorted[k + 1].conf, ms[k]), share);
      TimesCommutes(f, ms[k]);
    }
  }

  /** While no pair is discounted each additional signal adds less: the second no more than the first, and every later
      one at most the diminishing factor of what the one before it added. */
  lemma DiminishingReturns(signals: seq<Signal>, cfg: Config, k: nat)
    requires Undiscounted(Bounded(signals), cfg.correlations) && 0.0 <= cfg.diminishingFactor <= 1.0
    requires k + 1 < |signals|
    ensures var es := SortedEffectives(Bounded(signals), cfg);
            0.0 <= Gain(es, k + 1) <= Times(if k == 0 then 1.0 else cfg.diminishingFactor, Gain(es, k))
  {
    var es := SortedEffectives(Bounded(signals), cfg);
    var share := if k == 0 then 1.0 else cfg.diminishingFactor;
    var doubt := Complement(es[..k]);
    UndiscountedCombined(signals, cfg);
    ContributionsShrink(signals, cfg, k);
    GainIsShareOfDoubt(es, k);
    GainIsShareOfDoubt(es, k + 1);
    TimesMono(Complement(es[..k + 1]), doubt, es[k + 1], Times(share, es[k]));
    TimesSwap(doubt, share, es[k]);
  }

  // ---------------------------------------------------------------------------------------------
  // Order of the signals

  ghost predicate DistinctConfs(s: seq<Signal>) {
    forall i, j :: 0 <= i < j < |s| ==> s[i].conf != s[j].conf
  }

  /** The discount of a pair is the same in both orientations exactly when no zero is stored alone, and two stored
      discounts are equal unless one of them is zero, which gives way to the other. */
  lemma DiscountSymmetricIff(m: map<(string, string), real>)
    ensures (forall a, b :: Discount(m, a, b) == Discount(m, b, a)) <==>
      (forall a, b :: (a, b) in m && a != b ==>
         if (b, a) in m then m[(a, b)] == m[(b, a)] || m[(a, b)] == 0.0 || m[(b, a)] == 0.0 else m[(a, b)] != 0.0)
  {
    if forall a, b :: Discount(m, a, b) == Discount(m, b, a) {
      forall a, b | (a, b) in m && a != b
        ensures if (b, a) in m then m[(a, b)] == m[(b, a)] || m[(a, b)] == 0.0 || m[(b, a)] == 0.0 else m[(a, b)] != 0.0
      {
        assert Discount(m, a, b) == Discount(m, b, a);
      }
    }
  }

  /** While multipliers are not negative, a weight below zero acts like zero. */
  predicate Alike(factor: real, w: real, w': real) {
    w == w' || (0.0 <= factor && w <= 0.0 && w' <= 0.0)
  }

  ghost predicate SameBothWays(m: map<(string, string), real>, factor: real) {
    forall a, b :: a != b ==> Alike(factor, Left(m, a, b), Left(m, b, a))
  }

  /** The same, read off the stored discounts: no zero alone, and two nonzero ones that act alike. */
  ghost predicate StoredAlike(m: map<(string, string), real>, factor: real) {
    forall a, b :: (a, b) in m && a != b ==>
      if (b, a) in m
      then m[(a, b)] == 0.0 || m[(b, a)] == 0.0 || Alike(factor, Min(1.0, m[(a, b)]), Min(1.0, m[(b, a)]))
      else m[(a, b)] != 0.0
  }

  lemma SameBothWaysIff(m: map<(string, string), real>, factor: real)
    ensures SameBothWays(m, factor) <==> StoredAlike(m, factor)
  {
    if SameBothWays(m, factor) {
      forall a, b | (a, b) in m && a != b
        ensures if (b, a) in m
                then m[(a, b)] == 0.0 || m[(b, a)] == 0.0 || Alike(factor, Min(1.0, m[(a, b)]), Min(1.0, m[(b, a)]))
                else m[(a, b)] != 0.0
      {
        assert Alike(factor, Left(m, a, b), Left(m, b, a));
      }
    }
  }

  /** Two places of the list hold these equally strong signals. */
  ghost predicate Tied(s: multiset<Signal>, x: Signal, y: Signal) {
    x in s && y in s && x.conf == y.conf && (x != y || s[x] >= 2)
  }

  /** Equally strong signals neither discount each other nor carry different weights. */
  ghost predicate TiesAlike(s: seq<Signal>, cfg: Config) {
    forall x, y :: Tied(multiset(s), x, y) ==>
      && Left(cfg.correlations, x.name, y.name) == 1.0
      && Alike(cfg.diminishingFactor, Weight(s, cfg.correlations, x.name), Weight(s, cfg.correlations, y.name))
  }

  lemma {:induction false} OccursOnce(s: seq<Signal>, x: Signal)
    requires DistinctConfs(s)
    ensures multiset(s)[x] <= 1
  {
    if s != [] {
      OccursOnce(s[1..], x);
      assert s == [s[0]] + s[1..];
      if x == s[0] { assert x !in s[1..]; }
    }
  }

  /** So it is when no signals are equally strong, */
  lemma DistinctTiesAlike(s: seq<Signal>, cfg: Config)
    requires DistinctConfs(s)
    ensures TiesAlike(s, cfg)
  {
    forall x, y | Tied(multiset(s), x, y) ensures false {
      assert x in s && y in s;
      OccursOnce(s, x);
    }
  }

  lemma {:induction false} OccursAgain(s: seq<Signal>, x: Signal) returns (i: nat, j: nat)
    requires multiset(s)[x] >= 2
    ensures i < j < |s| && s[i] == x && s[j] == x
  {
    assert s == [s[0]] + s[1..];
    if s[0] == x {
      assert x in multiset(s[1..]);
      i := 0;
      j :| 1 <= j < |s| && s[j] == x;
    } else {
      i, j := OccursAgain(s[1..], x);
      i, j := i + 1, j + 1;
    }
  }

  lemma TwoPlaces(s: seq<Signal>, x: Signal, y: Signal) returns (i: nat, j: nat)
    requires Tied(multiset(s), x, y)
    ensures i < |s| && j < |s| && i != j && s[i] == x && s[j] == y
  {
    if x == y {
      i, j := OccursAgain(s, x);
    } else {
      assert x in s && y in s;
      i :| 0 <= i < |s| && s[i] == x;
      j :| 0 <= j < |s| && s[j] == y;
    }
  }

  /** and when no pair of the signals is discounted. */
  lemma UndiscountedTiesAlike(s: seq<Signal>, cfg: Config)
    requires Undiscounted(s, cfg.correlations) && SameBothWays(cfg.correlations, cfg.diminishingFactor)
    ensures TiesAlike(s, cfg)
  {
    var m := cfg.correlations;
    forall x, y | Tied(multiset(s), x, y)
      ensures Left(m, x.name, y.name) == 1.0 && Alike(cfg.diminishingFactor, Weight(s, m, x.name), Weight(s, m, y.name))
    {
      var i, j := TwoPlaces(s, x, y);
      assert Left(m, x.name, y.name) == 1.0 by {
        assert if i < j then Left(m, x.name, y.name) == 1.0 else Left(m, y.name, x.name) == 1.0;
        if x.name != y.name { assert Alike(cfg.diminishingFactor, Left(m, x.name, y.name), Left(m, y.name, x.name)); }
      }
      UndiscountedFullWeight(s, m, x.name);
      UndiscountedFullWeight(s, m, y.name);
    }
  }

  lemma WithoutOne(s: seq<Signal>, p: nat)
    requires p < |s|
    ensures multiset(s[..p] + s[p + 1..]) == multiset(s) - multiset{s[p]}
  {
    assert s == s[..p] + [s[p]] + s[p + 1..];
  }

  lemma PermutedMembers(s: seq<Signal>, t: seq<Signal>)
    requires multiset(s) == multiset(t)
    ensures forall x :: x in s <==> x in t
    ensures |s| == |t|
  {
    forall x ensures x in s <==> x in t { assert x in s <==> x in multiset(s); }
    assert |multiset(s)| == |s| && |multiset(t)| == |t|;
  }

  lemma SameRest(s: seq<Signal>, t: seq<Signal>, p: nat)
    requires multiset(s) == multiset(t) && s != [] && p < |t| && t[p] == s[0]
    ensures multiset(s[..0] + s[1..]) == multiset(t[..p] + t[p + 1..])
  {
    WithoutOne(s, 0);
    WithoutOne(t, p);
  }

  lemma OccursTwice(t: seq<Signal>, i: nat, j: nat)
    requires i < j < |t| && t[i] == t[j]
    ensures multiset(t)[t[i]] >= 2
  {
    assert t == t[..i] + [t[i]] + t[i + 1..j] + [t[j]] + t[j + 1..];
  }

  /** Taking out one of the strongest shifts the others up by one place. */
  lemma StrongestTaken(b: seq<Signal>, p: nat)
    requires Descending(b) && p < |b| && b[0].conf == b[p].conf
    ensures var rest := b[..p] + b[p + 1..];
            Descending(rest) && forall k :: 0 <= k < |rest| ==> rest[k].conf == b[k + 1].conf
  {
    var rest := b[..p] + b[p + 1..];
    forall k | 0 <= k < |rest| ensures rest[k].conf == b[k + 1].conf {
      if k < p { assert b[0].conf >= b[k].conf >= b[k + 1].conf >= b[p].conf; }
    }
    assert forall k :: 0 <= k < |rest| ==> rest[k] == b[if k < p then k else k + 1];
  }

  lemma SameTop(a: seq<Signal>, b: seq<Signal>) returns (p: nat)
    requires Descending(a) && Descending(b) && multiset(a) == multiset(b) && a != []
    ensures |a| == |b| && p < |b| && b[p] == a[0] && b[0].conf == a[0].conf
  {
    PermutedMembers(a, b);
    assert a[0] in b && b[0] in a;
    p :| 0 <= p < |b| && b[p] == a[0];
    var q :| 0 <= q < |a| && a[q] == b[0];
    assert b[0].conf >= b[p].conf == a[0].conf >= a[q].conf;
  }

  lemma SameTails(a: seq<Signal>, b: seq<Signal>) returns (rest: seq<Signal>)
    requires Descending(a) && Descending(b) && multiset(a) == multiset(b) && a != []
    ensures |b| == |a| == |rest| + 1 && b[0].conf == a[0].conf
    ensures Descending(rest) && multiset(a[1..]) == multiset(rest)
    ensures forall k :: 0 <= k < |rest| ==> rest[k].conf == b[k + 1].conf
  {
    var p := SameTop(a, b);
    SameRest(a, b, p);
    assert a[..0] + a[1..] == a[1..];
    StrongestTaken(b, p);
    rest := b[..p] + b[p + 1..];
  }

  /** Strengths come in one order only, from strongest to weakest. */
  lemma {:induction false} SameConfs(a: seq<Signal>, b: seq<Signal>, k: nat)
    requires Descending(a) && Descending(b) && multiset(a) == multiset(b) && k < |a|
    ensures k < |b| && a[k].conf == b[k].conf
  {
    var rest := SameTails(a, b);
    if k > 0 { SameConfs(a[1..], rest, k - 1); }
  }

  /** A discount that hits a method in one order hits it alike in every order. */
  lemma HitTransfers(s: seq<Signal>, t: seq<Signal>, m: map<(string, string), real>, factor: real, h: nat, k: nat,
                     name: string, d: real) returns (d': real)
    requires multiset(s) == multiset(t) && SameBothWays(m, factor)
    requires forall x, y :: Tied(multiset(s), x, y) ==> Left(m, x.name, y.name) == 1.0
    requires Hits(s, m, h, k, name, d) && d < 1.0
    ensures Alike(factor, d, d') && exists p, q :: Hits(t, m, p, q, name, d')
  {
    PermutedMembers(s, t);
    assert s[h] in t && s[k] in t;
    assert s[h].conf != s[k].conf by {
      if s[h] == s[k] { OccursTwice(s, h, k); }
      assert s[h].conf == s[k].conf ==> Tied(multiset(s), s[h], s[k]);
    }
    var p: nat :| p < |t| && t[p] == s[h];
    var q: nat :| q < |t| && t[q] == s[k];
    if p < q {
      d' := d;
      assert Hits(t, m, p, q, name, d');
    } else {
      d' := HitReversed(m, factor, s[h].name, s[k].name, d);
      assert Hits(t, m, q, p, name, d');
    }
  }

  lemma HitReversed(m: map<(string, string), real>, factor: real, a: string, b: string, d: real) returns (d': real)
    requires SameBothWays(m, factor) && Discount(m, a, b) == Some(d) && d < 1.0
    ensures Discount(m, b, a) == Some(d') && Alike(factor, d, d')
  {
    if a == b {
      d' := d;
    } else {
      assert Alike(factor, Left(m, a, b), Left(m, b, a));
      d' := Discount(m, b, a).value;
    }
  }

  /** A method weighs at most as much in another order, up to acting alike. */
  lemma WeightTransfers(s: seq<Signal>, t: seq<Signal>, m: map<(string, string), real>, factor: real, name: string)
    requires multiset(s) == multiset(t) && SameBothWays(m, factor)
    requires forall x, y :: Tied(multiset(s), x, y) ==> Left(m, x.name, y.name) == 1.0
    ensures Weight(t, m, name) <= Weight(s, m, name) || Alike(factor, Weight(t, m, name), Weight(s, m, name))
  {
    var w := Weight(s, m, name);
    WeightIsLeast(s, m, name);
    WeightIsLeast(t, m, name);
    if w != 1.0 {
      var h: nat, k: nat :| Hits(s, m, h, k, name, w);
      var d' := HitTransfers(s, t, m, factor, h, k, name, w);
    }
  }

  lemma WeightOrderIrrelevant(s: seq<Signal>, t: seq<Signal>, m: map<(string, string), real>, factor: real,
                              name: string)
    requires multiset(s) == multiset(t) && SameBothWays(m, factor)
    requires forall x, y :: Tied(multiset(s), x, y) ==> Left(m, x.name, y.name) == 1.0
    ensures Alike(factor, Weight(s, m, name), Weight(t, m, name))
  {
    WeightTransfers(s, t, m, factor, name);
    WeightTransfers(t, s, m, factor, name);
  }

  lemma {:induction false} MultipliersNonnegative(n: nat, k: nat, factor: real)
    requires k < n && 0.0 <= factor
    ensures 0.0 <= Multipliers(n, factor)[k]
  {
    MultiplierAt(n, k, factor);
    if k >= 2 {
      MultipliersNonnegative(n, k - 1, factor);
      TimesMono(0.0, Multipliers(n, factor)[k - 1], factor, factor);
    }
  }

  lemma EffectiveAlike(conf: real, w: real, w': real, multiplier: real, factor: real)
    requires 0.0 <= conf && Alike(factor, w, w') && (0.0 <= factor ==> 0.0 <= multiplier)
    ensures Effective(conf, w, multiplier) == Effective(conf, w', multiplier)
  {
    if w != w' {
      NothingLeft(conf, w, multiplier);
      NothingLeft(conf, w', multiplier);
    }
  }

  lemma NothingLeft(conf: real, w: real, multiplier: real)
    requires 0.0 <= conf && w <= 0.0 && 0.0 <= multiplier
    ensures Effective(conf, w, multiplier) == 0.0
  {
    TimesMono(0.0, conf, -w, -w);
    assert Times(conf, w) == -Times(conf, -w);
    TimesMono(0.0, Times(conf, -w), multiplier, multiplier);
    assert Times(Times(conf, w), multiplier) == -Times(Times(conf, -w), multiplier);
  }

  lemma BoundedWithoutOne(t: seq<Signal>, p: nat)
    requires p < |t|
    ensures multiset(Bounded(t)) == multiset(Bounded(t[..p] + t[p + 1..])) + multiset{Bounded([t[p]])[0]}
  {
    var (u, v, x) := (Bounded(t[..p]), Bounded(t[p + 1..]), Bounded([t[p]])[0]);
    assert Bounded(t[..p] + t[p + 1..]) == u + v;
    assert Bounded(t) == u + [x] + v;
  }

  lemma {:induction false} BoundedPermutes(s: seq<Signal>, t: seq<Signal>)
    requires multiset(s) == multiset(t)
    ensures multiset(Bounded(s)) == multiset(Bounded(t))
  {
    PermutedMembers(s, t);
    if s != [] {
      assert s[0] in t;
      var p :| 0 <= p < |t| && t[p] == s[0];
      SameRest(s, t, p);
      BoundedPermutes(s[..0] + s[1..], t[..p] + t[p + 1..]);
      BoundedWithoutOne(s, 0);
      BoundedWithoutOne(t, p);
    }
  }

  /** While the stored discounts act alike in both orientations, and equally strong signals too, the order in which the
      signals are listed does not matter. */
  lemma OrderIrrelevant(s: seq<Signal>, t: seq<Signal>, cfg: Config)
    requires multiset(s) == multiset(t)
    requires StoredAlike(cfg.correlations, cfg.diminishingFactor) && TiesAlike(Bounded(s), cfg)
    ensures Combined(s, cfg) == Combined(t, cfg)
  {
    var (a, b) := (Bounded(s), Bounded(t));
    SameBothWaysIff(cfg.correlations, cfg.diminishingFactor);
    PermutedMembers(s, t);
    BoundedPermutes(s, t);
    PermutedMembers(a, b);
    if |a| == 1 {
      assert a[0] in b;
    } else {
      SameEffectives(a, b, cfg);
    }
  }

  lemma SameEffectives(a: seq<Signal>, b: seq<Signal>, cfg: Config)
    requires Proper(a) && TiesAlike(a, cfg) && multiset(a) == multiset(b)
    requires SameBothWays(cfg.correlations, cfg.diminishingFactor)
    ensures SortedEffectives(a, cfg) == SortedEffectives(b, cfg)
  {
    PermutedMembers(a, b);
    forall k | 0 <= k < |a| ensures SortedEffectives(a, cfg)[k] == SortedEffectives(b, cfg)[k] {
      SameContribution(a, b, cfg, k);
    }
  }

  lemma SameContribution(a: seq<Signal>, b: seq<Signal>, cfg: Config, k: nat)
    requires Proper(a) && TiesAlike(a, cfg) && multiset(a) == multiset(b) && |a| == |b| && k < |a|
    requires SameBothWays(cfg.correlations, cfg.diminishingFactor)
    ensures SortedEffectives(a, cfg)[k] == SortedEffectives(b, cfg)[k]
  {
    var (m, f, x, y) := (cfg.correlations, cfg.diminishingFactor, SortDesc(a)[k], SortDesc(b)[k]);
    SortDescending(a);
    SortDescending(b);
    SortPermutes(a);
    SortPermutes(b);
    SameConfs(SortDesc(a), SortDesc(b), k);
    PermutedMembers(a, b);
    assert x in a && y in b && y in a;
    assert x != y ==> Tied(multiset(a), x, y);
    WeightOrderIrrelevant(a, b, m, f, y.name);
    if 0.0 <= f { MultipliersNonnegative(|a|, k, f); }
    WeightsAlike(a, b, m, f, x, y);
    EffectiveAlike(x.conf, WeightIn(Weights(a, m), x.name), WeightIn(Weights(b, m), y.name), Multipliers(|a|, f)[k], f);
  }

  lemma WeightsAlike(a: seq<Signal>, b: seq<Signal>, m: map<(string, string), real>, factor: real, x: Signal, y: Signal)
    requires x in a && y in b && Alike(factor, Weight(a, m, y.name), Weight(b, m, y.name))
    requires x == y || Alike(factor, Weight(a, m, x.name), Weight(a, m, y.name))
    ensures Alike(factor, WeightIn(Weights(a, m), x.name), WeightIn(Weights(b, m), y.name))
  {
    assert x.name in Weights(a, m) && y.name in Weights(b, m);
  }
}
