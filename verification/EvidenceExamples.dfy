/** Where the conditions of the order results are needed: concrete signals, combined with the default correlated
    pairs, for which the results fail without them. */
module EvidenceExamples {
  import opened Wrappers
  import opened Reals
  import opened EvidenceModel
  import opened EvidenceBounds
  import opened EvidenceOrder
  import opened EvidenceLimits
  import opened EvidenceCorrelations

  const DEFAULT_PAIRS: map<(string, string), real> :=
    map[("R3", "R4") := 0.5, ("R2", "R5") := 0.4, ("R4", "R5") := 0.3]

  const DEFAULT_CONFIG := Config(0.95, 0.5, DEFAULT_PAIRS)

  /** The default pairs without diminishing returns. */
  const UNDIMINISHED := Config(0.95, 1.0, DEFAULT_PAIRS)

  lemma DefaultDiscounts()
    ensures Left(DEFAULT_PAIRS, "R3", "R4") == Left(DEFAULT_PAIRS, "R4", "R3") == 0.5
    ensures Left(DEFAULT_PAIRS, "R4", "R5") == Left(DEFAULT_PAIRS, "R5", "R4") == 0.3
    ensures Left(DEFAULT_PAIRS, "R2", "R5") == Left(DEFAULT_PAIRS, "R5", "R2") == 0.4
    ensures Left(DEFAULT_PAIRS, "R3", "R5") == Left(DEFAULT_PAIRS, "R5", "R3") == 1.0
  {
  }

  /** Three signals of the methods R3, R4 and R5, sorted into x, y, z. */
  ghost predicate Example(s: seq<Signal>, x: Signal, y: Signal, z: Signal) {
    && |s| == 3 && SortDesc(s) == [x, y, z] && Bounded(s) == s
    && 0.0 <= z.conf && z.conf <= y.conf && y.conf <= x.conf && x.conf <= 1.0
  }

  /** With weights read off the pairs, what they contribute. */
  lemma ExampleContributions(s: seq<Signal>, factor: real, x: Signal, y: Signal, z: Signal, u: real, v: real, w: real)
    requires Example(s, x, y, z) && 0.0 <= factor <= 1.0
    requires Weight(s, DEFAULT_PAIRS, x.name) == u && Weight(s, DEFAULT_PAIRS, y.name) == v
    requires Weight(s, DEFAULT_PAIRS, z.name) == w && 0.0 <= u <= 1.0 && 0.0 <= v <= 1.0 && 0.0 <= w <= 1.0
    ensures var es := SortedEffectives(s, Config(0.95, factor, DEFAULT_PAIRS));
            es == [Times(x.conf, u), Times(y.conf, v), Times(Times(z.conf, w), factor)]
  {
    EffectivesOfThree(s, Config(0.95, factor, DEFAULT_PAIRS), x, y, z, u, v, w);
    WeightedEffective(x.conf, u);
    WeightedEffective(y.conf, v);
    EffectiveClamped(z.conf, w, factor);
  }

  lemma SortThree(x: Signal, y: Signal, z: Signal)
    requires x.conf >= y.conf && x.conf >= z.conf
    ensures SortDesc([x, y, z]) == if y.conf >= z.conf then [x, y, z] else [x, z, y]
  {
    assert [x, y, z][1..] == [y, z] && [y, z][1..] == [z] && [z][1..] == [];
    assert SortDesc([z]) == [z];
    assert SortDesc([y, z]) == InsertDesc(y, [z]) == if y.conf >= z.conf then [y, z] else [z, y];
  }

  /** With the default pairs, two equally strong correlated signals combine differently in the two orders, because
      the one listed first is the one discounted. */
  lemma TieMakesOrderMatter()
    ensures var (x, y, z) := (Signal("R4", 0.5), Signal("R3", 0.5), Signal("R5", 0.9));
      Combined([x, y, z], DEFAULT_CONFIG) == 0.93625 && Combined([y, x, z], DEFAULT_CONFIG) == 0.930625
  {
    var (x, y, z) := (Signal("R4", 0.5), Signal("R3", 0.5), Signal("R5", 0.9));
    TiedHistoryFirst(0.5, x, y, z);
    TiedNamingFirst(0.5, x, y, z);
    DoubtOfThree([x, y, z], DEFAULT_CONFIG, 0.1, 0.85, 0.75);
    DoubtOfThree([y, x, z], DEFAULT_CONFIG, 0.1, 0.75, 0.925);
  }

  lemma TiedHistoryFirst(factor: real, x: Signal, y: Signal, z: Signal)
    requires 0.0 <= factor <= 1.0 && x == Signal("R4", 0.5) && y == Signal("R3", 0.5) && z == Signal("R5", 0.9)
    ensures Bounded([x, y, z]) == [x, y, z]
    ensures SortedEffectives([x, y, z], Config(0.95, factor, DEFAULT_PAIRS)) == [0.9, 0.15, Times(0.5, factor)]
  {
    DefaultDiscounts();
    SortWithThirdOnTop(x, y, z);
    WeightsOfThree(x, y, z, DEFAULT_PAIRS);
    ExampleContributions([x, y, z], factor, z, x, y, 1.0, 0.3, 1.0);
  }

  lemma TiedNamingFirst(factor: real, x: Signal, y: Signal, z: Signal)
    requires 0.0 <= factor <= 1.0 && x == Signal("R4", 0.5) && y == Signal("R3", 0.5) && z == Signal("R5", 0.9)
    ensures Bounded([y, x, z]) == [y, x, z]
    ensures SortedEffectives([y, x, z], Config(0.95, factor, DEFAULT_PAIRS)) == [0.9, 0.25, Times(0.15, factor)]
  {
    DefaultDiscounts();
    SortWithThirdOnTop(y, x, z);
    WeightsOfThree(y, x, z, DEFAULT_PAIRS);
    ExampleContributions([y, x, z], factor, z, y, x, 1.0, 0.5, 0.3);
  }

  /** With the default pairs, a discount on the second signal can leave the third to add more than it. */
  lemma DiscountsBreakDiminishing()
    ensures var s := [Signal("R4", 0.5), Signal("R3", 0.5), Signal("R5", 0.9)];
            var es := SortedEffectives(Bounded(s), DEFAULT_CONFIG);
            Gain(es, 2) > Gain(es, 1)
  {
    TiedHistoryFirst(0.5, Signal("R4", 0.5), Signal("R3", 0.5), Signal("R5", 0.9));
    ThirdGainsMore([0.9, 0.15, 0.25]);
  }

  lemma ThirdGainsMore(es: seq<real>)
    requires Unit(es) && |es| == 3 && es[0] < 1.0
    requires Times(1.0 - es[1], es[2]) > es[1]
    ensures Gain(es, 2) > Gain(es, 1)
  {
    var doubt := Complement(es[..1]);
    GainIsShareOfDoubt(es, 1);
    GainIsShareOfDoubt(es, 2);
    assert es[..1] == [] + [es[0]] && es[..2] == es[..1] + [es[1]];
    ComplementAppend([], es[0]);
    ComplementAppend(es[..1], es[1]);
    TimesUnit(1.0 - es[0]);
    TimesSwap(doubt, 1.0 - es[1], es[2]);
    PositiveTimes(doubt, Times(1.0 - es[1], es[2]) - es[1]);
    TimesSplit(Times(1.0 - es[1], es[2]) - es[1], es[1], doubt);
    TimesCommutes(doubt, Times(1.0 - es[1], es[2]) - es[1]);
    TimesCommutes(doubt, es[1]);
    TimesCommutes(doubt, Times(1.0 - es[1], es[2]));
  }

  /** With the default pairs, three equally strong signals can combine to less than any one of them: the one that
      stays undiscounted comes third. */
  lemma ThreeTiedFallBelow()
    ensures Combined([Signal("R5", 0.9), Signal("R4", 0.9), Signal("R3", 0.9)], DEFAULT_CONFIG) < 0.78
  {
    var (x, y, z) := (Signal("R5", 0.9), Signal("R4", 0.9), Signal("R3", 0.9));
    ThreeTied(x, y, z);
    DoubtOfThree([x, y, z], DEFAULT_CONFIG, 0.73, 0.55, 0.55);
  }

  lemma ThreeTied(x: Signal, y: Signal, z: Signal)
    requires x == Signal("R5", 0.9) && y == Signal("R4", 0.9) && z == Signal("R3", 0.9)
    ensures Bounded([x, y, z]) == [x, y, z] && SortedEffectives([x, y, z], DEFAULT_CONFIG) == [0.27, 0.45, 0.45]
  {
    DefaultDiscounts();
    SortThree(x, y, z);
    WeightsOfThree(x, y, z, DEFAULT_PAIRS);
    ExampleContributions([x, y, z], 0.5, x, y, z, 0.3, 0.5, 1.0);
  }

  /** With the default pairs, raising a signal from 0.49 to 0.51 lowers the result: it overtakes a correlated
      signal, which is then discounted in its stead and moves to the third place. */
  lemma RaisingCanLower()
    ensures var (x, y) := (Signal("R5", 0.9), Signal("R3", 0.5));
      && Combined([x, y, Signal("R4", 0.49)], DEFAULT_CONFIG) > 0.95 == DEFAULT_CONFIG.cap
      && 0.93 > Combined([x, y, Signal("R4", 0.51)], DEFAULT_CONFIG)
  {
    var (x, y, z, z') := (Signal("R5", 0.9), Signal("R3", 0.5), Signal("R4", 0.49), Signal("R4", 0.51));
    BeforeRaise(0.5, x, y, z);
    AfterRaise(0.5, x, y, z');
    DoubtOfThree([x, y, z], DEFAULT_CONFIG, 0.1, 0.5, 0.9265);
    DoubtOfThree([x, y, z'], DEFAULT_CONFIG, 0.1, 0.847, 0.875);
  }

  lemma BeforeRaise(factor: real, x: Signal, y: Signal, z: Signal)
    requires 0.0 <= factor <= 1.0 && x == Signal("R5", 0.9) && y == Signal("R3", 0.5) && z == Signal("R4", 0.49)
    ensures Bounded([x, y, z]) == [x, y, z]
    ensures SortedEffectives([x, y, z], Config(0.95, factor, DEFAULT_PAIRS)) == [0.9, 0.5, Times(0.147, factor)]
  {
    DefaultDiscounts();
    SortThree(x, y, z);
    WeightsOfThree(x, y, z, DEFAULT_PAIRS);
    ExampleContributions([x, y, z], factor, x, y, z, 1.0, 1.0, 0.3);
  }

  lemma AfterRaise(factor: real, x: Signal, y: Signal, z: Signal)
    requires 0.0 <= factor <= 1.0 && x == Signal("R5", 0.9) && y == Signal("R3", 0.5) && z == Signal("R4", 0.51)
    ensures Bounded([x, y, z]) == [x, y, z]
    ensures SortedEffectives([x, y, z], Config(0.95, factor, DEFAULT_PAIRS)) == [0.9, 0.153, Times(0.25, factor)]
  {
    DefaultDiscounts();
    SortThree(x, y, z);
    WeightsOfThree(x, y, z, DEFAULT_PAIRS);
    ExampleContributions([x, y, z], factor, x, z, y, 1.0, 0.3, 0.5);
  }

  /** Both happen when nothing diminishes, too: the default pairs are not clustered. */
  lemma TieMattersUndiminished()
    ensures var (x, y, z) := (Signal("R4", 0.5), Signal("R3", 0.5), Signal("R5", 0.9));
      Combined([x, y, z], UNDIMINISHED) == 0.9575 && Combined([y, x, z], UNDIMINISHED) == 0.93625
  {
    var (x, y, z) := (Signal("R4", 0.5), Signal("R3", 0.5), Signal("R5", 0.9));
    TiedHistoryFirst(1.0, x, y, z);
    TiedNamingFirst(1.0, x, y, z);
    DoubtOfThree([x, y, z], UNDIMINISHED, 0.1, 0.85, 0.5);
    DoubtOfThree([y, x, z], UNDIMINISHED, 0.1, 0.75, 0.85);
  }

  lemma RaisingCanLowerUndiminished()
    ensures var (x, y) := (Signal("R5", 0.9), Signal("R3", 0.5));
      && Combined([x, y, Signal("R4", 0.49)], UNDIMINISHED) > 0.957
      && 0.937 > Combined([x, y, Signal("R4", 0.51)], UNDIMINISHED)
  {
    var (x, y, z, z') := (Signal("R5", 0.9), Signal("R3", 0.5), Signal("R4", 0.49), Signal("R4", 0.51));
    BeforeRaise(1.0, x, y, z);
    AfterRaise(1.0, x, y, z');
    DoubtOfThree([x, y, z], UNDIMINISHED, 0.1, 0.5, 0.853);
    DoubtOfThree([x, y, z'], UNDIMINISHED, 0.1, 0.847, 0.75);
  }

  const ZERO_STORED: map<(string, string), real> := map[("A", "B") := 0.0]

  /** A zero stored for a pair is ignored in its own orientation and applied in the other, so that the order of two
      signals of different strength matters. */
  lemma ZeroIgnoredOneWay(cap: real, factor: real)
    ensures var (x, y, cfg) := (Signal("A", 0.25), Signal("B", 0.5), Config(cap, factor, ZERO_STORED));
      && Discount(ZERO_STORED, "A", "B") == None && Discount(ZERO_STORED, "B", "A") == Some(0.0)
      && Combined([x, y], cfg) == 0.625 && Combined([y, x], cfg) == 0.5
  {
    var (x, y, cfg) := (Signal("A", 0.25), Signal("B", 0.5), Config(cap, factor, ZERO_STORED));
    DoubtOfTwo(cfg, x, y, [x, y], 1.0);
    DoubtOfTwo(cfg, x, y, [y, x], 0.0);
  }
}
