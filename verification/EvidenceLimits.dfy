/** Exactly when the laws of the combination hold for all signals: the correlations that keep a law, and for any others
    signals that break it. */
module EvidenceLimits {
  import opened Wrappers
  import opened Reals
  import opened EvidenceModel
  import opened EvidenceBounds
  import opened EvidenceOrder

  // ---------------------------------------------------------------------------------------------
  // At least the strongest signal

  ghost predicate TopConf(s: seq<Signal>, c: real) {
    (exists i :: 0 <= i < |s| && s[i].conf == c) && forall i :: 0 <= i < |s| ==> s[i].conf <= c
  }

  ghost predicate Discounting(m: map<(string, string), real>) {
    forall p :: p in m ==> 0.0 < m[p] <= 1.0
  }

  function Pairs(s: seq<Signal>): set<(string, string)> {
    set i, j | 0 <= i < |s| && 0 <= j < |s| :: (s[i].name, s[j].name)
  }

  /** All methods correlated alike. */
  function AllPairs(s: seq<Signal>, d: real): map<(string, string), real> {
    map p | p in Pairs(s) :: d
  }

  lemma PairDiscount(s: seq<Signal>, d: real, i: nat, j: nat)
    requires i < |s| && j < |s| && d != 0.0
    ensures Discount(AllPairs(s, d), s[i].name, s[j].name) == Some(d)
  {
    assert (s[i].name, s[j].name) in AllPairs(s, d);
  }

  /** The signal gives way to another: a stronger one, a later one as strong, or one of the same method. */
  ghost predicate GivesWay(s: seq<Signal>, i: nat, j: nat) {
    && i < |s| && j < |s| && j != i
    && (s[j].conf > s[i].conf || s[j].name == s[i].name || (i < j && s[j].conf >= s[i].conf))
  }

  lemma GivesWayIff(s: seq<Signal>, i: nat)
    requires i < |s|
    ensures LastOfTop(s, i) <==> forall j :: !GivesWay(s, i, j)
  {
    if forall j :: !GivesWay(s, i, j) {
      forall j: nat | j < |s| && j != i
        ensures s[j].conf <= s[i].conf && s[j].name != s[i].name && (i < j ==> s[j].conf < s[i].conf)
      {
        assert !GivesWay(s, i, j);
      }
    }
  }

  lemma WeakerOfPair(s: seq<Signal>, i: nat, j: nat)
    requires GivesWay(s, i, j)
    ensures Weaker(s, if i < j then i else j, if i < j then j else i) == s[i].name
  {
  }

  /** Then every method but that of the last of the strongest is discounted. */
  lemma OthersDiscounted(s: seq<Signal>, i: nat, j: nat, d: real)
    requires GivesWay(s, i, j) && d != 0.0
    ensures Weight(s, AllPairs(s, d), s[i].name) <= d
  {
    WeakerOfPair(s, i, j);
    PairDiscount(s, d, i, j);
    PairDiscount(s, d, j, i);
    if i < j {
      WeightBelowHit(s, AllPairs(s, d), i, j, s[i].name, d);
    } else {
      WeightBelowHit(s, AllPairs(s, d), j, i, s[i].name, d);
    }
  }

  lemma WeightBelowHit(s: seq<Signal>, m: map<(string, string), real>, i: nat, j: nat, name: string, d: real)
    requires Hits(s, m, i, j, name, d)
    ensures Weight(s, m, name) <= d
  {
    WeightIsLeast(s, m, name);
  }

  lemma DiscountedContribution(s: seq<Signal>, cfg: Config, k: nat, d: real)
    requires Proper(s) && k < |s| && 0.0 <= d && 0.0 <= cfg.diminishingFactor <= 1.0
    requires Weight(s, cfg.correlations, SortDesc(s)[k].name) <= d
    ensures SortedEffectives(s, cfg)[k] <= d
  {
    SortedProper(s);
    WeightFound(s, cfg.correlations, k);
    MultipliersShrink(|s|, k, cfg.diminishingFactor);
    var (x, m) := (SortDesc(s)[k], Multipliers(|s|, cfg.diminishingFactor)[k]);
    var w := Weight(s, cfg.correlations, x.name);
    EffectiveClamped(x.conf, w, m);
    TimesMono(x.conf, 1.0, Clamp(w), d);
    TimesMono(Times(x.conf, Clamp(w)), d, m, 1.0);
    TimesUnit(d);
  }

  lemma WeightFound(s: seq<Signal>, m: map<(string, string), real>, k: nat)
    requires k < |s|
    ensures WeightIn(Weights(s, m), SortDesc(s)[k].name) == Weight(s, m, SortDesc(s)[k].name)
  {
    SortPermutes(s);
    assert SortDesc(s)[k] in s;
  }

  lemma EffectiveClamped(conf: real, w: real, multiplier: real)
    requires 0.0 <= conf <= 1.0 && w <= 1.0 && 0.0 <= multiplier <= 1.0
    ensures Effective(conf, w, multiplier) == Times(Times(conf, Clamp(w)), multiplier)
  {
    if w < 0.0 {
      NothingLeft(conf, w, multiplier);
      NothingLeft(conf, 0.0, multiplier);
      assert Times(conf, 0.0) == 0.0;
      assert Times(0.0, multiplier) == 0.0;
    } else {
      TimesMono(conf, 1.0, w, 1.0);
      TimesUnit(1.0);
      TimesMono(Times(conf, w), 1.0, multiplier, 1.0);
    }
  }

  /** Small contributions, all but one, leave the doubt of that one but for little. */
  lemma {:induction false} FewContribute(es: seq<real>, p: int, e: real, d: real)
    requires Unit(es) && 0.0 <= e && 0.0 <= d
    requires forall k :: 0 <= k < |es| ==> es[k] <= if k == p then e else d
    ensures Complement(es) >= 1.0 - (if 0 <= p < |es| then e else 0.0) - Times(|es| as real, d)
  {
    if es == [] {
      assert Times(0.0, d) == 0.0;
    } else {
      ComplementInUnit(es[1..]);
      TimesLoss(es[0], Complement(es[1..]));
      FewContribute(es[1..], p - 1, e, d);
      assert |es| as real == |es[1..]| as real + 1.0;
      TimesSplit(|es[1..]| as real, 1.0, d);
      TimesUnit(d);
    }
  }

  /** The last of the strongest takes one place only. */
  lemma OneLastTop(s: seq<Signal>, t: nat, p: nat, k: nat)
    requires LastOfTop(s, t) && p < |s| && k < |s| && SortDesc(s)[p] == s[t] == SortDesc(s)[k]
    ensures p == k
  {
    SortPermutes(s);
    if p != k {
      OccursTwice(SortDesc(s), if p < k then p else k, if p < k then k else p);
      var i, j := OccursAgain(s, s[t]);
    }
  }

  /** What the signals contribute when all methods are correlated alike: little, but for one that is the last of the
      strongest and has its method to itself. */
  lemma LittleContributed(s: seq<Signal>, cfg: Config, d: real, t: nat, p: int, k: nat)
    requires Proper(s) && k < |s| && 0.0 < d && 0.0 <= cfg.diminishingFactor <= 1.0
            && cfg.correlations == AllPairs(s, d)
    requires if p < 0 then forall i :: !LastOfTop(s, i) else LastOfTop(s, t) && p < |s| && SortDesc(s)[p] == s[t]
    requires k != p
    ensures SortedEffectives(s, cfg)[k] <= d
  {
    var i := PlaceBeforeSorting(s, k);
    var j := OtherGivesWay(s, t, p, k, i);
    OthersDiscounted(s, i, j, d);
    DiscountedContribution(s, cfg, k, d);
  }

  lemma OtherGivesWay(s: seq<Signal>, t: nat, p: int, k: nat, i: nat) returns (j: nat)
    requires k < |s| && i < |s| && SortDesc(s)[k] == s[i] && k != p
    requires if p < 0 then forall i :: !LastOfTop(s, i) else LastOfTop(s, t) && p < |s| && SortDesc(s)[p] == s[t]
    ensures GivesWay(s, i, j)
  {
    if LastOfTop(s, i) {
      assert i == t;
      OneLastTop(s, t, p, k);
    }
    GivesWayIff(s, i);
    j :| GivesWay(s, i, j);
  }

  lemma PlaceBeforeSorting(s: seq<Signal>, k: nat) returns (i: nat)
    requires k < |s|
    ensures i < |s| && s[i] == SortDesc(s)[k]
  {
    SortPermutes(s);
    assert SortDesc(s)[k] in s;
    i :| 0 <= i < |s| && s[i] == SortDesc(s)[k];
  }

  /** Whose own contribution diminishes when three or more share the top. */
  lemma DiminishedTop(s: seq<Signal>, cfg: Config, p: nat, c: real)
    requires Proper(s) && 2 <= p < |s| && 0.0 <= cfg.diminishingFactor <= 1.0 && SortDesc(s)[p].conf == c
    ensures SortedEffectives(s, cfg)[p] <= Times(c, cfg.diminishingFactor)
  {
    ContributionsBounded(s, cfg);
    DiminishedMultiplier(|s|, p, cfg.diminishingFactor);
    TimesMono(c, c, Multipliers(|s|, cfg.diminishingFactor)[p], cfg.diminishingFactor);
  }

  lemma DiminishedMultiplier(n: nat, p: nat, factor: real)
    requires 2 <= p < n && 0.0 <= factor <= 1.0
    ensures 0.0 <= Multipliers(n, factor)[p] <= factor
  {
    var ms := Multipliers(n, factor);
    MultipliersShrink(n, p - 1, factor);
    MultiplierAt(n, p, factor);
    TimesMono(ms[p - 1], 1.0, factor, factor);
    TimesUnit(factor);
  }

  /** So small a share of a gap that n of them do not fill it. */
  lemma ShareOfGap(n: nat, gap: real) returns (d: real)
    requires 0.0 < gap <= 1.0
    ensures 0.0 < d <= 1.0 && Times(n as real, d) < gap
  {
    d := gap / (n + 1) as real;
    assert d * (n + 1) as real == gap;
    assert Times(n as real, d) == gap - d;
    TimesMono(0.0, n as real, 0.0, d);
  }

  lemma AllPairsDiscounting(s: seq<Signal>, d: real)
    requires 0.0 < d <= 1.0
    ensures Discounting(AllPairs(s, d))
  {
  }

  /** The one signal, if any, that is the last of the strongest; it comes third or later when none stands out. */
  lemma TopPlace(s: seq<Signal>, factor: real) returns (t: nat, p: int)
    requires forall t :: !StandsOut(s, t, factor)
    ensures if p < 0 then forall i :: !LastOfTop(s, i)
            else LastOfTop(s, t) && 2 <= p < |s| && SortDesc(s)[p] == s[t] && factor != 1.0
  {
    t, p := 0, -1;
    if u: nat :| LastOfTop(s, u) {
      assert !StandsOut(s, u, factor);
      t := u;
      p := PlaceOfLastTop(s, t);
    }
  }

  /** Signals of which none stands out combine to less than the strongest under some correlations. */
  lemma NoneStandsOut(signals: seq<Signal>, cap: real, factor: real, c: real) returns (m: map<(string, string), real>)
    requires 0.0 <= factor <= 1.0 && TopConf(Bounded(signals), c) && c > 0.0
    requires forall t :: !StandsOut(Bounded(signals), t, factor)
    ensures Discounting(m) && Combined(signals, Config(cap, factor, m)) < c
  {
    var s := Bounded(signals);
    if |s| == 1 { SingleStandsOut(s, factor); }
    var t, p := TopPlace(s, factor);
    var e := if p < 0 then 0.0 else Times(c, factor);
    if p >= 0 { LessThanAll(c, factor); }
    var d := ShareOfGap(|s|, c - e);
    m := AllPairs(s, d);
    AllPairsDiscounting(s, d);
    LittleInAll(s, Config(cap, factor, m), c, e, d, t, p);
  }

  lemma LittleInAll(s: seq<Signal>, cfg: Config, c: real, e: real, d: real, t: nat, p: int)
    requires Proper(s) && TopConf(s, c) && 0.0 < d && 0.0 <= cfg.diminishingFactor <= 1.0
    requires cfg.correlations == AllPairs(s, d) && e == (if p < 0 then 0.0 else Times(c, cfg.diminishingFactor))
            && 0.0 <= e
    requires if p < 0 then forall i :: !LastOfTop(s, i) else LastOfTop(s, t) && 2 <= p < |s| && SortDesc(s)[p] == s[t]
    ensures Complement(SortedEffectives(s, cfg)) >= 1.0 - e - Times(|s| as real, d)
  {
    ContributionsBounded(s, cfg);
    forall k | 0 <= k < |s| ensures SortedEffectives(s, cfg)[k] <= if k == p then e else d {
      if k == p { DiminishedTop(s, cfg, p, c); } else { LittleContributed(s, cfg, d, t, p, k); }
    }
    FewContribute(SortedEffectives(s, cfg), p, e, d);
  }

  lemma LessThanAll(c: real, factor: real)
    requires 0.0 < c && 0.0 <= factor < 1.0
    ensures 0.0 <= Times(c, factor) < c
  {
    assert c * (1.0 - factor) > 0.0;
    TimesMono(0.0, c, factor, factor);
  }

  lemma SingleStandsOut(s: seq<Signal>, factor: real)
    requires |s| == 1
    ensures StandsOut(s, 0, factor)
  {
    assert s[1..] == [];
  }

  lemma CombinedNotNegative(signals: seq<Signal>, cfg: Config)
    requires 0.0 <= cfg.diminishingFactor <= 1.0
    ensures 0.0 <= Combined(signals, cfg)
  {
    var s := Bounded(signals);
    ContributionsBounded(s, cfg);
    ComplementInUnit(SortedEffectives(s, cfg));
  }

  /** The combination is at least as confident as the strongest signal, whatever the correlations, exactly when a signal
      stands out: it is the last of the strongest, has its method to itself, and shares the top with at most one other
      unless nothing diminishes. */
  lemma AtLeastStrongestIff(signals: seq<Signal>, cap: real, factor: real, c: real)
    requires 0.0 <= factor <= 1.0 && TopConf(Bounded(signals), c)
    ensures (forall m :: Discounting(m) ==> Combined(signals, Config(cap, factor, m)) >= c)
       <==> c == 0.0 || exists t :: StandsOut(Bounded(signals), t, factor)
  {
    var s := Bounded(signals);
    if c == 0.0 {
      forall m ensures Combined(signals, Config(cap, factor, m)) >= c {
        CombinedNotNegative(signals, Config(cap, factor, m));
      }
    } else if t: nat :| StandsOut(s, t, factor) {
      assert s[t].conf == c;
      forall m ensures Combined(signals, Config(cap, factor, m)) >= c {
        AtLeastStrongest(signals, Config(cap, factor, m), t);
      }
    } else {
      var m := NoneStandsOut(signals, cap, factor, c);
    }
  }
}
