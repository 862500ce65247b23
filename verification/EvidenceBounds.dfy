/** Bounds on the combined confidence: no false certainty from accumulation, never above the independent
    noisy-or, and at least the strongest signal when one signal stands out. */
module EvidenceBounds {
  import opened Reals
  import opened EvidenceModel

  ghost predicate Unit(es: seq<real>) {
    forall i :: 0 <= i < |es| ==> 0.0 <= es[i] <= 1.0
  }

  /** Weakening a doubt in [0, 1] by a factor 1 - e costs at most e. */
  lemma TimesLoss(e: real, rest: real)
    requires 0.0 <= e <= 1.0 && 0.0 <= rest <= 1.0
    ensures 0.0 <= Times(1.0 - e, rest) <= 1.0
    ensures rest - e <= Times(1.0 - e, rest) <= 1.0 - e
  {
    TimesMono(e, e, rest, 1.0);
    TimesUnit(e);
    assert Times(1.0 - e, rest) == rest - Times(e, rest);
    TimesMono(1.0 - e, 1.0 - e, rest, 1.0);
    TimesUnit(1.0 - e);
  }

  lemma {:induction false} ComplementInUnit(es: seq<real>)
    requires Unit(es)
    ensures 0.0 <= Complement(es) <= 1.0
  {
    if es != [] {
      ComplementInUnit(es[1..]);
      TimesLoss(es[0], Complement(es[1..]));
    }
  }

  /** More signals, or stronger ones, leave less doubt. */
  lemma {:induction false} ComplementAntitone(a: seq<real>, b: seq<real>)
    requires Unit(a) && Unit(b) && |a| <= |b|
    requires forall i :: 0 <= i < |a| ==> a[i] <= b[i]
    ensures Complement(b) <= Complement(a)
  {
    if a == [] {
      ComplementInUnit(b);
    } else {
      ComplementAntitone(a[1..], b[1..]);
      ComplementInUnit(b[1..]);
      TimesMono(1.0 - b[0], 1.0 - a[0], Complement(b[1..]), Complement(a[1..]));
    }
  }

  /** A tail of contributions under a halving bound takes away at most twice its first bound. */
  lemma {:induction false} HalvingTail(es: seq<real>, bounds: seq<real>)
    requires Unit(es) && |bounds| == |es| > 0
    requires forall i :: 0 <= i < |es| ==> es[i] <= bounds[i]
    requires forall i :: 1 <= i < |es| ==> 0.0 <= 2.0 * bounds[i] <= bounds[i - 1]
    ensures Complement(es) >= 1.0 - 2.0 * bounds[0]
  {
    ComplementInUnit(es[1..]);
    TimesLoss(es[0], Complement(es[1..]));
    if |es| > 1 {
      HalvingTail(es[1..], bounds[1..]);
    }
  }

  // ---------------------------------------------------------------------------------------------
  // Multipliers and contributions

  lemma {:induction false} MultipliersPrefix(m: nat, n: nat, factor: real)
    requires m <= n
    ensures Multipliers(n, factor)[..m] == Multipliers(m, factor)
  {
    if m < n { MultipliersPrefix(m, n - 1, factor); }
  }

  /** The k-th multiplier, whatever the length of the list. */
  lemma {:induction false} MultiplierAt(n: nat, k: nat, factor: real)
    requires k < n
    ensures Multipliers(n, factor)[k] == if k < 2 then 1.0 else Times(Multipliers(n, factor)[k - 1], factor)
  {
    MultipliersPrefix(k + 1, n, factor);
    var (m, p) := (Multipliers(n, factor), Multipliers(k + 1, factor));
    assert m[..k + 1] == p;
    assert m[k] == p[k];
    if k > 0 {
      assert m[k - 1] == p[k - 1];
      assert p[k - 1] == Multipliers(k, factor)[k - 1];
    }
  }

  lemma {:induction false} MultipliersShrink(n: nat, k: nat, factor: real)
    requires k < n && 0.0 <= factor <= 1.0
    ensures 0.0 <= Multipliers(n, factor)[k] <= 1.0
    ensures k >= 2 && factor <= 0.5 ==> 2.0 * Multipliers(n, factor)[k] <= Multipliers(n, factor)[k - 1]
  {
    MultiplierAt(n, k, factor);
    if k >= 2 {
      MultipliersShrink(n, k - 1, factor);
      var prev := Multipliers(n, factor)[k - 1];
      TimesMono(prev, prev, factor, 1.0);
      TimesUnit(prev);
      if factor <= 0.5 {
        TimesMono(prev, prev, factor, 0.5);
        assert Times(prev, 0.5) == prev / 2.0;
      }
    }
  }

  /** A weight of at most one never lets a signal contribute more than its confidence times its multiplier. */
  lemma EffectiveBound(conf: real, weight: real, multiplier: real)
    requires 0.0 <= conf <= 1.0 && weight <= 1.0 && 0.0 <= multiplier <= 1.0
    ensures Effective(conf, weight, multiplier) <= Times(conf, multiplier) <= conf
    ensures weight == 1.0 ==> Effective(conf, weight, multiplier) == Times(conf, multiplier)
  {
    TimesMono(conf, conf, multiplier, 1.0);
    TimesUnit(conf);
    if weight >= 0.0 {
      TimesMono(conf, conf, weight, 1.0);
      TimesMono(Times(conf, weight), conf, multiplier, multiplier);
    } else {
      TimesMono(conf, conf, -weight, -weight);
      assert Times(conf, weight) == -Times(conf, -weight);
      TimesMono(Times(conf, -weight), Times(conf, -weight), multiplier, multiplier);
      assert Times(Times(conf, weight), multiplier) == -Times(Times(conf, -weight), multiplier);
    }
  }

  lemma WeightsAtMostOne(s: seq<Signal>, correlations: map<(string, string), real>, name: string)
    ensures WeightIn(Weights(s, correlations), name) <= 1.0
  {
  }

  lemma SortedProper(s: seq<Signal>)
    requires Proper(s)
    ensures Proper(SortDesc(s))
  {
    SortPermutes(s);
    forall k | 0 <= k < |s| ensures 0.0 <= SortDesc(s)[k].conf <= 1.0 {
      assert SortDesc(s)[k] in s;
    }
  }

  /** Every contribution lies in [0, 1], below confidence times multiplier. */
  lemma {:induction false} ContributionsBounded(s: seq<Signal>, cfg: Config)
    requires Proper(s) && 0.0 <= cfg.diminishingFactor <= 1.0
    ensures var (es, sorted, ms) := (SortedEffectives(s, cfg), SortDesc(s), Multipliers(|s|, cfg.diminishingFactor));
      && Unit(es) && Proper(sorted)
      && forall k :: 0 <= k < |s| ==> es[k] <= Times(sorted[k].conf, ms[k]) <= sorted[k].conf
  {
    SortedProper(s);
    var (sorted, ms) := (SortDesc(s), Multipliers(|s|, cfg.diminishingFactor));
    forall k | 0 <= k < |s| ensures SortedEffectives(s, cfg)[k] <= Times(sorted[k].conf, ms[k]) <= sorted[k].conf {
      MultipliersShrink(|s|, k, cfg.diminishingFactor);
      WeightsAtMostOne(s, cfg.correlations, sorted[k].name);
      EffectiveBound(sorted[k].conf, WeightIn(Weights(s, cfg.correlations), sorted[k].name), ms[k]);
    }
  }

  // ---------------------------------------------------------------------------------------------
  // No false certainty

  function Cube(x: real): real { Times(Times(x, x), x) }

  /** The bounds c, c, c f, c f f, ...: each at most half the one before, from the third on. */
  function Bounds(n: nat, c: real, factor: real): (r: seq<real>)
    ensures |r| == n
  {
    seq(n, k requires 0 <= k < n => Times(c, Multipliers(n, factor)[k]))
  }

  lemma BoundsHalve(n: nat, k: nat, c: real, factor: real)
    requires k < n && 0.0 <= factor <= 0.5 && 0.0 <= c
    ensures 0.0 <= Bounds(n, c, factor)[k]
    ensures k < 2 ==> Bounds(n, c, factor)[k] == c
    ensures k >= 2 ==> 2.0 * Bounds(n, c, factor)[k] <= Bounds(n, c, factor)[k - 1]
  {
    var ms := Multipliers(n, factor);
    MultipliersShrink(n, k, factor);
    MultiplierAt(n, k, factor);
    TimesUnit(c);
    TimesMono(c, c, ms[k], ms[k]);
    if k >= 2 {
      assert 2.0 * Times(c, ms[k]) == Times(c, 2.0 * ms[k]);
      TimesMono(c, c, 2.0 * ms[k], ms[k - 1]);
    }
  }

  lemma ContributionsUnderBounds(s: seq<Signal>, cfg: Config, c: real)
    requires Proper(s) && 0.0 <= cfg.diminishingFactor <= 0.5 && 0.0 <= c <= 1.0
    requires forall i :: 0 <= i < |s| ==> s[i].conf <= c
    ensures Unit(SortedEffectives(s, cfg))
    ensures forall k :: 0 <= k < |s| ==> SortedEffectives(s, cfg)[k] <= Bounds(|s|, c, cfg.diminishingFactor)[k]
  {
    ContributionsBounded(s, cfg);
    SortPermutes(s);
    var (sorted, ms) := (SortDesc(s), Multipliers(|s|, cfg.diminishingFactor));
    forall k | 0 <= k < |s| ensures SortedEffectives(s, cfg)[k] <= Bounds(|s|, c, cfg.diminishingFactor)[k] {
      assert sorted[k] in s;
      MultipliersShrink(|s|, k, cfg.diminishingFactor);
      TimesMono(sorted[k].conf, c, ms[k], ms[k]);
    }
  }

  /** Contributions under such bounds leave at least the doubt of three independent signals of confidence c. */
  lemma ThreeAtMost(es: seq<real>, c: real, factor: real)
    requires Unit(es) && |es| >= 2 && 0.0 <= factor <= 0.5 && 0.0 <= c <= 1.0
    requires forall k :: 0 <= k < |es| ==> es[k] <= Bounds(|es|, c, factor)[k]
    ensures Complement(es) >= Cube(1.0 - c)
  {
    var (bounds, d, rest) := (Bounds(|es|, c, factor), 1.0 - c, Complement(es[2..]));
    BoundsHalve(|es|, 0, c, factor);
    BoundsHalve(|es|, 1, c, factor);
    ComplementInUnit(es[2..]);
    if |es| > 2 {
      forall k | 2 <= k < |es| ensures 0.0 <= 2.0 * bounds[k] <= bounds[k - 1] {
        BoundsHalve(|es|, k, c, factor);
      }
      HalvingTail(es[2..], bounds[2..]);
      assert rest >= d;
    }
    ProductOfThree(es, d);
  }

  lemma ProductOfThree(es: seq<real>, d: real)
    requires |es| >= 2 && 0.0 <= d <= 1.0 - es[0] && d <= 1.0 - es[1] && d <= Complement(es[2..])
    ensures Complement(es) >= Cube(d)
  {
    assert es[1..][1..] == es[2..];
    TimesMono(d, 1.0 - es[1], d, Complement(es[2..]));
    TimesMono(d, 1.0 - es[0], Times(d, d), Complement(es[1..]));
    TimesSwap(d, d, d);
  }

  lemma CubeInUnit(d: real)
    requires 0.0 <= d <= 1.0
    ensures Cube(d) <= d
  {
    TimesMono(d, 1.0, d, 1.0);
    TimesMono(d, d, Times(d, d), 1.0);
    TimesUnit(d);
    TimesUnit(1.0);
    TimesSwap(d, d, d);
  }

  /** However many signals there are and whatever discounts they carry, signals of at most `c` combine to at most
      what three independent signals of confidence `c` would. */
  lemma NoFalseCertainty(signals: seq<Signal>, cfg: Config, c: real)
    requires 0.0 <= cfg.diminishingFactor <= 0.5 && 0.0 <= c <= 1.0
    requires forall i :: 0 <= i < |signals| ==> signals[i].conf <= c
    ensures Combined(signals, cfg) <= 1.0 - Cube(1.0 - c)
  {
    var s := Bounded(signals);
    CubeInUnit(1.0 - c);
    if |s| >= 2 {
      ContributionsUnderBounds(s, cfg, c);
      ThreeAtMost(SortedEffectives(s, cfg), c, cfg.diminishingFactor);
    }
  }

  // ---------------------------------------------------------------------------------------------
  // Below the independent noisy-or

  function Confs(s: seq<Signal>): (r: seq<real>)
    ensures |r| == |s|
  {
    seq(|s|, i requires 0 <= i < |s| => s[i].conf)
  }

  /** The same doubt, read off the signals. */
  function Residue(s: seq<Signal>): real {
    if s == [] then 1.0 else Times(1.0 - s[0].conf, Residue(s[1..]))
  }

  lemma {:induction false} ResidueIsComplement(s: seq<Signal>)
    ensures Residue(s) == Complement(Confs(s))
  {
    if s != [] {
      ResidueIsComplement(s[1..]);
      assert Confs(s)[1..] == Confs(s[1..]);
    }
  }

  lemma {:induction false} InsertResidue(x: Signal, s: seq<Signal>)
    ensures Residue(InsertDesc(x, s)) == Times(1.0 - x.conf, Residue(s))
  {
    var t := InsertDesc(x, s);
    if s == [] || x.conf >= s[0].conf {
      assert t[1..] == s;
    } else {
      assert t[1..] == InsertDesc(x, s[1..]);
      InsertResidue(x, s[1..]);
      TimesSwap(1.0 - s[0].conf, 1.0 - x.conf, Residue(s[1..]));
    }
  }

  lemma {:induction false} SortResidue(s: seq<Signal>)
    ensures Residue(SortDesc(s)) == Residue(s)
  {
    if s != [] {
      SortResidue(s[1..]);
      InsertResidue(s[0], SortDesc(s[1..]));
    }
  }

  /** Weights and diminishing returns only ever reduce: the result never exceeds the independent noisy-or. */
  lemma AtMostNoisyOr(signals: seq<Signal>, cfg: Config)
    requires Proper(signals) && 0.0 <= cfg.diminishingFactor <= 1.0
    ensures signals != [] ==> Min(cfg.cap, Combined(signals, cfg)) <= CombineNoisyOrSimple(Confs(signals), cfg.cap)
  {
    var s := Bounded(signals);
    assert s == signals;
    SortResidue(s);
    ResidueIsComplement(s);
    ResidueIsComplement(SortDesc(s));
    if |s| == 1 {
      assert Confs(s)[1..] == [];
      TimesUnit(1.0 - s[0].conf);
    } else if |s| > 1 {
      ContributionsBounded(s, cfg);
      assert Unit(Confs(SortDesc(s)));
      ComplementAntitone(SortedEffectives(s, cfg), Confs(SortDesc(s)));
    }
  }

  // ---------------------------------------------------------------------------------------------
  // At least the strongest signal

  /** The signal at position t is the last of the strongest, and the only one of its method. */
  ghost predicate LastOfTop(s: seq<Signal>, t: nat) {
    && t < |s|
    && (forall j :: 0 <= j < |s| && j != t ==> s[j].conf <= s[t].conf && s[j].name != s[t].name)
    && (forall j :: t < j < |s| ==> s[j].conf < s[t].conf)
  }

  /** It also takes a place of full weight, because at most two share the top or because nothing diminishes. */
  ghost predicate StandsOut(s: seq<Signal>, t: nat, factor: real) {
    LastOfTop(s, t) && (|OfConf(s, s[t].conf)| <= 2 || factor == 1.0)
  }

  lemma {:induction false} NoneOfConf(s: seq<Signal>, c: real)
    requires forall j :: 0 <= j < |s| ==> s[j].conf != c
    ensures OfConf(s, c) == []
  {
    if s != [] { NoneOfConf(s[1..], c); }
  }

  lemma {:induction false} LastOfConf(s: seq<Signal>, t: nat)
    requires t < |s| && forall j :: t < j < |s| ==> s[j].conf != s[t].conf
    ensures var top := OfConf(s, s[t].conf); top != [] && top[|top| - 1] == s[t]
  {
    if t == 0 { NoneOfConf(s[1..], s[0].conf); } else { LastOfConf(s[1..], t - 1); }
  }

  /** The strongest signals come first. */
  lemma {:induction false} TopFirst(s: seq<Signal>, c: real)
    requires Descending(s) && forall j :: 0 <= j < |s| ==> s[j].conf <= c
    ensures OfConf(s, c) <= s
  {
    if s != [] {
      if s[0].conf == c {
        TopFirst(s[1..], c);
        assert s == [s[0]] + s[1..];
      } else {
        NoneOfConf(s, c);
      }
    }
  }

  /** Its place is the last of those that the strongest take. */
  lemma PlaceOfLastTop(s: seq<Signal>, t: nat) returns (p: nat)
    requires LastOfTop(s, t)
    ensures p < |s| && SortDesc(s)[p] == s[t] && p == |OfConf(s, s[t].conf)| - 1
  {
    var (sorted, c) := (SortDesc(s), s[t].conf);
    SortDescending(s);
    SortPermutes(s);
    forall j | 0 <= j < |sorted| ensures sorted[j].conf <= c { assert sorted[j] in s; }
    SortStable(s, c);
    TopFirst(sorted, c);
    LastOfConf(s, t);
    p := |OfConf(s, c)| - 1;
    assert OfConf(sorted, c)[p] == sorted[p];
  }

  /** It is never discounted. */
  lemma LastTopFullWeight(s: seq<Signal>, t: nat, correlations: map<(string, string), real>)
    requires LastOfTop(s, t)
    ensures WeightIn(Weights(s, correlations), s[t].name) == 1.0
  {
    WeightIsLeast(s, correlations, s[t].name);
  }

  lemma {:induction false} NothingDiminishes(n: nat, k: nat)
    requires k < n
    ensures Multipliers(n, 1.0)[k] == 1.0
  {
    MultiplierAt(n, k, 1.0);
    if k >= 2 {
      NothingDiminishes(n, k - 1);
      TimesUnit(1.0);
    }
  }

  /** A signal that stands out is never discounted or diminished, so the combination is at least as confident as it. */
  lemma AtLeastStrongest(signals: seq<Signal>, cfg: Config, t: nat)
    requires StandsOut(Bounded(signals), t, cfg.diminishingFactor) && 0.0 <= cfg.diminishingFactor <= 1.0
    ensures Combined(signals, cfg) >= Bounded(signals)[t].conf
    ensures Min(cfg.cap, Combined(signals, cfg)) >= Min(cfg.cap, Bounded(signals)[t].conf)
  {
    var s := Bounded(signals);
    if |s| > 1 {
      var p := StandingOutFull(s, t, cfg);
      ContributionsBounded(s, cfg);
      EachBounds(SortedEffectives(s, cfg), p);
    }
  }

  /** No more doubt is left than any one contribution leaves. */
  lemma {:induction false} EachBounds(es: seq<real>, p: nat)
    requires Unit(es) && p < |es|
    ensures Complement(es) <= 1.0 - es[p]
  {
    ComplementInUnit(es[1..]);
    TimesLoss(es[0], Complement(es[1..]));
    if p > 0 {
      EachBounds(es[1..], p - 1);
      TimesMono(1.0 - es[0], 1.0, Complement(es[1..]), Complement(es[1..]));
      TimesUnit(Complement(es[1..]));
    }
  }

  lemma StandingOutFull(s: seq<Signal>, t: nat, cfg: Config) returns (p: nat)
    requires StandsOut(s, t, cfg.diminishingFactor) && Proper(s)
    ensures p < |s| && SortedEffectives(s, cfg)[p] == s[t].conf
  {
    p := PlaceOfLastTop(s, t);
    LastTopFullWeight(s, t, cfg.correlations);
    if p < 2 { MultiplierAt(|s|, p, cfg.diminishingFactor); } else { NothingDiminishes(|s|, p); }
    EffectiveBound(s[t].conf, 1.0, 1.0);
    TimesUnit(s[t].conf);
  }
}
