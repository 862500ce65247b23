/** The federated benchmark: cohorts, clipped submissions, and releases charged against a privacy budget. */
module Federated {
  import opened Wrappers
  import opened Sequences
  import opened Reals
  import opened Keys

  datatype Config = Config(epsilonTotalQuarterly: real, epsilonPerRelease: real, minCohortSize: int,
                           costPerTokenClip: real, carbonPerInferenceClip: real)

  const COST := "cost_per_token_usd"
  const CARBON := "carbon_per_inference_gco2e"
  const CONFIDENCE := "attribution_confidence"

  /** The clipping bound of a metric. */
  function SensitivityBound(cfg: Config, metric: string): real {
    if metric == COST then cfg.costPerTokenClip
    else if metric == CARBON then cfg.carbonPerInferenceClip
    else if metric == CONFIDENCE then 1.0
    else if metric == "waste_pct" then 100.0
    else 1000.0
  }

  function Clip(value: real, bound: real): real { Max(0.0, Min(value, bound)) }

  /** Submissions are filed under organisation, metric and period. */
  function MetricKey(org: string, metric: string, period: string): string { Join(org, metric, period) }

  /** Clipping takes a value to the nearest one between zero and the bound of its metric. */
  lemma ClippedToNearest(cfg: Config, metric: string, rawValue: real, other: real)
    ensures var bounds := map["cost_per_token_usd" := cfg.costPerTokenClip,
                              "carbon_per_inference_gco2e" := cfg.carbonPerInferenceClip,
                              "attribution_confidence" := 1.0, "waste_pct" := 100.0];
            var bound := if metric in bounds then bounds[metric] else 1000.0;
            var clipped := Clip(rawValue, SensitivityBound(cfg, metric));
      && 0.0 <= clipped && (clipped <= bound || (bound < 0.0 && clipped == 0.0))
      && (0.0 <= other <= bound ==> Distance(rawValue, clipped) <= Distance(rawValue, other))
  {
  }

  // ---------------------------------------------------------------------------------------------
  // The released mean

  /** The latest value of one organisation, if it has submitted any. */
  function Latest(m: map<string, seq<real>>, key: string): (r: seq<real>)
    ensures |r| <= 1
  {
    if key in m && m[key] != [] then [m[key][|m[key]| - 1]] else []
  }

  /** The latest value of each member that has submitted, in member order. */
  function LatestValues(metrics: map<string, seq<real>>, members: seq<string>, metric: string,
                        period: string): seq<real> {
    if members == [] then []
    else
      var n := |members| - 1;
      LatestValues(metrics, members[..n], metric, period) + Latest(metrics, MetricKey(members[n], metric, period))
  }

  function Sum(values: seq<real>): real {
    if values == [] then 0.0 else Sum(values[..|values| - 1]) + values[|values| - 1]
  }

  function Mean(values: seq<real>): real
    requires values != []
  {
    Sum(values) / |values| as real
  }

  function MeanSensitivity(bound: real, n: nat): real
    requires n > 0
  {
    bound / n as real
  }

  ghost predicate WithinBound(values: seq<real>, bound: real) {
    forall i :: 0 <= i < |values| ==> 0.0 <= values[i] <= bound
  }

  ghost predicate SameExceptAt(a: seq<real>, b: seq<real>, p: int) {
    |a| == |b| && forall i :: 0 <= i < |a| && i != p ==> a[i] == b[i]
  }

  /** Both lists have the same values except perhaps at one place. */
  ghost predicate DifferAtMostOnce(a: seq<real>, b: seq<real>) {
    exists p :: SameExceptAt(a, b, p)
  }

  lemma {:induction false} SumChange(a: seq<real>, b: seq<real>, p: int, bound: real)
    requires SameExceptAt(a, b, p) && WithinBound(a, bound) && WithinBound(b, bound) && 0.0 <= bound
    ensures -bound <= Sum(a) - Sum(b) <= bound
  {
    if a != [] {
      var n := |a| - 1;
      if p == n {
        assert a[..n] == b[..n];
      } else {
        SumChange(a[..n], b[..n], p, bound);
      }
    }
  }

  lemma {:induction false} SumReplaced(a: seq<real>, p: nat, v: real)
    requires p < |a|
    ensures Sum(a[p := v]) == Sum(a) + v - a[p]
  {
    var n := |a| - 1;
    if p == n {
      assert a[p := v][..n] == a[..n];
    } else {
      SumReplaced(a[..n], p, v);
      assert a[p := v][..n] == a[..n][p := v];
    }
  }

  /** A mean moves by an equal share of the change of any one value, so by the whole sensitivity when that value crosses
      the clipping range. */
  lemma MeanMovesExactly(a: seq<real>, p: nat, v: real, bound: real)
    requires p < |a|
    ensures Mean(a[p := v]) - Mean(a) == (v - a[p]) / |a| as real
    ensures a[p] == 0.0 && v == bound ==> Mean(a[p := v]) - Mean(a) == MeanSensitivity(bound, |a|)
  {
    SumReplaced(a, p, v);
    QuotientMoves(Sum(a), v - a[p], |a| as real);
  }

  lemma QuotientMoves(x: real, d: real, n: real)
    requires n > 0.0
    ensures (x + d) / n - x / n == d / n
  {
  }

  lemma {:induction false} MeanOfEqual(a: seq<real>, v: real)
    requires a != [] && forall i :: 0 <= i < |a| ==> a[i] == v
    ensures Mean(a) == v
  {
    SumOfEqual(a, v);
    assert Times(|a| as real, v) / |a| as real == v;
  }

  lemma {:induction false} SumOfEqual(a: seq<real>, v: real)
    requires forall i :: 0 <= i < |a| ==> a[i] == v
    ensures Sum(a) == Times(|a| as real, v)
  {
    if a != [] {
      SumOfEqual(a[..|a| - 1], v);
      TimesSplit((|a| - 1) as real, 1.0, v);
      TimesUnit(v);
    } else {
      TimesZero(v);
    }
  }

  /** `b` has one value more than `a`, at place p. */
  ghost predicate OneMoreAt(a: seq<real>, b: seq<real>, p: nat) {
    p < |b| && a == b[..p] + b[p + 1..]
  }

  /** The lists differ by one value changed, added or taken away. */
  ghost predicate OneApart(a: seq<real>, b: seq<real>) {
    || DifferAtMostOnce(a, b)
    || (exists p :: OneMoreAt(a, b, p))
    || (exists p :: OneMoreAt(b, a, p))
  }

  lemma {:induction false} SumWithout(b: seq<real>, p: nat)
    requires p < |b|
    ensures Sum(b) == Sum(b[..p] + b[p + 1..]) + b[p]
  {
    var n := |b| - 1;
    var a := b[..p] + b[p + 1..];
    if p == n {
      assert a == b[..n];
    } else {
      SumWithout(b[..n], p);
      assert a[..|a| - 1] == b[..n][..p] + b[..n][p + 1..] && a[|a| - 1] == b[n];
    }
  }

  lemma {:induction false} SumWithin(a: seq<real>, bound: real)
    requires WithinBound(a, bound) && 0.0 <= bound
    ensures 0.0 <= Sum(a) <= Times(|a| as real, bound)
  {
    if a != [] {
      SumWithin(a[..|a| - 1], bound);
      TimesSplit((|a| - 1) as real, 1.0, bound);
      TimesUnit(bound);
    } else {
      TimesZero(bound);
    }
  }

  /** Changing one value within the clipping range moves the mean by at most the sensitivity the noise is scaled to. */
  lemma MeanMovesLittle(a: seq<real>, b: seq<real>, bound: real)
    requires a != [] && DifferAtMostOnce(a, b) && WithinBound(a, bound) && WithinBound(b, bound) && 0.0 <= bound
    ensures -MeanSensitivity(bound, |a|) <= Mean(a) - Mean(b) <= MeanSensitivity(bound, |a|)
  {
    var p :| SameExceptAt(a, b, p);
    SumChange(a, b, p, bound);
    DivideBound(Sum(a), Sum(b), bound, |a| as real);
  }

  /** So does adding one, even against the sensitivity of the longer list. */
  lemma MeanOfOneMore(a: seq<real>, b: seq<real>, p: nat, bound: real)
    requires a != [] && OneMoreAt(a, b, p) && WithinBound(a, bound) && WithinBound(b, bound) && 0.0 <= bound
    ensures |b| == |a| + 1
    ensures -MeanSensitivity(bound, |b|) <= Mean(a) - Mean(b) <= MeanSensitivity(bound, |b|)
    ensures MeanSensitivity(bound, |b|) <= MeanSensitivity(bound, |a|)
  {
    SumWithout(b, p);
    SumWithin(a, bound);
    MeanInserted(Sum(a), b[p], |a| as real, bound);
  }

  lemma MeanInserted(sum: real, v: real, n: real, bound: real)
    requires n >= 1.0 && 0.0 <= sum <= Times(n, bound) && 0.0 <= v <= bound
    ensures -(bound / (n + 1.0)) <= sum / n - (sum + v) / (n + 1.0) <= bound / (n + 1.0)
    ensures bound / (n + 1.0) <= bound / n
  {
    MeanWithin(sum, n, bound);
    MeanStep(sum, v, n);
    QuotientWithin(sum / n - v, bound, n + 1.0);
    SmallerShare(bound, n);
  }

  lemma MeanStep(sum: real, v: real, n: real)
    requires n > 0.0
    ensures sum / n - (sum + v) / (n + 1.0) == (sum / n - v) / (n + 1.0)
  {
    var (x, y) := (sum / n, (sum + v) / (n + 1.0));
    assert x * n == sum && y * (n + 1.0) == sum + v;
    assert (x - y) * (n + 1.0) == x - v;
  }

  lemma MeanWithin(sum: real, n: real, bound: real)
    requires n > 0.0 && 0.0 <= sum <= Times(n, bound)
    ensures 0.0 <= sum / n <= bound
  {
    var half := 0.5 * Times(n, bound);
    DivideBound(sum, half, half, n);
    assert half / n == 0.5 * bound;
  }

  lemma QuotientWithin(x: real, bound: real, n: real)
    requires n > 0.0 && -bound <= x <= bound
    ensures -(bound / n) <= x / n <= bound / n
  {
    DivideBound(x, 0.0, bound, n);
    assert 0.0 / n == 0.0;
  }

  lemma SmallerShare(bound: real, n: real)
    requires 0.0 <= bound && n > 0.0
    ensures bound / (n + 1.0) <= bound / n
  {
    var (x, y) := (bound / n, bound / (n + 1.0));
    assert x * n == bound && y * (n + 1.0) == bound;
    NotNegative(bound, n + 1.0);
    assert (x - y) * n == y;
    assert x - y == y / n;
    NotNegative(y, n);
  }

  lemma NotNegative(x: real, n: real)
    requires 0.0 <= x && n > 0.0
    ensures 0.0 <= x / n
  {
  }

  lemma DivideBound(x: real, y: real, bound: real, n: real)
    requires -bound <= x - y <= bound && n > 0.0
    ensures -(bound / n) <= x / n - y / n <= bound / n
  {
    assert x / n - y / n == (x - y) / n;
  }

  lemma MetricKeyByOrg(o: string, o': string, metric: string, period: string)
    ensures MetricKey(o, metric, period) == MetricKey(o', metric, period) ==> o == o'
  {
    var tail := ":" + metric + ":" + period;
    assert MetricKey(o, metric, period) == o + tail && MetricKey(o', metric, period) == o' + tail;
    assert (o + tail)[..|o + tail| - |tail|] == o && (o' + tail)[..|o' + tail| - |tail|] == o';
  }

  /** The same submissions except for those of one organisation for the metric and period: others, or first ones, or
      none. */
  ghost predicate OneOrgDiffers(m: map<string, seq<real>>, m': map<string, seq<real>>, org: string, metric: string,
                                period: string) {
    forall k :: k != MetricKey(org, metric, period) ==> (k in m <==> k in m') && (k in m ==> m[k] == m'[k])
  }

  lemma {:induction false} OthersKeepTheirValues(m: map<string, seq<real>>, m': map<string, seq<real>>,
                                                 members: seq<string>, org: string, metric: string, period: string)
    requires OneOrgDiffers(m, m', org, metric, period) && org !in members
    ensures LatestValues(m, members, metric, period) == LatestValues(m', members, metric, period)
  {
    if members != [] {
      var n := |members| - 1;
      OthersKeepTheirValues(m, m', members[..n], org, metric, period);
      MetricKeyByOrg(members[n], org, metric, period);
    }
  }

  lemma SameOneApart(a: seq<real>)
    ensures OneApart(a, a)
  {
    assert SameExceptAt(a, a, 0);
  }

  lemma AppendedApart(a: seq<real>, x: seq<real>, y: seq<real>)
    requires |x| <= 1 && |y| <= 1
    ensures OneApart(a + x, a + y)
  {
    if |x| == |y| {
      assert SameExceptAt(a + x, a + y, |a|);
    } else if x == [] {
      assert OneMoreAt(a + x, a + y, |a|);
    } else {
      assert OneMoreAt(a + y, a + x, |a|);
    }
  }

  lemma BothAppended(a: seq<real>, b: seq<real>, x: seq<real>)
    requires OneApart(a, b)
    ensures OneApart(a + x, b + x)
  {
    if p :| SameExceptAt(a, b, p) {
      assert SameExceptAt(a + x, b + x, if p < |a| then p else -1);
    } else if p: nat :| OneMoreAt(a, b, p) {
      assert (b + x)[..p] + (b + x)[p + 1..] == a + x;
      assert OneMoreAt(a + x, b + x, p);
    } else if p: nat :| OneMoreAt(b, a, p) {
      assert (a + x)[..p] + (a + x)[p + 1..] == b + x;
      assert OneMoreAt(b + x, a + x, p);
    }
  }

  lemma {:induction false} OneValueDiffers(m: map<string, seq<real>>, m': map<string, seq<real>>, members: seq<string>,
                                           org: string, metric: string, period: string)
    requires OneOrgDiffers(m, m', org, metric, period) && Distinct(members)
    ensures OneApart(LatestValues(m, members, metric, period), LatestValues(m', members, metric, period))
  {
    if members == [] {
      SameOneApart([]);
    } else {
      var n := |members| - 1;
      var key := MetricKey(members[n], metric, period);
      var (a, b) := (LatestValues(m, members[..n], metric, period), LatestValues(m', members[..n], metric, period));
      if members[n] == org {
        OthersKeepTheirValues(m, m', members[..n], org, metric, period);
        AppendedApart(a, Latest(m, key), Latest(m', key));
      } else {
        OneValueDiffers(m, m', members[..n], org, metric, period);
        MetricKeyByOrg(members[n], org, metric, period);
        BothAppended(a, b, Latest(m, key));
      }
    }
  }

  lemma MeansOneApart(a: seq<real>, b: seq<real>, bound: real)
    requires a != [] && b != [] && OneApart(a, b) && WithinBound(a, bound) && WithinBound(b, bound) && 0.0 <= bound
    ensures -MeanSensitivity(bound, |a|) <= Mean(a) - Mean(b) <= MeanSensitivity(bound, |a|)
    ensures -MeanSensitivity(bound, |b|) <= Mean(a) - Mean(b) <= MeanSensitivity(bound, |b|)
  {
    if DifferAtMostOnce(a, b) {
      MeanMovesLittle(a, b, bound);
    } else if p: nat :| OneMoreAt(a, b, p) {
      MeanOfOneMore(a, b, p, bound);
    } else if p: nat :| OneMoreAt(b, a, p) {
      MeanOfOneMore(b, a, p, bound);
    }
  }

  // ---------------------------------------------------------------------------------------------
  // Where stored values come from

  datatype Origin = Origin(org: string, metric: string, period: string)

  /** Every stored value was clipped for the metric of some submission filed under its key. */
  ghost predicate Originates(cfg: Config, metrics: map<string, seq<real>>, origins: set<Origin>) {
    forall k, i :: k in metrics && 0 <= i < |metrics[k]| ==>
      exists o :: o in origins && MetricKey(o.org, o.metric, o.period) == k
          && Clip(metrics[k][i], SensitivityBound(cfg, o.metric)) == metrics[k][i]
  }

  /** Whatever is filed under this key was clipped to a bound no larger than the metric's own. */
  ghost predicate Harmless(cfg: Config, org: string, metric: string, period: string) {
    forall o: Origin :: MetricKey(o.org, o.metric, o.period) == MetricKey(org, metric, period) ==>
                          SensitivityBound(cfg, o.metric) <= SensitivityBound(cfg, metric)
  }

  /** The metric stands between two colons somewhere in the key. */
  ghost predicate Occurs(metric: string, key: string) {
    exists i :: OccursAt(metric, key, i)
  }

  ghost predicate OccursAt(metric: string, key: string, i: int) {
    0 <= i && i + |metric| + 2 <= |key| && key[i..i + |metric| + 2] == ":" + metric + ":"
  }

  lemma OccursIff(metric: string, key: string)
    ensures Occurs(metric, key) <==> exists org, period :: MetricKey(org, metric, period) == key
  {
    if Occurs(metric, key) {
      var i :| OccursAt(metric, key, i);
      assert key == key[..i] + key[i..i + |metric| + 2] + key[i + |metric| + 2..];
      assert MetricKey(key[..i], metric, key[i + |metric| + 2..]) == key;
    }
    if org, period :| MetricKey(org, metric, period) == key {
      assert OccursAt(metric, key, |org|);
    }
  }

  lemma OnlyPlainMetricsAreListed(cfg: Config, metric: string)
    requires ':' in metric
    ensures SensitivityBound(cfg, metric) == 1000.0
  {
  }

  /** A metric with its own bound, below that of unlisted ones, is safe from misfiled submissions exactly when neither
      organisation nor period contains a colon; any other, when no metric of a larger bound stands in the key. */
  lemma HarmlessIff(cfg: Config, org: string, metric: string, period: string)
    ensures Harmless(cfg, org, metric, period) <==>
      if SensitivityBound(cfg, metric) < 1000.0 then ':' !in org && ':' !in period
      else forall m :: m in {COST, CARBON} && SensitivityBound(cfg, m) > SensitivityBound(cfg, metric) ==>
                         !Occurs(m, MetricKey(org, metric, period))
  {
    if SensitivityBound(cfg, metric) < 1000.0 {
      HarmlessWhenPlain(cfg, org, metric, period);
    } else {
      HarmlessWhenAbsent(cfg, org, metric, period);
    }
  }

  lemma MisfiledHarms(cfg: Config, o: Origin, org: string, metric: string, period: string)
    requires MetricKey(o.org, o.metric, o.period) == MetricKey(org, metric, period)
    ensures Harmless(cfg, org, metric, period) ==> SensitivityBound(cfg, o.metric) <= SensitivityBound(cfg, metric)
  {
  }

  lemma HarmlessWhenPlain(cfg: Config, org: string, metric: string, period: string)
    requires SensitivityBound(cfg, metric) < 1000.0
    ensures Harmless(cfg, org, metric, period) <==> ':' !in org && ':' !in period
  {
    if ':' in org {
      ColonInOrgHarms(cfg, org, metric, period);
    } else if ':' in period {
      ColonInPeriodHarms(cfg, org, metric, period);
    } else {
      if ':' in metric { OnlyPlainMetricsAreListed(cfg, metric); }
      forall o: Origin | MetricKey(o.org, o.metric, o.period) == MetricKey(org, metric, period)
          ensures o.metric == metric {
        JoinUnique(org, metric, period, o.org, o.metric, o.period);
      }
    }
  }

  lemma ColonInOrgHarms(cfg: Config, org: string, metric: string, period: string)
    requires ':' in org && SensitivityBound(cfg, metric) < 1000.0
    ensures !Harmless(cfg, org, metric, period)
  {
    var head, rest := SplitFirst(org);
    var misread := rest + ":" + metric;
    assert misread[|rest|] == ':';
    OnlyPlainMetricsAreListed(cfg, misread);
    assert MetricKey(head, misread, period) == MetricKey(org, metric, period);
    MisfiledHarms(cfg, Origin(head, misread, period), org, metric, period);
  }

  lemma ColonInPeriodHarms(cfg: Config, org: string, metric: string, period: string)
    requires ':' in period && SensitivityBound(cfg, metric) < 1000.0
    ensures !Harmless(cfg, org, metric, period)
  {
    var head, rest := SplitFirst(period);
    var misread := metric + ":" + head;
    assert misread[|metric|] == ':';
    OnlyPlainMetricsAreListed(cfg, misread);
    assert MetricKey(org, misread, rest) == MetricKey(org, metric, period);
    MisfiledHarms(cfg, Origin(org, misread, rest), org, metric, period);
  }

  lemma HarmlessWhenAbsent(cfg: Config, org: string, metric: string, period: string)
    requires SensitivityBound(cfg, metric) >= 1000.0
    ensures Harmless(cfg, org, metric, period) <==>
      forall m :: m in {COST, CARBON} && SensitivityBound(cfg, m) > SensitivityBound(cfg, metric) ==>
                    !Occurs(m, MetricKey(org, metric, period))
  {
    var key := MetricKey(org, metric, period);
    OccursIff(COST, key);
    OccursIff(CARBON, key);
    forall m, a, c | MetricKey(a, m, c) == key
      ensures Harmless(cfg, org, metric, period) ==> SensitivityBound(cfg, m) <= SensitivityBound(cfg, metric)
    {
      MisfiledHarms(cfg, Origin(a, m, c), org, metric, period);
    }
  }

  /** Then the values that enter a release are clipped to its metric's bound. */
  lemma {:induction false} ReleasedValuesClipped(cfg: Config, metrics: map<string, seq<real>>, origins: set<Origin>,
                                                 members: seq<string>, metric: string, period: string)
    requires Originates(cfg, metrics, origins) && 0.0 <= SensitivityBound(cfg, metric)
    requires forall i :: 0 <= i < |members| ==> Harmless(cfg, members[i], metric, period)
    ensures WithinBound(LatestValues(metrics, members, metric, period), SensitivityBound(cfg, metric))
  {
    if members != [] {
      var n := |members| - 1;
      ReleasedValuesClipped(cfg, metrics, origins, members[..n], metric, period);
      var k := MetricKey(members[n], metric, period);
      if k in metrics && metrics[k] != [] {
        var v := metrics[k][|metrics[k]| - 1];
        var o :| o in origins && MetricKey(o.org, o.metric, o.period) == k
            && Clip(v, SensitivityBound(cfg, o.metric)) == v;
        assert Harmless(cfg, members[n], metric, period);
      }
    }
  }

  lemma {:induction false} ValueReleased(metrics: map<string, seq<real>>, members: seq<string>, i: nat, metric: string,
                                         period: string, v: real)
    requires i < |members| && MetricKey(members[i], metric, period) in metrics
    requires metrics[MetricKey(members[i], metric, period)] == [v]
    ensures v in LatestValues(metrics, members, metric, period)
  {
    if i < |members| - 1 { ValueReleased(metrics, members[..|members| - 1], i, metric, period, v); }
  }

  /** Whatever may have been submitted, the released values of these members lie within the bound: this holds exactly
      when each member's key is harmless. */
  lemma ReleasesClippedIff(cfg: Config, members: seq<string>, metric: string, period: string)
    requires 0.0 <= SensitivityBound(cfg, metric)
    ensures (forall metrics, origins :: Originates(cfg, metrics, origins) ==>
               WithinBound(LatestValues(metrics, members, metric, period), SensitivityBound(cfg, metric)))
       <==> (forall i :: 0 <= i < |members| ==> Harmless(cfg, members[i], metric, period))
  {
    if i :| 0 <= i < |members| && !Harmless(cfg, members[i], metric, period) {
      var bound := SensitivityBound(cfg, metric);
      var k := MetricKey(members[i], metric, period);
      var o: Origin :| MetricKey(o.org, o.metric, o.period) == k && SensitivityBound(cfg, o.metric) > bound;
      var metrics, origins := map[k := [SensitivityBound(cfg, o.metric)]], {o};
      assert o in origins;
      assert Originates(cfg, metrics, origins);
      ValueReleased(metrics, members, i, metric, period, SensitivityBound(cfg, o.metric));
      assert !WithinBound(LatestValues(metrics, members, metric, period), bound);
    } else {
      forall metrics, origins | Originates(cfg, metrics, origins)
        ensures WithinBound(LatestValues(metrics, members, metric, period), SensitivityBound(cfg, metric))
      {
        ReleasedValuesClipped(cfg, metrics, origins, members, metric, period);
      }
    }
  }

  /** Replacing, withdrawing or first making the submissions of one organisation moves the raw mean by at most the
      sensitivity the noise is scaled to, before and after. */
  lemma OneOrganisationMovesMeanLittle(cfg: Config, m: map<string, seq<real>>, origins: set<Origin>,
                                       m': map<string, seq<real>>, origins': set<Origin>,
                                       members: seq<string>, org: string, metric: string, period: string)
    requires Originates(cfg, m, origins) && Originates(cfg, m', origins')
    requires OneOrgDiffers(m, m', org, metric, period) && Distinct(members) && 0.0 <= SensitivityBound(cfg, metric)
    requires forall i :: 0 <= i < |members| ==> Harmless(cfg, members[i], metric, period)
    requires LatestValues(m, members, metric, period) != [] && LatestValues(m', members, metric, period) != []
    ensures var (a, b) := (LatestValues(m, members, metric, period), LatestValues(m', members, metric, period));
            var bound := SensitivityBound(cfg, metric);
      && -MeanSensitivity(bound, |a|) <= Mean(a) - Mean(b) <= MeanSensitivity(bound, |a|)
      && -MeanSensitivity(bound, |b|) <= Mean(a) - Mean(b) <= MeanSensitivity(bound, |b|)
  {
    var (a, b) := (LatestValues(m, members, metric, period), LatestValues(m', members, metric, period));
    ReleasedValuesClipped(cfg, m, origins, members, metric, period);
    ReleasedValuesClipped(cfg, m', origins', members, metric, period);
    OneValueDiffers(m, m', members, org, metric, period);
    MeansOneApart(a, b, SensitivityBound(cfg, metric));
  }

  lemma {:induction false} LatestValuesConcat(m: map<string, seq<real>>, s: seq<string>, t: seq<string>, metric: string,
                                              period: string)
    ensures LatestValues(m, s + t, metric, period)
         == LatestValues(m, s, metric, period) + LatestValues(m, t, metric, period)
  {
    if t == [] {
      assert s + t == s;
    } else {
      var n := |t| - 1;
      var all := s + t;
      LatestValuesConcat(m, s, t[..n], metric, period);
      assert all[..|all| - 1] == s + t[..n] && all[|all| - 1] == t[n];
      assert LatestValues(m, all, metric, period)
        == LatestValues(m, s + t[..n], metric, period) + Latest(m, MetricKey(t[n], metric, period));
    }
  }

  lemma LatestValuesAround(m: map<string, seq<real>>, members: seq<string>, i: nat, metric: string, period: string)
    requires i < |members|
    ensures LatestValues(m, members, metric, period)
         == LatestValues(m, members[..i], metric, period) + Latest(m, MetricKey(members[i], metric, period))
            + LatestValues(m, members[i + 1..], metric, period)
  {
    assert members == members[..i] + [members[i]] + members[i + 1..];
    LatestValuesConcat(m, members[..i] + [members[i]], members[i + 1..], metric, period);
    LatestValuesConcat(m, members[..i], [members[i]], metric, period);
    assert [members[i]][..0] == [] && LatestValues(m, [], metric, period) == [];
    assert LatestValues(m, [members[i]], metric, period) == Latest(m, MetricKey(members[i], metric, period));
  }

  lemma LatestChanges(before: map<string, seq<real>>, after: map<string, seq<real>>, members: seq<string>, i: nat,
                      metric: string, period: string)
    requires Distinct(members) && i < |members| && OneOrgDiffers(before, after, members[i], metric, period)
    ensures var (left, right) := (LatestValues(before, members[..i], metric, period),
                                  LatestValues(before, members[i + 1..], metric, period));
            var key := MetricKey(members[i], metric, period);
      && LatestValues(before, members, metric, period) == left + Latest(before, key) + right
      && LatestValues(after, members, metric, period) == left + Latest(after, key) + right
  {
    LatestValuesAround(before, members, i, metric, period);
    LatestValuesAround(after, members, i, metric, period);
    OthersKeepTheirValues(before, after, members[..i], members[i], metric, period);
    OthersKeepTheirValues(before, after, members[i + 1..], members[i], metric, period);
  }

  /** Filing a value makes it, clipped, the one released for that member, at the place of its earlier one if there was
      one; what is released for the other members stays. */
  lemma SubmissionReleased(cfg: Config, before: map<string, seq<real>>, after: map<string, seq<real>>,
                           members: seq<string>, i: nat, metric: string, period: string, rawValue: real)
    requires Distinct(members) && i < |members|
    requires var key := MetricKey(members[i], metric, period);
             after == before[key := (if key in before then before[key] else [])
                 + [Clip(rawValue, SensitivityBound(cfg, metric))]]
    ensures var (left, right) := (LatestValues(before, members[..i], metric, period),
                                  LatestValues(before, members[i + 1..], metric, period));
            var key := MetricKey(members[i], metric, period);
            var earlier := Latest(before, key);
      && LatestValues(before, members, metric, period) == left + earlier + right
      && LatestValues(after, members, metric, period)
         == left + [Clip(rawValue, SensitivityBound(cfg, metric))] + right
      && |earlier| == if key in before && before[key] != [] then 1 else 0
  {
    LatestChanges(before, after, members, i, metric, period);
  }

  /** With a colon, a submission for one metric can be filed under another organisation's key for another metric, or for
      another period, and is then clipped to the wrong bound. */
  lemma ColonMisfiles(cfg: Config)
    ensures MetricKey("a", "b:" + CONFIDENCE, "Q1") == MetricKey("a:b", CONFIDENCE, "Q1")
    ensures MetricKey("a", CONFIDENCE + ":2026", "Q1") == MetricKey("a", CONFIDENCE, "2026:Q1")
    ensures SensitivityBound(cfg, "b:" + CONFIDENCE) == SensitivityBound(cfg, CONFIDENCE + ":2026") == 1000.0
    ensures SensitivityBound(cfg, CONFIDENCE) == 1.0
  {
    assert "a" + ":" + ("b:" + CONFIDENCE) == "a:b" + ":" + CONFIDENCE;
    assert "a" + ":" + (CONFIDENCE + ":2026") + ":" + "Q1" == "a" + ":" + CONFIDENCE + ":" + "2026:Q1";
    assert ("b:" + CONFIDENCE)[1] == ':' && (CONFIDENCE + ":2026")[|CONFIDENCE|] == ':';
    OnlyPlainMetricsAreListed(cfg, "b:" + CONFIDENCE);
    OnlyPlainMetricsAreListed(cfg, CONFIDENCE + ":2026");
  }

  /** A submission filed under the key of a metric with a smaller bound enters the release unclipped, and can move the
      mean by more than the sensitivity. */
  lemma MisfiledValueReleased(cfg: Config, o: Origin, org: string, metric: string, period: string)
    requires MetricKey(o.org, o.metric, o.period) == MetricKey(org, metric, period)
    requires 0.0 <= SensitivityBound(cfg, metric) < SensitivityBound(cfg, o.metric)
    ensures var (key, v) := (MetricKey(org, metric, period), SensitivityBound(cfg, o.metric));
            var (m, m') := (map[key := [v]], map[key := [0.0]]);
            var (a, b) := (LatestValues(m, [org], metric, period), LatestValues(m', [org], metric, period));
      && Originates(cfg, m, {o}) && Originates(cfg, m', {o}) && OneOrgDiffers(m, m', org, metric, period)
      && a == [v] && b == [0.0] && !WithinBound(a, SensitivityBound(cfg, metric))
      && Mean(a) - Mean(b) > MeanSensitivity(SensitivityBound(cfg, metric), |a|)
  {
    var (key, v) := (MetricKey(org, metric, period), SensitivityBound(cfg, o.metric));
    SubmissionAlone(cfg, o, key, v);
    SubmissionAlone(cfg, o, key, 0.0);
    SingleValue(key, org, metric, period, v);
    SingleValue(key, org, metric, period, 0.0);
    assert SensitivityBound(cfg, metric) / 1.0 == SensitivityBound(cfg, metric);
  }

  lemma SubmissionAlone(cfg: Config, o: Origin, key: string, v: real)
    requires MetricKey(o.org, o.metric, o.period) == key && Clip(v, SensitivityBound(cfg, o.metric)) == v
    ensures Originates(cfg, map[key := [v]], {o})
  {
    assert o in {o};
  }

  lemma SingleValue(key: string, org: string, metric: string, period: string, v: real)
    requires key == MetricKey(org, metric, period)
    ensures LatestValues(map[key := [v]], [org], metric, period) == [v] && Mean([v]) == v
  {
    assert [org][..0] == [] && [v][..0] == [];
    assert Sum([v]) == v;
    assert v / 1.0 == v;
  }

  // ---------------------------------------------------------------------------------------------
  // The protocol

  function Consumed(budget: map<string, real>, org: string): real {
    if org in budget then budget[org] else 0.0
  }

  /** How many of the releases the organisation was a member of. */
  function Releases(log: seq<seq<string>>, org: string): nat {
    if log == [] then 0 else Releases(log[..|log| - 1], org) + if org in log[|log| - 1] then 1 else 0
  }

  /** Every organisation has been charged for precisely the releases it was in, and never beyond the total. */
  ghost predicate Accounted(cfg: Config, budget: map<string, real>, log: seq<seq<string>>) {
    forall org :: Consumed(budget, org) == Times(Releases(log, org) as real, cfg.epsilonPerRelease)
               && (Releases(log, org) > 0 ==> Consumed(budget, org) <= cfg.epsilonTotalQuarterly)
  }

  function CohortAt(cohorts: map<string, seq<string>>, id: string): seq<string> {
    if id in cohorts then cohorts[id] else []
  }

  lemma {:induction false} ReleaseAccounted(cfg: Config, before: map<string, real>, after: map<string, real>,
                                            log: seq<seq<string>>, members: seq<string>)
    requires Accounted(cfg, before, log)
    requires forall org :: Consumed(after, org)
                        == Consumed(before, org) + if org in members then cfg.epsilonPerRelease else 0.0
    requires forall org :: org in members ==> Consumed(before, org) + cfg.epsilonPerRelease <= cfg.epsilonTotalQuarterly
    ensures Accounted(cfg, after, log + [members])
  {
    forall org
      ensures Consumed(after, org) == Times(Releases(log + [members], org) as real, cfg.epsilonPerRelease)
           && (Releases(log + [members], org) > 0 ==> Consumed(after, org) <= cfg.epsilonTotalQuarterly)
    {
      assert (log + [members])[..|log|] == log;
      TimesSplit(Releases(log, org) as real, 1.0, cfg.epsilonPerRelease);
      TimesUnit(cfg.epsilonPerRelease);
    }
  }

  /** `org` is the first member whose budget does not cover another release. */
  ghost predicate FirstExhausted(cfg: Config, budget: map<string, real>, members: seq<string>, org: string) {
    exists i :: 0 <= i < |members| && members[i] == org
        && Consumed(budget, org) + cfg.epsilonPerRelease > cfg.epsilonTotalQuarterly
             && forall k :: 0 <= k < i ==>
                 Consumed(budget, members[k]) + cfg.epsilonPerRelease <= cfg.epsilonTotalQuarterly
  }

  datatype Outcome =
    | TooFewMembers
    | NoSubmissions
    | InvalidEpsilon
    | BudgetExhausted(org: string)
    | Released(noisyMean: real, memberCount: nat, epsilonConsumed: real)

  class FederatedBenchmarkProtocol {
    const cfg: Config
    var cohorts: map<string, seq<string>>
    var metrics: map<string, seq<real>>
    var budgetConsumed: map<string, real>
    ghost var origins: set<Origin>  // what has been submitted, for whom
    ghost var releases: seq<seq<string>>  // the members of every release since the last reset

    ghost predicate Valid()
      reads this
    {
      && (forall id :: id in cohorts ==> Distinct(cohorts[id]))
      && Originates(cfg, metrics, origins)
      && Accounted(cfg, budgetConsumed, releases)
    }

    constructor (cfg: Config)
      ensures Valid() && this.cfg == cfg
      ensures cohorts == map[] && metrics == map[] && origins == {} && releases == []
    {
      this.cfg := cfg;
      cohorts, metrics, budgetConsumed, origins, releases := map[], map[], map[], {}, [];
    }

    method CreateCohort(cohortId: string)
      requires Valid()
      modifies this`cohorts
      ensures Valid() && cohorts == old(cohorts)[cohortId := []]
    {
      cohorts := cohorts[cohortId := []];
    }

    method JoinCohort(orgId: string, cohortId: string) returns (joined: bool)
      requires Valid()
      modifies this`cohorts
      ensures Valid()
      ensures joined == (cohortId in old(cohorts) && orgId !in old(cohorts)[cohortId])
      ensures cohorts == if joined then old(cohorts)[cohortId := old(cohorts)[cohortId] + [orgId]] else old(cohorts)
    {
      if cohortId !in cohorts { return false; }
      if orgId in cohorts[cohortId] { return false; }
      cohorts := cohorts[cohortId := cohorts[cohortId] + [orgId]];
      return true;
    }

    method SubmitMetric(org: string, metric: string, period: string, rawValue: real)
      requires Valid()
      modifies this`metrics, this`origins
      ensures Valid() && origins == old(origins) + {Origin(org, metric, period)}
      ensures var key := MetricKey(org, metric, period);
              metrics == old(metrics)[key := (if key in old(metrics) then old(metrics)[key] else [])
                  + [Clip(rawValue, SensitivityBound(cfg, metric))]]
    {
      var key := MetricKey(org, metric, period);
      var filed := if key in metrics then metrics[key] else [];
      var bound := SensitivityBound(cfg, metric);
      var clipped := Max(0.0, Min(rawValue, bound));
      SubmissionOriginates(cfg, metrics, origins, Origin(org, metric, period), clipped);
      metrics := metrics[key := filed + [clipped]];
      origins := origins + {Origin(org, metric, period)};
    }

    /** Releases the noisy mean and charges every member, or refuses and changes nothing. `noise` draws a sample for
        a scale. */
    method PublishBenchmark(cohortId: string, metric: string, period: string,
                            noise: real -> real) returns (outcome: Outcome)
      requires Valid()
      modifies this`budgetConsumed, this`releases
      ensures Valid()
      ensures var members := if cohortId in cohorts then cohorts[cohortId] else [];
              var values := LatestValues(metrics, members, metric, period);
        match outcome
        case TooFewMembers => |members| < cfg.minCohortSize
        case NoSubmissions => |members| >= cfg.minCohortSize && values == []
        case InvalidEpsilon => |members| >= cfg.minCohortSize && values != [] && cfg.epsilonPerRelease <= 0.0
        case BudgetExhausted(org) =>
          && |members| >= cfg.minCohortSize && values != [] && cfg.epsilonPerRelease > 0.0
          && FirstExhausted(cfg, old(budgetConsumed), members, org)
        case Released(noisyMean, memberCount, epsilon) =>
          && |members| >= cfg.minCohortSize && values != [] && cfg.epsilonPerRelease > 0.0
          && (forall org :: org in members ==>
              Consumed(old(budgetConsumed), org) + cfg.epsilonPerRelease <= cfg.epsilonTotalQuarterly)
          && noisyMean == Mean(values)
              + noise(MeanSensitivity(SensitivityBound(cfg, metric), |values|) / (cfg.epsilonPerRelease / 2.0))
          && memberCount == |members| && epsilon == cfg.epsilonPerRelease
      ensures var members := if cohortId in cohorts then cohorts[cohortId] else [];
              outcome.Released? <==>
                && |members| >= cfg.minCohortSize && LatestValues(metrics, members, metric, period) != []
                && cfg.epsilonPerRelease > 0.0
                && forall org :: org in members ==>
                     Consumed(old(budgetConsumed), org) + cfg.epsilonPerRelease <= cfg.epsilonTotalQuarterly
      ensures if outcome.Released? then
          && releases == old(releases) + [CohortAt(cohorts, cohortId)]
          && (forall org :: Consumed(budgetConsumed, org)
                 == Consumed(old(budgetConsumed), org)
                    + if org in CohortAt(cohorts, cohortId) then cfg.epsilonPerRelease else 0.0)
        else budgetConsumed == old(budgetConsumed) && releases == old(releases)
    {
      var members := CohortAt(cohorts, cohortId);
      if |members| < cfg.minCohortSize { return TooFewMembers; }
      var values := Collect(members, metric, period);
      if values == [] { return NoSubmissions; }
      var epsilonTotal := cfg.epsilonPerRelease;
      var epsilonPerStat := epsilonTotal / 2.0;
      if epsilonPerStat <= 0.0 { return InvalidEpsilon; }
      var exhausted := CheckBudgets(members);
      if exhausted.Some? { return BudgetExhausted(exhausted.value); }
      var meanSensitivity := SensitivityBound(cfg, metric) / |values| as real;
      var noisyMean := Sum(values) / |values| as real + noise(meanSensitivity / epsilonPerStat);
      Charge(members);
      return Released(noisyMean, |members|, epsilonTotal);
    }

    /** The latest submission of every member that has one. */
    method Collect(members: seq<string>, metric: string, period: string) returns (values: seq<real>)
      ensures values == LatestValues(metrics, members, metric, period)
    {
      values := [];
      for i := 0 to |members|
        invariant values == LatestValues(metrics, members[..i], metric, period)
      {
        assert members[..i + 1][..i] == members[..i];
        var key := MetricKey(members[i], metric, period);
        var filed := if key in metrics then metrics[key] else [];
        if filed != [] { values := values + [filed[|filed| - 1]]; }
      }
      assert members[..|members|] == members;
    }

    /** The first member that cannot afford another release. */
    method CheckBudgets(members: seq<string>) returns (exhausted: Option<string>)
      ensures exhausted.Some? ==> FirstExhausted(cfg, budgetConsumed, members, exhausted.value)
      ensures exhausted.None? ==> forall org :: org in members ==>
              Consumed(budgetConsumed, org) + cfg.epsilonPerRelease <= cfg.epsilonTotalQuarterly
    {
      for i := 0 to |members|
        invariant forall k :: 0 <= k < i ==>
                Consumed(budgetConsumed, members[k]) + cfg.epsilonPerRelease <= cfg.epsilonTotalQuarterly
      {
        if Consumed(budgetConsumed, members[i]) + cfg.epsilonPerRelease > cfg.epsilonTotalQuarterly {
          return Some(members[i]);
        }
      }
      return None;
    }

    method Charge(members: seq<string>)
      requires Accounted(cfg, budgetConsumed, releases) && Distinct(members)
      requires forall org :: org in members ==>
              Consumed(budgetConsumed, org) + cfg.epsilonPerRelease <= cfg.epsilonTotalQuarterly
      modifies this`budgetConsumed, this`releases
      ensures Accounted(cfg, budgetConsumed, releases) && releases == old(releases) + [members]
      ensures forall org :: Consumed(budgetConsumed, org)
                == Consumed(old(budgetConsumed), org) + if org in members then cfg.epsilonPerRelease else 0.0
    {
      for i := 0 to |members|
        invariant releases == old(releases)
        invariant forall org :: Consumed(budgetConsumed, org)
                    == Consumed(old(budgetConsumed), org) + if org in members[..i] then cfg.epsilonPerRelease else 0.0
      {
        assert members[i] !in members[..i] && members[..i + 1] == members[..i] + [members[i]];
        budgetConsumed := budgetConsumed[members[i] := Consumed(budgetConsumed, members[i]) + cfg.epsilonPerRelease];
      }
      assert members[..|members|] == members;
      ReleaseAccounted(cfg, old(budgetConsumed), budgetConsumed, releases, members);
      releases := releases + [members];
    }

    method ResetQuarterlyBudgets()
      requires Valid()
      modifies this`budgetConsumed, this`releases
      ensures Valid() && budgetConsumed == map[] && releases == []
    {
      budgetConsumed, releases := map[], [];
    }
  }

  lemma SubmissionOriginates(cfg: Config, metrics: map<string, seq<real>>, origins: set<Origin>, o: Origin, value: real)
    requires Originates(cfg, metrics, origins)
    requires Clip(value, SensitivityBound(cfg, o.metric)) == value
    ensures var key := MetricKey(o.org, o.metric, o.period);
            Originates(cfg, metrics[key := (if key in metrics then metrics[key] else []) + [value]], origins + {o})
  {
  }
}
