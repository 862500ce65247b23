/** `combine_evidence`: the loops that lower the weights, build the multipliers and accumulate the product. */
module Combination {
  import opened Reals
  import opened EvidenceModel

  datatype Evidence = Evidence(name: string, conf: real, weight: real)
  datatype Penalty = Penalty(first: string, second: string, discount: real)
  datatype Result = Result(combined: real, individual: seq<Evidence>, penalties: seq<Penalty>, capped: bool,
      diminished: bool)

  /** The penalties of row i from column j on, and of all later rows. */
  ghost function RowPenalties(s: seq<Signal>, correlations: map<(string, string), real>, i: nat, j: nat): seq<Penalty>
    requires i < j <= |s|
    decreases |s| - j
  {
    if j == |s| then []
    else
      var d := Discount(correlations, s[i].name, s[j].name);
      (if d.Some? then [Penalty(s[i].name, s[j].name, d.value)] else []) + RowPenalties(s, correlations, i, j + 1)
  }

  ghost function PenaltiesFrom(s: seq<Signal>, correlations: map<(string, string), real>, i: nat): seq<Penalty>
    requires i <= |s|
    decreases |s| - i
  {
    if i == |s| then [] else RowPenalties(s, correlations, i, i + 1) + PenaltiesFrom(s, correlations, i + 1)
  }

  ghost predicate Discounted(s: seq<Signal>, correlations: map<(string, string), real>, p: (nat, nat)) {
    p.0 < p.1 < |s| && Discount(correlations, s[p.0].name, s[p.1].name).Some?
  }

  ghost predicate Before(p: (nat, nat), q: (nat, nat)) {
    p.0 < q.0 || (p.0 == q.0 && p.1 < q.1)
  }

  ghost predicate PenaltyOf(s: seq<Signal>, correlations: map<(string, string), real>, p: (nat, nat),
                            penalty: Penalty) {
    && Discounted(s, correlations, p)
    && var (a, b) := (s[p.0].name, s[p.1].name);
       penalty == Penalty(a, b, Discount(correlations, a, b).value)
  }

  /** The penalties are those of the pairs of positions, which come row by row, each once. */
  ghost predicate Lists(s: seq<Signal>, correlations: map<(string, string), real>, pairs: seq<(nat, nat)>,
                        penalties: seq<Penalty>) {
    && |pairs| == |penalties|
    && (forall k :: 0 <= k < |pairs| ==> PenaltyOf(s, correlations, pairs[k], penalties[k]))
    && (forall k, l :: 0 <= k < l < |pairs| ==> Before(pairs[k], pairs[l]))
  }

  lemma ListsConcat(s: seq<Signal>, correlations: map<(string, string), real>, pairs: seq<(nat, nat)>,
                    penalties: seq<Penalty>, morePairs: seq<(nat, nat)>, more: seq<Penalty>)
    requires Lists(s, correlations, pairs, penalties) && Lists(s, correlations, morePairs, more)
    requires forall p, q :: p in pairs && q in morePairs ==> Before(p, q)
    ensures Lists(s, correlations, pairs + morePairs, penalties + more)
  {
    var all := pairs + morePairs;
    forall k, l | 0 <= k < l < |all| ensures Before(all[k], all[l]) {
      if k < |pairs| <= l { assert pairs[k] in pairs && morePairs[l - |pairs|] in morePairs; }
    }
  }

  lemma {:induction false} RowListed(s: seq<Signal>, correlations: map<(string, string), real>, i: nat, j: nat)
    returns (pairs: seq<(nat, nat)>)
    requires i < j <= |s|
    ensures Lists(s, correlations, pairs, RowPenalties(s, correlations, i, j))
    ensures forall p :: p in pairs <==> p.0 == i && j <= p.1 && Discounted(s, correlations, p)
    decreases |s| - j
  {
    if j == |s| {
      pairs := [];
    } else {
      var rest := RowListed(s, correlations, i, j + 1);
      var later := RowPenalties(s, correlations, i, j + 1);
      if Discounted(s, correlations, (i, j)) {
        var penalty := Penalty(s[i].name, s[j].name, Discount(correlations, s[i].name, s[j].name).value);
        pairs := [(i, j)] + rest;
        ListsConcat(s, correlations, [(i, j)], [penalty], rest, later);
        assert RowPenalties(s, correlations, i, j) == [penalty] + later;
      } else {
        pairs := rest;
        assert RowPenalties(s, correlations, i, j) == later;
      }
    }
  }

  lemma {:induction false} RowsListed(s: seq<Signal>, correlations: map<(string, string), real>, i: nat)
    returns (pairs: seq<(nat, nat)>)
    requires i <= |s|
    ensures Lists(s, correlations, pairs, PenaltiesFrom(s, correlations, i))
    ensures forall p :: p in pairs <==> i <= p.0 && Discounted(s, correlations, p)
    decreases |s| - i
  {
    if i == |s| {
      pairs := [];
    } else {
      var row := RowListed(s, correlations, i, i + 1);
      var rest := RowsListed(s, correlations, i + 1);
      ListsConcat(s, correlations, row, RowPenalties(s, correlations, i, i + 1), rest,
          PenaltiesFrom(s, correlations, i + 1));
      pairs := row + rest;
    }
  }

  /** The penalties are those of exactly the discounted pairs, in the order of the signals. */
  lemma PenaltiesExact(s: seq<Signal>, correlations: map<(string, string), real>) returns (pairs: seq<(nat, nat)>)
    ensures Lists(s, correlations, pairs, PenaltiesFrom(s, correlations, 0))
    ensures forall p :: p in pairs <==> Discounted(s, correlations, p)
  {
    pairs := RowsListed(s, correlations, 0);
  }

  /** `weights` accounts for the pairs of all rows before i; the later rows would complete it. */
  ghost predicate RowsSeen(s: seq<Signal>, correlations: map<(string, string), real>, weights: map<string, real>,
                           i: nat)
    requires i <= |s|
  {
    && weights.Keys == Names(s) && AtMostOne(weights)
    && forall m :: m in weights ==> Min(weights[m], WeightFrom(s, correlations, m, i)) == Weight(s, correlations, m)
  }

  /** The same within row i: the pairs before column j are accounted for. */
  ghost predicate PairsSeen(s: seq<Signal>, correlations: map<(string, string), real>, weights: map<string, real>,
                            i: nat, j: nat)
    requires i < j <= |s|
  {
    && weights.Keys == Names(s) && AtMostOne(weights)
    && forall m :: m in weights ==>
         Min(Min(weights[m], RowWeight(s, correlations, m, i, j)), WeightFrom(s, correlations, m, i + 1))
             == Weight(s, correlations, m)
  }

  /** What the pair at i < j does to the weights: its discount lowers the weaker method. */
  function Lowered(s: seq<Signal>, correlations: map<(string, string), real>, weights: map<string, real>, i: nat,
                   j: nat): map<string, real>
    requires i < |s| && j < |s| && Weaker(s, i, j) in weights
  {
    var d := Discount(correlations, s[i].name, s[j].name);
    var m := Weaker(s, i, j);
    if d.Some? then weights[m := Min(weights[m], d.value)] else weights
  }

  lemma PairLowersOne(s: seq<Signal>, correlations: map<(string, string), real>, m: string, w: real, i: nat, j: nat)
    requires i < j < |s| && w <= 1.0
    ensures Min(w, RowWeight(s, correlations, m, i, j))
         == Min(Min(w, PairWeight(s, correlations, m, i, j)), RowWeight(s, correlations, m, i, j + 1))
  {
  }

  lemma {:induction false} PairLowers(s: seq<Signal>, correlations: map<(string, string), real>,
                                      weights: map<string, real>, i: nat, j: nat)
    requires i < j < |s| && PairsSeen(s, correlations, weights, i, j)
    ensures s[i].name in weights && s[j].name in weights
    ensures PairsSeen(s, correlations, Lowered(s, correlations, weights, i, j), i, j + 1)
  {
    assert s[i].name in Names(s) && s[j].name in Names(s);
    var lowered := Lowered(s, correlations, weights, i, j);
    assert lowered.Keys == weights.Keys;
    forall m | m in lowered
      ensures Min(Min(lowered[m], RowWeight(s, correlations, m, i, j + 1)), WeightFrom(s, correlations, m, i + 1))
           == Weight(s, correlations, m)
    {
      assert lowered[m] == Min(weights[m], PairWeight(s, correlations, m, i, j));
      PairLowersOne(s, correlations, m, weights[m], i, j);
    }
  }

  /** Every method starts fully independent. */
  method InitialWeights(s: seq<Signal>) returns (weights: map<string, real>)
    ensures weights.Keys == Names(s) && forall m :: m in weights ==> weights[m] == 1.0
  {
    weights := map[];
    for i := 0 to |s|
      invariant weights.Keys == Names(s[..i])
      invariant forall m :: m in weights ==> weights[m] == 1.0
    {
      NamesAppend(s[..i], s[i]);
      assert s[..i + 1] == s[..i] + [s[i]];
      weights := weights[s[i].name := 1.0];
    }
    assert s[..|s|] == s;
  }

  lemma NamesAppend(s: seq<Signal>, x: Signal)
    ensures Names(s + [x]) == Names(s) + {x.name}
  {
    var t := s + [x];
    assert t[|s|] == x;
    assert forall k :: 0 <= k < |s| ==> t[k] == s[k];
  }

  /** Row i: the i-th signal against every later one. */
  method DiscountRow(s: seq<Signal>, correlations: map<(string, string), real>, i: nat, before: map<string, real>)
    returns (weights: map<string, real>, penalties: seq<Penalty>)
    requires i < |s| && RowsSeen(s, correlations, before, i)
    ensures RowsSeen(s, correlations, weights, i + 1)
    ensures penalties == RowPenalties(s, correlations, i, i + 1)
  {
    weights, penalties := before, [];
    for j := i + 1 to |s|
      invariant PairsSeen(s, correlations, weights, i, j)
      invariant penalties + RowPenalties(s, correlations, i, j) == RowPenalties(s, correlations, i, i + 1)
    {
      weights, penalties := DiscountPair(s, correlations, i, j, weights, penalties);
    }
  }

  method DiscountPair(s: seq<Signal>, correlations: map<(string, string), real>, i: nat, j: nat,
                      before: map<string, real>, recorded: seq<Penalty>)
    returns (weights: map<string, real>, penalties: seq<Penalty>)
    requires i < j < |s| && PairsSeen(s, correlations, before, i, j)
    ensures PairsSeen(s, correlations, weights, i, j + 1)
    ensures penalties + RowPenalties(s, correlations, i, j + 1) == recorded + RowPenalties(s, correlations, i, j)
  {
    PairLowers(s, correlations, before, i, j);
    PenaltyStep(s, correlations, i, j, recorded);
    weights, penalties := before, recorded;
    var a, b := s[i].name, s[j].name;
    var discount := Discount(correlations, a, b);
    if discount.Some? {
      if s[i].conf <= s[j].conf {
        weights := weights[a := Min(weights[a], discount.value)];
      } else {
        weights := weights[b := Min(weights[b], discount.value)];
      }
      penalties := penalties + [Penalty(a, b, discount.value)];
    }
    assert weights == Lowered(s, correlations, before, i, j);
  }

  lemma PenaltyStep(s: seq<Signal>, correlations: map<(string, string), real>, i: nat, j: nat, penalties: seq<Penalty>)
    requires i < j < |s|
    ensures var d := Discount(correlations, s[i].name, s[j].name);
            var now := if d.Some? then penalties + [Penalty(s[i].name, s[j].name, d.value)] else penalties;
            penalties + RowPenalties(s, correlations, i, j) == now + RowPenalties(s, correlations, i, j + 1)
  {
  }

  method DependencyWeights(s: seq<Signal>, correlations: map<(string, string), real>)
    returns (weights: map<string, real>, penalties: seq<Penalty>)
    ensures weights == Weights(s, correlations)
    ensures penalties == PenaltiesFrom(s, correlations, 0)
  {
    weights := InitialWeights(s);
    penalties := [];
    for i := 0 to |s|
      invariant RowsSeen(s, correlations, weights, i)
      invariant penalties + PenaltiesFrom(s, correlations, i) == PenaltiesFrom(s, correlations, 0)
    {
      var row;
      weights, row := DiscountRow(s, correlations, i, weights);
      assert penalties + (row + PenaltiesFrom(s, correlations, i + 1))
          == penalties + row + PenaltiesFrom(s, correlations, i + 1);
      penalties := penalties + row;
    }
  }

  method DiminishingMultipliers(n: nat, factor: real) returns (multipliers: seq<real>)
    ensures multipliers == Multipliers(n, factor)
  {
    multipliers := [];
    for idx := 0 to n
      invariant multipliers == Multipliers(idx, factor)
    {
      if idx < 2 {
        multipliers := multipliers + [1.0];
      } else {
        var prev := multipliers[idx - 1];
        multipliers := multipliers + [Times(prev, factor)];
      }
    }
  }

  function Decomposition(sorted: seq<Signal>, weights: map<string, real>, multipliers: seq<real>): seq<Evidence>
    requires |multipliers| == |sorted|
  {
    seq(|sorted|, k requires 0 <= k < |sorted| =>
      Evidence(sorted[k].name, sorted[k].conf, Times(WeightIn(weights, sorted[k].name), multipliers[k])))
  }

  /** The signals a decomposition speaks of, and what each of them contributes according to it. */
  function SignalsOf(individual: seq<Evidence>): seq<Signal> {
    seq(|individual|, k requires 0 <= k < |individual| => Signal(individual[k].name, individual[k].conf))
  }

  function ContributionsOf(individual: seq<Evidence>): seq<real> {
    seq(|individual|, k requires 0 <= k < |individual| => Clamp(Times(individual[k].conf, individual[k].weight)))
  }

  /** The decomposition names the signals, strongest first, and explains the result: it is what their weighted
      confidences leave of the doubt. */
  lemma DecompositionExplains(signals: seq<Signal>, cfg: Config)
    requires |signals| > 1
    ensures var s := Bounded(signals);
            var individual := Decomposition(SortDesc(s), Weights(s, cfg.correlations),
                Multipliers(|s|, cfg.diminishingFactor));
      && multiset(SignalsOf(individual)) == multiset(s) && Descending(SignalsOf(individual))
      && Combined(signals, cfg) == 1.0 - Complement(ContributionsOf(individual))
  {
    var s := Bounded(signals);
    var (sorted, weights, ms) := (SortDesc(s), Weights(s, cfg.correlations), Multipliers(|s|, cfg.diminishingFactor));
    var individual := Decomposition(sorted, weights, ms);
    SortMultiset(s);
    SortDescending(s);
    assert SignalsOf(individual) == sorted;
    forall k | 0 <= k < |s| ensures ContributionsOf(individual)[k] == Effectives(sorted, weights, ms)[k] {
      Reassociated(sorted[k].conf, WeightIn(weights, sorted[k].name), ms[k]);
    }
    assert ContributionsOf(individual) == Effectives(sorted, weights, ms);
  }

  lemma Reassociated(x: real, y: real, z: real)
    ensures Times(x, Times(y, z)) == Times(Times(x, y), z)
  {
  }

  /** Accumulates the product of the doubts left by the sorted signals. */
  method NoisyOr(sorted: seq<Signal>, weights: map<string, real>, multipliers: seq<real>)
    returns (productTerm: real, individual: seq<Evidence>)
    requires |multipliers| == |sorted|
    ensures productTerm == Complement(Effectives(sorted, weights, multipliers))
    ensures individual == Decomposition(sorted, weights, multipliers)
  {
    ghost var es := Effectives(sorted, weights, multipliers);
    productTerm, individual := 1.0, [];
    assert es[0..] == es;
    for idx := 0 to |sorted|
      invariant individual == Decomposition(sorted[..idx], weights, multipliers[..idx])
      invariant Times(productTerm, Complement(es[idx..])) == Complement(es)
    {
      var w, d := WeightIn(weights, sorted[idx].name), multipliers[idx];
      var effectiveConf := Effective(sorted[idx].conf, w, d);
      ComplementStep(productTerm, es, idx);
      productTerm := Times(productTerm, 1.0 - effectiveConf);
      individual := individual + [Evidence(sorted[idx].name, sorted[idx].conf, Times(w, d))];
    }
    assert sorted[..|sorted|] == sorted && multipliers[..|sorted|] == multipliers;
  }

  lemma ComplementStep(product: real, es: seq<real>, k: nat)
    requires k < |es|
    ensures Times(product, Complement(es[k..])) == Times(Times(product, 1.0 - es[k]), Complement(es[k + 1..]))
  {
    assert es[k..][1..] == es[k + 1..];
    TimesSwap(product, 1.0 - es[k], Complement(es[k + 1..]));
  }

  /** `learned` correlations override the configured ones. */
  method CombineEvidence(signals: seq<Signal>, cfg: Config, learned: map<(string, string), real>) returns (r: Result)
    ensures var effective := cfg.(correlations := cfg.correlations + learned);
      && r.combined == (if signals == [] then 0.0 else Min(cfg.cap, Combined(signals, effective)))
      && r.capped == (signals != [] && Combined(signals, effective) > cfg.cap)
      && r.diminished == (|signals| > 2)
      && var s := Bounded(signals);
         if |s| > 1 then
           && r.penalties == PenaltiesFrom(s, effective.correlations, 0)
           && r.individual == Decomposition(SortDesc(s), Weights(s, effective.correlations),
               Multipliers(|s|, cfg.diminishingFactor))
         else r.penalties == [] && r.individual == if |s| == 1 then [Evidence(s[0].name, s[0].conf, 1.0)] else []
  {
    var s := Bounded(signals);
    if s == [] {
      return Result(0.0, [], [], false, false);
    }
    if |s| == 1 {
      var conf := s[0].conf;
      var cappedConf := Min(cfg.cap, conf);
      return Result(cappedConf, [Evidence(s[0].name, conf, 1.0)], [], cappedConf < conf, false);
    }
    var weights, penalties := DependencyWeights(s, cfg.correlations + learned);
    var sorted := SortDesc(s);
    var multipliers := DiminishingMultipliers(|sorted|, cfg.diminishingFactor);
    var productTerm, individual := NoisyOr(sorted, weights, multipliers);
    var combined := 1.0 - productTerm;
    return Result(Min(cfg.cap, combined), individual, penalties, combined > cfg.cap, |signals| > 2);
  }
}
