/** The combination at a diminishing factor of one: its doubt is that of taking the signals one after another, so that
    clustered methods keep monotonicity and order independence, and any three methods that are not clustered break
    both. */
module EvidenceUndiminished {
  import opened Reals
  import opened EvidenceModel
  import opened EvidenceBounds
  import opened EvidenceOrder
  import opened EvidenceLimits
  import opened EvidenceClusters

  // ---------------------------------------------------------------------------------------------
  // The order in which methods give way

  /** Of equally strong signals the one listed later comes first: it is the earlier one that their pair discounts. */
  function InsertAfter(x: Signal, s: seq<Signal>): (r: seq<Signal>)
    ensures |r| == |s| + 1
  {
    if s == [] || x.conf > s[0].conf then [x] + s else [s[0]] + InsertAfter(x, s[1..])
  }

  function Taken(s: seq<Signal>): (r: seq<Signal>)
    ensures |r| == |s|
  {
    if s == [] then [] else InsertAfter(s[0], Taken(s[1..]))
  }

  lemma {:induction false} InsertAfterAt(x: Signal, s: seq<Signal>) returns (q: nat)
    requires Descending(s)
    ensures q <= |s| && InsertAfter(x, s) == s[..q] + [x] + s[q..]
    ensures forall i :: 0 <= i < q ==> s[i].conf >= x.conf
    ensures forall i :: q <= i < |s| ==> s[i].conf < x.conf
  {
    if s == [] || x.conf > s[0].conf {
      q := 0;
    } else {
      q := InsertAfterAt(x, s[1..]);
      assert s == [s[0]] + s[1..];
      assert s[..q + 1] == [s[0]] + s[1..][..q] && s[q + 1..] == s[1..][q..];
      q := q + 1;
    }
  }

  lemma {:induction false} InsertAfterPermutes(x: Signal, s: seq<Signal>)
    ensures multiset(InsertAfter(x, s)) == multiset(s) + multiset{x}
  {
    if s != [] && x.conf <= s[0].conf {
      InsertAfterPermutes(x, s[1..]);
      assert s == [s[0]] + s[1..];
    }
  }

  lemma {:induction false} InsertAfterDescends(x: Signal, s: seq<Signal>)
    requires Descending(s)
    ensures Descending(InsertAfter(x, s))
    ensures InsertAfter(x, s)[0] == x || (s != [] && InsertAfter(x, s)[0] == s[0])
  {
    if s != [] && x.conf <= s[0].conf {
      var t := InsertAfter(x, s[1..]);
      InsertAfterDescends(x, s[1..]);
      assert t[0] == x || t[0] == s[1];
      forall i, j | 0 <= i < j < |t| + 1 ensures ([s[0]] + t)[i].conf >= ([s[0]] + t)[j].conf {
        if i == 0 { assert t[0].conf >= t[j - 1].conf; }
      }
    }
  }

  lemma {:induction false} TakenSorts(s: seq<Signal>)
    ensures Descending(Taken(s)) && multiset(Taken(s)) == multiset(s)
  {
    if s != [] {
      TakenSorts(s[1..]);
      InsertAfterPermutes(s[0], Taken(s[1..]));
      InsertAfterDescends(s[0], Taken(s[1..]));
      assert s == [s[0]] + s[1..];
    }
  }

  /** The signal at place j makes the one at place i give way. */
  ghost predicate BeatsAt(s: seq<Signal>, p: Signal, y: Signal, i: nat, j: nat) {
    i < |s| && j < |s| && i != j && s[i] == y && s[j] == p && (p.conf > y.conf || (p.conf == y.conf && i < j))
  }

  ghost predicate Beats(s: seq<Signal>, p: Signal, y: Signal) {
    exists i, j :: BeatsAt(s, p, y, i, j)
  }

  lemma BeatsHead(s: seq<Signal>, p: Signal)
    requires s != [] && DistinctNames(s)
    ensures Beats(s, p, s[0]) <==> p in s[1..] && p.conf >= s[0].conf
  {
    if p in s[1..] && p.conf >= s[0].conf {
      var j :| 0 <= j < |s| - 1 && s[1..][j] == p;
      assert BeatsAt(s, p, s[0], 0, j + 1);
    }
    if Beats(s, p, s[0]) {
      var i: nat, j: nat :| BeatsAt(s, p, s[0], i, j);
      assert i == 0 && s[1..][j - 1] == p;
    }
  }

  lemma BeatsTail(s: seq<Signal>, p: Signal, y: Signal)
    requires s != [] && DistinctNames(s) && y in s[1..]
    ensures Beats(s, p, y) <==> Beats(s[1..], p, y) || (p == s[0] && p.conf > y.conf)
  {
    var r := s[1..];
    var k :| 0 <= k < |r| && r[k] == y;
    if Beats(s, p, y) {
      var i: nat, j: nat :| BeatsAt(s, p, y, i, j);
      assert i == k + 1;
      if j > 0 { assert BeatsAt(r, p, y, i - 1, j - 1); }
    }
    if Beats(r, p, y) {
      var i: nat, j: nat :| BeatsAt(r, p, y, i, j);
      assert BeatsAt(s, p, y, i + 1, j + 1);
    }
    if p == s[0] && p.conf > y.conf { assert BeatsAt(s, p, y, k + 1, 0); }
  }

  lemma TakenHolds(s: seq<Signal>)
    ensures forall x :: x in Taken(s) <==> x in s
  {
    TakenSorts(s);
    PermutedMembers(s, Taken(s));
  }

  /** Where the first listed signal lands among the others. */
  lemma TakenHead(s: seq<Signal>) returns (q: nat)
    requires s != []
    ensures var (x, tail) := (s[0], Taken(s[1..]));
      && q <= |tail| && Taken(s) == tail[..q] + [x] + tail[q..]
      && (forall i :: 0 <= i < q ==> tail[i].conf >= x.conf)
      && (forall i :: q <= i < |tail| ==> tail[i].conf < x.conf)
  {
    TakenSorts(s[1..]);
    q := InsertAfterAt(s[0], Taken(s[1..]));
  }

  /** A signal is taken after precisely those it gives way to. */
  lemma {:induction false} TakenAfter(s: seq<Signal>, k: nat, p: Signal)
    requires DistinctNames(s) && k < |s|
    ensures p in Taken(s)[..k] <==> Beats(s, p, Taken(s)[k])
  {
    var tail := Taken(s[1..]);
    var q := TakenHead(s);
    TakenHolds(s[1..]);
    if k == q {
      BeatsHead(s, p);
      TakenAfterHead(tail, q, s[0], p);
    } else {
      var i := if k < q then k else k - 1;
      TakenAfter(s[1..], i, p);
      assert tail[i] in tail;
      BeatsTail(s, p, tail[i]);
      if k < q { TakenBeforeHead(tail, q, s[0], k); } else { TakenPastHead(tail, q, s[0], k, p); }
    }
  }

  lemma TakenBeforeHead(tail: seq<Signal>, q: nat, x: Signal, k: nat)
    requires k < q <= |tail|
    ensures var t := tail[..q] + [x] + tail[q..]; t[k] == tail[k] && t[..k] == tail[..k]
  {
  }

  lemma TakenPastHead(tail: seq<Signal>, q: nat, x: Signal, k: nat, p: Signal)
    requires q < k <= |tail|
    ensures var t := tail[..q] + [x] + tail[q..];
            t[k] == tail[k - 1] && (p in t[..k] <==> p == x || p in tail[..k - 1])
  {
    var t := tail[..q] + [x] + tail[q..];
    assert t[..k] == tail[..q] + [x] + tail[q..k - 1];
    assert tail[..k - 1] == tail[..q] + tail[q..k - 1];
  }

  lemma TakenAfterHead(tail: seq<Signal>, q: nat, x: Signal, p: Signal)
    requires q <= |tail|
    requires forall i :: 0 <= i < q ==> tail[i].conf >= x.conf
    requires forall i :: q <= i < |tail| ==> tail[i].conf < x.conf
    ensures p in (tail[..q] + [x] + tail[q..])[..q] <==> p in tail && p.conf >= x.conf
  {
    assert (tail[..q] + [x] + tail[q..])[..q] == tail[..q];
  }

  // ---------------------------------------------------------------------------------------------
  // Weights are shares

  /** The nearness of the listed methods is what the correlations say in the order of the list. */
  ghost predicate Agrees(d: Nearness, s: seq<Signal>, m: map<(string, string), real>) {
    forall i, j :: 0 <= i < j < |s| ==>
      d(s[i].name, s[j].name) == d(s[j].name, s[i].name) == Kept(m, s[i].name, s[j].name)
  }

  lemma ShareAtMostWeight(s: seq<Signal>, m: map<(string, string), real>, d: Nearness, k: nat)
    requires DistinctNames(s) && Agrees(d, s, m) && k < |s|
    ensures Share(d, Taken(s)[..k], Taken(s)[k].name) <= Clamp(Weight(s, m, Taken(s)[k].name))
  {
    var y := Taken(s)[k];
    var w := Weight(s, m, y.name);
    WeightIsLeast(s, m, y.name);
    ShareIsLeast(d, Taken(s)[..k], y.name);
    if w != 1.0 {
      var h: nat, g: nat :| Hits(s, m, h, g, y.name, w);
      var (i, j) := if s[h].conf <= s[g].conf then (h, g) else (g, h);
      TakenSorts(s);
      PermutedMembers(s, Taken(s));
      assert y in s;
      var n: nat :| n < |s| && s[n] == y;
      assert n == i;
      assert BeatsAt(s, s[j], y, i, j);
      TakenAfter(s, k, s[j]);
      assert d(s[j].name, y.name) == Kept(m, s[h].name, s[g].name) == Clamp(w);
    }
  }

  lemma WeightAtMostShare(s: seq<Signal>, m: map<(string, string), real>, d: Nearness, k: nat)
    requires DistinctNames(s) && Agrees(d, s, m) && k < |s|
    ensures Clamp(Weight(s, m, Taken(s)[k].name)) <= Share(d, Taken(s)[..k], Taken(s)[k].name)
  {
    var y := Taken(s)[k];
    ShareIsLeast(d, Taken(s)[..k], y.name);
    var v := Share(d, Taken(s)[..k], y.name);
    if v != 1.0 {
      var p :| p in Taken(s)[..k] && v == d(p.name, y.name);
      TakenAfter(s, k, p);
      var i: nat, j: nat :| BeatsAt(s, p, y, i, j);
      WeightAtMostKept(s, m, d, p, y, i, j);
    }
  }

  lemma WeightAtMostKept(s: seq<Signal>, m: map<(string, string), real>, d: Nearness, p: Signal, y: Signal, i: nat,
                         j: nat)
    requires DistinctNames(s) && Agrees(d, s, m) && BeatsAt(s, p, y, i, j)
    ensures Clamp(Weight(s, m, y.name)) <= d(p.name, y.name)
  {
    var (h, g) := if i < j then (i, j) else (j, i);
    assert d(p.name, y.name) == Kept(m, s[h].name, s[g].name);
    WeightIsLeast(s, m, y.name);
    var c := Discount(m, s[h].name, s[g].name);
    if c.Some? { assert Hits(s, m, h, g, y.name, c.value); }
  }

  /** The product of the doubts that the signals leave at their weights. */
  ghost function Product(s: seq<Signal>, m: map<(string, string), real>, t: seq<Signal>): real
    decreases |t|
  {
    if t == [] then 1.0
    else Times(1.0 - Times(t[0].conf, Clamp(Weight(s, m, t[0].name))), Product(s, m, t[1..]))
  }

  lemma {:induction false} ProductIsDoubt(s: seq<Signal>, m: map<(string, string), real>, d: Nearness, k: nat)
    requires DistinctNames(s) && Agrees(d, s, m) && k <= |s|
    ensures Product(s, m, Taken(s)[k..]) == Doubt(d, Taken(s)[..k], Taken(s)[k..])
    decreases |s| - k
  {
    if k < |s| {
      var t := Taken(s);
      ShareAtMostWeight(s, m, d, k);
      WeightAtMostShare(s, m, d, k);
      ProductIsDoubt(s, m, d, k + 1);
      assert t[k..][1..] == t[k + 1..] && t[..k] + [t[k..][0]] == t[..k + 1];
    }
  }

  lemma {:induction false} ProductFront(s: seq<Signal>, m: map<(string, string), real>, ys: seq<Signal>, z: Signal,
                                        rest: seq<Signal>)
    ensures Product(s, m, ys + [z] + rest) == Product(s, m, [z] + (ys + rest))
    decreases |ys|
  {
    if ys == [] {
      assert [] + [z] + rest == [z] + ([] + rest);
    } else {
      var more := ys[1..];
      ProductFront(s, m, more, z, rest);
      assert (ys + [z] + rest)[1..] == more + [z] + rest;
      assert ([z] + (more + rest))[1..] == more + rest;
      assert ([z] + (ys + rest))[1..] == ys + rest && (ys + rest)[1..] == more + rest;
      TimesSwap(1.0 - Times(ys[0].conf, Clamp(Weight(s, m, ys[0].name))),
                1.0 - Times(z.conf, Clamp(Weight(s, m, z.name))), Product(s, m, more + rest));
    }
  }

  /** A member brought to the front. */
  lemma ProductSplit(s: seq<Signal>, m: map<(string, string), real>, t: seq<Signal>, u: seq<Signal>)
    returns (rest: seq<Signal>)
    requires multiset(t) == multiset(u) && t != []
    ensures multiset(t[1..]) == multiset(rest) && Product(s, m, u) == Product(s, m, [t[0]] + rest)
  {
    PermutedMembers(t, u);
    assert t[0] in u;
    var p :| 0 <= p < |u| && u[p] == t[0];
    rest := u[..p] + u[p + 1..];
    TailPermutes(t, u, p);
    assert u == u[..p] + [u[p]] + u[p + 1..];
    ProductFront(s, m, u[..p], u[p], u[p + 1..]);
  }

  lemma TailPermutes(t: seq<Signal>, u: seq<Signal>, p: nat)
    requires multiset(t) == multiset(u) && t != [] && p < |u| && u[p] == t[0]
    ensures multiset(t[1..]) == multiset(u[..p] + u[p + 1..])
  {
    SameRest(t, u, p);
    assert t[..0] + t[1..] == t[1..];
  }

  lemma {:induction false} ProductPermutes(s: seq<Signal>, m: map<(string, string), real>, t: seq<Signal>,
                                           u: seq<Signal>)
    requires multiset(t) == multiset(u)
    ensures Product(s, m, t) == Product(s, m, u)
    decreases |t|
  {
    if t == [] {
      PermutedMembers(t, u);
    } else {
      var rest := ProductSplit(s, m, t, u);
      ProductPermutes(s, m, t[1..], rest);
      assert ([t[0]] + rest)[1..] == rest;
    }
  }

  lemma UndiminishedAt(s: seq<Signal>, cfg: Config, k: nat)
    requires Proper(s) && cfg.diminishingFactor == 1.0 && k < |s|
    ensures SortedEffectives(s, cfg)[k]
         == Times(SortDesc(s)[k].conf, Clamp(Weight(s, cfg.correlations, SortDesc(s)[k].name)))
  {
    var (x, w) := (SortDesc(s)[k], Weight(s, cfg.correlations, SortDesc(s)[k].name));
    SortedProper(s);
    WeightFound(s, cfg.correlations, k);
    NothingDiminishes(|s|, k);
    EffectiveClamped(x.conf, w, 1.0);
    TimesUnit(Times(x.conf, Clamp(w)));
  }

  lemma {:induction false} ComplementIsProduct(s: seq<Signal>, cfg: Config, k: nat)
    requires Proper(s) && cfg.diminishingFactor == 1.0 && k <= |s|
    ensures Complement(SortedEffectives(s, cfg)[k..]) == Product(s, cfg.correlations, SortDesc(s)[k..])
    decreases |s| - k
  {
    if k < |s| {
      var es := SortedEffectives(s, cfg);
      UndiminishedAt(s, cfg, k);
      ComplementIsProduct(s, cfg, k + 1);
      assert es[k..][1..] == es[k + 1..] && SortDesc(s)[k..][1..] == SortDesc(s)[k + 1..];
    }
  }

  /** When nothing diminishes, what the combination leaves is the doubt of taking the signals strongest first. */
  lemma UndiminishedDoubt(signals: seq<Signal>, cfg: Config, d: Nearness)
    requires cfg.diminishingFactor == 1.0 && DistinctNames(signals)
    requires Agrees(d, Bounded(signals), cfg.correlations)
    ensures 1.0 - Combined(signals, cfg) == Doubt(d, [], Taken(Bounded(signals)))
  {
    var s := Bounded(signals);
    DoubtAfterSorting(s, cfg, d);
    if |s| == 1 { AloneCombined(signals, cfg, d); }
  }

  lemma DoubtAfterSorting(s: seq<Signal>, cfg: Config, d: Nearness)
    requires cfg.diminishingFactor == 1.0 && DistinctNames(s) && Proper(s) && Agrees(d, s, cfg.correlations)
    ensures Complement(SortedEffectives(s, cfg)) == Doubt(d, [], Taken(s))
  {
    var (m, t, es) := (cfg.correlations, Taken(s), SortedEffectives(s, cfg));
    ComplementIsProduct(s, cfg, 0);
    assert es[0..] == es && SortDesc(s)[0..] == SortDesc(s);
    SortPermutes(s);
    TakenSorts(s);
    ProductPermutes(s, m, SortDesc(s), t);
    ProductIsDoubt(s, m, d, 0);
    assert t[0..] == t && t[..0] == [];
  }

  lemma AloneCombined(signals: seq<Signal>, cfg: Config, d: Nearness)
    requires |signals| == 1
    ensures 1.0 - Combined(signals, cfg) == Doubt(d, [], Taken(Bounded(signals)))
  {
    var s := Bounded(signals);
    assert s == [s[0]] && s[1..] == [];
    assert Taken(s) == [s[0]];
    TimesUnit(s[0].conf);
    TimesUnit(1.0 - s[0].conf);
  }

  // ---------------------------------------------------------------------------------------------
  // Clustered methods: raising and adding

  lemma ShareByNames(d: Nearness, p: seq<Signal>, q: seq<Signal>, name: string)
    requires |p| == |q| && forall i :: 0 <= i < |p| ==> p[i].name == q[i].name
    ensures Share(d, p, name) == Share(d, q, name)
  {
    ShareIsLeast(d, p, name);
    ShareIsLeast(d, q, name);
    forall x | x in p ensures exists y :: y in q && y.name == x.name {
      var i :| 0 <= i < |p| && p[i] == x;
      assert q[i] in q;
    }
    forall y | y in q ensures exists x :: x in p && x.name == y.name {
      var i :| 0 <= i < |q| && q[i] == y;
      assert p[i] in p;
    }
  }

  lemma {:induction false} DoubtByNames(d: Nearness, p: seq<Signal>, q: seq<Signal>, s: seq<Signal>)
    requires |p| == |q| && forall i :: 0 <= i < |p| ==> p[i].name == q[i].name
    ensures Doubt(d, p, s) == Doubt(d, q, s)
    decreases |s|
  {
    if s != [] {
      ShareByNames(d, p, q, s[0].name);
      DoubtByNames(d, p + [s[0]], q + [s[0]], s[1..]);
    }
  }

  /** Raising a signal where it stands in the order leaves no more doubt. */
  lemma {:induction false} RaisedInOrder(d: Nearness, names: set<string>, before: seq<Signal>, s: seq<Signal>, k: nat,
                                         conf: real)
    requires Admissible(d, names, before + s) && k < |s| && s[k].conf <= conf <= 1.0
    ensures Doubt(d, before, s[k := Signal(s[k].name, conf)]) <= Doubt(d, before, s)
    decreases k
  {
    var t := s[k := Signal(s[k].name, conf)];
    ShareOfNext(d, names, before, s);
    if k == 0 {
      RaisedFirst(d, names, before, s, conf);
    } else {
      RaisedInOrder(d, names, before + [s[0]], s[1..], k - 1, conf);
      assert t == [s[0]] + s[1..][k - 1 := Signal(s[k].name, conf)];
      assert s == [s[0]] + s[1..];
      PrefixKept(d, before, s[0], t[1..], s[1..]);
    }
  }

  lemma RaisedFirst(d: Nearness, names: set<string>, before: seq<Signal>, s: seq<Signal>, conf: real)
    requires Admissible(d, names, before + s) && s != [] && s[0].conf <= conf <= 1.0
    ensures Doubt(d, before, s[0 := Signal(s[0].name, conf)]) <= Doubt(d, before, s)
  {
    var (x, rest, w) := (s[0], s[1..], Share(d, before, s[0].name));
    var y := Signal(x.name, conf);
    assert s == [x] + rest && s[0 := y] == [y] + rest;
    DoubtOfNext(d, before, x, rest);
    DoubtOfNext(d, before, y, rest);
    DoubtByNames(d, before + [x], before + [y], rest);
    FirstInUnit(d, names, before, s);
    LessDoubt(x.conf, conf, w, Doubt(d, before + [x], rest));
  }

  lemma FirstInUnit(d: Nearness, names: set<string>, before: seq<Signal>, s: seq<Signal>)
    requires Admissible(d, names, before + s) && s != []
    ensures 0.0 <= s[0].conf && 0.0 <= Share(d, before, s[0].name) && 0.0 <= Doubt(d, before + [s[0]], s[1..])
  {
    AdmissibleNext(d, names, before, s, 0);
    assert before + s == before + [s[0]] + s[1..];
    DoubtInUnit(d, names, before + [s[0]], s[1..]);
  }

  lemma LessDoubt(conf: real, conf': real, w: real, rest: real)
    requires 0.0 <= conf <= conf' && 0.0 <= w && 0.0 <= rest
    ensures Times(1.0 - Times(conf', w), rest) <= Times(1.0 - Times(conf, w), rest)
  {
    TimesMono(conf, conf', w, w);
    TimesMonoSigned(1.0 - Times(conf', w), 1.0 - Times(conf, w), rest);
  }

  /** Raising one signal leaves no more doubt, whatever it overtakes. */
  lemma RaisedDoubt(d: Nearness, names: set<string>, s: seq<Signal>, i: nat, conf: real)
    requires Admissible(d, names, s) && i < |s| && s[i].conf <= conf <= 1.0
    ensures var t := s[i := Signal(s[i].name, conf)];
            Admissible(d, names, t) && Doubt(d, [], Taken(t)) <= Doubt(d, [], Taken(s))
  {
    var t := s[i := Signal(s[i].name, conf)];
    var v := RaisedTaken(d, names, s, i, conf);
    RaisedAdmissible(d, names, s, i, conf);
    TakenSorts(t);
    PermutedAdmissible(d, names, t, v);
    assert [] + v == v;
    DescendingIsBest(d, names, [], v, Taken(t));
  }

  /** The old order with the signal raised. */
  lemma RaisedTaken(d: Nearness, names: set<string>, s: seq<Signal>, i: nat, conf: real) returns (v: seq<Signal>)
    requires Admissible(d, names, s) && i < |s| && s[i].conf <= conf <= 1.0
    ensures multiset(v) == multiset(s[i := Signal(s[i].name, conf)])
    ensures Doubt(d, [], v) <= Doubt(d, [], Taken(s))
  {
    var (u, y) := (Taken(s), Signal(s[i].name, conf));
    var k := PlaceTaken(s, i);
    v := u[k := y];
    TakenSorts(s);
    PermutedAdmissible(d, names, s, u);
    assert [] + u == u;
    RaisedInOrder(d, names, [], u, k, conf);
    UpdatePermutes(s, i, u, k, y);
  }

  lemma PlaceTaken(s: seq<Signal>, i: nat) returns (k: nat)
    requires i < |s|
    ensures k < |s| && Taken(s)[k] == s[i]
  {
    TakenHolds(s);
    assert s[i] in Taken(s);
    k :| 0 <= k < |Taken(s)| && Taken(s)[k] == s[i];
  }

  lemma RaisedAdmissible(d: Nearness, names: set<string>, s: seq<Signal>, i: nat, conf: real)
    requires Admissible(d, names, s) && i < |s| && s[i].conf <= conf <= 1.0
    ensures Admissible(d, names, s[i := Signal(s[i].name, conf)])
  {
    var t := s[i := Signal(s[i].name, conf)];
    assert forall k :: 0 <= k < |s| ==> t[k].name == s[k].name;
    forall k | 0 <= k < |t| ensures t[k].name in names { assert s[k].name in Names(s); }
  }

  lemma UpdatePermutes(s: seq<Signal>, i: nat, u: seq<Signal>, k: nat, y: Signal)
    requires i < |s| && k < |u| && s[i] == u[k] && multiset(s) == multiset(u)
    ensures multiset(s[i := y]) == multiset(u[k := y])
  {
  }

  /** Adding one signal leaves no more doubt. */
  lemma AddedDoubt(d: Nearness, names: set<string>, s: seq<Signal>, t: seq<Signal>, y: Signal)
    requires Admissible(d, names, t) && multiset(t) == multiset(s) + multiset{y}
    ensures Doubt(d, [], Taken(t)) <= Doubt(d, [], Taken(s))
  {
    var u := Taken(s);
    TakenSorts(s);
    TakenSorts(t);
    PermutedAdmissible(d, names, t, u + [y]);
    assert [] + (u + [y]) == u + [y];
    DoubtWithLast(d, names, [], u, y);
    DescendingIsBest(d, names, [], u + [y], Taken(t));
  }

  lemma {:induction false} DoubtWithLast(d: Nearness, names: set<string>, before: seq<Signal>, s: seq<Signal>,
                                         y: Signal)
    requires Admissible(d, names, before + (s + [y]))
    ensures Doubt(d, before, s + [y]) <= Doubt(d, before, s)
    decreases |s|
  {
    var all := s + [y];
    ShareOfNext(d, names, before, all);
    if s == [] {
      DoubtInUnit(d, names, before, all);
    } else {
      assert all[1..] == s[1..] + [y] && all == [s[0]] + (s[1..] + [y]) && s == [s[0]] + s[1..];
      assert before + [all[0]] + all[1..] == before + [s[0]] + (s[1..] + [y]);
      DoubtWithLast(d, names, before + [s[0]], s[1..], y);
      PrefixKept(d, before, s[0], s[1..] + [y], s[1..]);
    }
  }

  lemma WithoutAdmissible(d: Nearness, names: set<string>, s: seq<Signal>, i: nat)
    requires Admissible(d, names, s) && i < |s|
    ensures Admissible(d, names, s[..i] + s[i + 1..])
    ensures multiset(s) == multiset(s[..i] + s[i + 1..]) + multiset{s[i]}
  {
    var t := s[..i] + s[i + 1..];
    forall k | 0 <= k < |t| ensures t[k] == s[if k < i then k else k + 1] && t[k].name in names {
      assert t[k] == s[if k < i then k else k + 1];
      assert t[k].name in Names(s);
    }
    WithoutOne(s, i);
    WithoutDistinct(s, t, i);
  }

  lemma WithoutDistinct(s: seq<Signal>, t: seq<Signal>, i: nat)
    requires DistinctNames(s) && i < |s| == |t| + 1
    requires forall k :: 0 <= k < |t| ==> t[k] == s[if k < i then k else k + 1]
    ensures DistinctNames(t)
  {
    forall j, k | 0 <= j < k < |t| ensures t[j].name != t[k].name {
      var (p, q) := (if j < i then j else j + 1, if k < i then k else k + 1);
      assert p < q && t[j] == s[p] && t[k] == s[q];
    }
  }

  /** So does any number of such changes. */
  lemma {:induction false} GrownDoubt(d: Nearness, names: set<string>, before: seq<Signal>, s: seq<Signal>,
                                      t: seq<Signal>)
    requires Grown(s, t) && Proper(s) && Admissible(d, names, before + t)
    ensures Admissible(d, names, before + s)
    ensures Doubt(d, [], Taken(before + t)) <= Doubt(d, [], Taken(before + s))
    decreases |t|
  {
    if t != [] {
      assert before + t == before + [t[0]] + t[1..];
      if s != [] && s[0].name == t[0].name && s[0].conf <= t[0].conf && Grown(s[1..], t[1..]) {
        GrownDoubt(d, names, before + [t[0]], s[1..], t[1..]);
        RaiseBack(d, names, before, s, t[0]);
      } else {
        GrownDoubt(d, names, before + [t[0]], s, t[1..]);
        AddBack(d, names, before, s, t[0]);
      }
    }
  }

  lemma AddBack(d: Nearness, names: set<string>, before: seq<Signal>, s: seq<Signal>, y: Signal)
    requires Admissible(d, names, before + [y] + s)
    ensures Admissible(d, names, before + s)
    ensures Doubt(d, [], Taken(before + [y] + s)) <= Doubt(d, [], Taken(before + s))
  {
    var (u, n) := (before + [y] + s, |before|);
    WithoutAdmissible(d, names, u, n);
    assert u[..n] + u[n + 1..] == before + s && u[n] == y;
    AddedDoubt(d, names, before + s, u, y);
  }

  lemma RaiseBack(d: Nearness, names: set<string>, before: seq<Signal>, s: seq<Signal>, y: Signal)
    requires s != [] && Proper(s) && y.name == s[0].name && s[0].conf <= y.conf
    requires Admissible(d, names, before + [y] + s[1..])
    ensures Admissible(d, names, before + s)
    ensures Doubt(d, [], Taken(before + [y] + s[1..])) <= Doubt(d, [], Taken(before + s))
  {
    var (n, u, v) := (|before|, before + [y] + s[1..], before + s);
    assert v == u[n := s[0]] && u == v[n := Signal(s[0].name, y.conf)];
    assert forall k :: 0 <= k < |v| ==> v[k].name == u[k].name;
    assert u[n].conf == y.conf;
    forall k | 0 <= k < |v| ensures v[k].name in names && 0.0 <= v[k].conf <= 1.0 {
      assert u[k].name in Names(u);
      assert v[k] == if k == n then s[0] else u[k];
    }
    RaisedDoubt(d, names, v, n, y.conf);
  }

  // ---------------------------------------------------------------------------------------------
  // The laws of clustered methods

  ghost predicate Precedes(s: seq<Signal>, a: string, b: string) {
    exists i, j :: 0 <= i < j < |s| && s[i].name == a && s[j].name == b
  }

  /** The nearness of methods in the order of a list. */
  ghost function Oriented(s: seq<Signal>, m: map<(string, string), real>): Nearness {
    (a, b) => if Precedes(s, a, b) then Kept(m, a, b) else Kept(m, b, a)
  }

  lemma OrientedAgrees(s: seq<Signal>, m: map<(string, string), real>)
    requires DistinctNames(s)
    ensures Agrees(Oriented(s, m), s, m)
  {
    forall i, j | 0 <= i < j < |s|
      ensures Oriented(s, m)(s[i].name, s[j].name) == Kept(m, s[i].name, s[j].name)
      ensures Oriented(s, m)(s[j].name, s[i].name) == Kept(m, s[i].name, s[j].name)
    {
      assert Precedes(s, s[i].name, s[j].name);
      assert !Precedes(s, s[j].name, s[i].name);
    }
  }

  lemma ThreeCluster(s: seq<Signal>, m: map<(string, string), real>, d: Nearness, i: nat, j: nat, k: nat)
    requires Clustered(m) && DistinctNames(s) && Agrees(d, s, m)
    requires i < |s| && j < |s| && k < |s| && i != j && i != k && j != k
    ensures TopTwice(d(s[i].name, s[j].name), d(s[i].name, s[k].name), d(s[j].name, s[k].name))
  {
    var lo := if i < j && i < k then i else if j < k then j else k;
    var hi := if i > j && i > k then i else if j > k then j else k;
    var mid := i + j + k - lo - hi;
    assert lo < mid < hi;
    var (a, b, c) := (s[lo].name, s[mid].name, s[hi].name);
    assert TopTwice(Kept(m, a, b), Kept(m, a, c), Kept(m, b, c));
  }

  lemma ListClusters(s: seq<Signal>, m: map<(string, string), real>, d: Nearness)
    requires Clustered(m) && DistinctNames(s) && Agrees(d, s, m)
    requires forall a :: a in Names(s) ==> 0.0 <= d(a, a) <= 1.0
    ensures Clusters(d, Names(s))
  {
    var names := Names(s);
    forall a, b | a in names && b in names ensures 0.0 <= d(a, b) <= 1.0 && d(a, b) == d(b, a) {
      var i :| 0 <= i < |s| && s[i].name == a;
      var j :| 0 <= j < |s| && s[j].name == b;
      if i < j { assert d(a, b) == Kept(m, a, b); } else if j < i { assert d(a, b) == Kept(m, b, a); }
    }
    forall a, b, c | a in names && b in names && c in names && a != b && a != c && b != c
      ensures TopTwice(d(a, b), d(a, c), d(b, c))
    {
      var i: nat :| i < |s| && s[i].name == a;
      var j: nat :| j < |s| && s[j].name == b;
      var k: nat :| k < |s| && s[k].name == c;
      ThreeCluster(s, m, d, i, j, k);
    }
  }

  lemma {:induction false} GrownPlaces(s: seq<Signal>, t: seq<Signal>, i: nat, j: nat) returns (p: nat, q: nat)
    requires Grown(s, t) && i < j < |s|
    ensures p < q < |t| && t[p].name == s[i].name && t[q].name == s[j].name
    decreases |t|
  {
    if s[0].name == t[0].name && s[0].conf <= t[0].conf && Grown(s[1..], t[1..]) {
      if i > 0 {
        p, q := GrownPlaces(s[1..], t[1..], i - 1, j - 1);
        p, q := p + 1, q + 1;
      } else {
        p := 0;
        q := GrownPlace(s[1..], t[1..], j - 1);
        q := q + 1;
      }
    } else {
      p, q := GrownPlaces(s, t[1..], i, j);
      p, q := p + 1, q + 1;
    }
  }

  lemma {:induction false} GrownPlace(s: seq<Signal>, t: seq<Signal>, j: nat) returns (q: nat)
    requires Grown(s, t) && j < |s|
    ensures q < |t| && t[q].name == s[j].name
    decreases |t|
  {
    if s[0].name == t[0].name && s[0].conf <= t[0].conf && Grown(s[1..], t[1..]) {
      if j == 0 { q := 0; } else { q := GrownPlace(s[1..], t[1..], j - 1); q := q + 1; }
    } else {
      q := GrownPlace(s, t[1..], j);
      q := q + 1;
    }
  }

  lemma GrownAgrees(s: seq<Signal>, t: seq<Signal>, m: map<(string, string), real>, d: Nearness)
    requires Grown(s, t) && Agrees(d, t, m)
    ensures Agrees(d, s, m)
  {
    forall i: nat, j: nat | i < j < |s|
      ensures d(s[i].name, s[j].name) == d(s[j].name, s[i].name) == Kept(m, s[i].name, s[j].name)
    {
      var p, q := GrownPlaces(s, t, i, j);
    }
  }

  lemma {:induction false} BoundedGrown(s: seq<Signal>, t: seq<Signal>)
    requires Grown(s, t)
    ensures Grown(Bounded(s), Bounded(t))
    decreases |t|
  {
    if t != [] {
      assert Bounded(t)[1..] == Bounded(t[1..]);
      if s != [] && s[0].name == t[0].name && s[0].conf <= t[0].conf && Grown(s[1..], t[1..]) {
        assert Bounded(s)[1..] == Bounded(s[1..]);
        BoundedGrown(s[1..], t[1..]);
      } else {
        BoundedGrown(s, t[1..]);
      }
    }
  }

  /** While the methods are clustered and nothing diminishes, more or stronger evidence never lowers the result. */
  lemma ClusteredNeverLower(s: seq<Signal>, t: seq<Signal>, cfg: Config)
    requires cfg.diminishingFactor == 1.0 && Clustered(cfg.correlations)
    requires Grown(s, t) && DistinctNames(s) && DistinctNames(t)
    ensures Combined(s, cfg) <= Combined(t, cfg)
  {
    var (a, b) := (Bounded(s), Bounded(t));
    var d := ListNearness(b, cfg.correlations);
    BoundedGrown(s, t);
    GrownAgrees(a, b, cfg.correlations, d);
    GrownBestDoubt(d, Names(b), a, b);
    UndiminishedDoubt(s, cfg, d);
    UndiminishedDoubt(t, cfg, d);
  }

  /** The nearness of listed methods, in the order of the list. */
  lemma ListNearness(s: seq<Signal>, m: map<(string, string), real>) returns (d: Nearness)
    requires Clustered(m) && DistinctNames(s)
    ensures Agrees(d, s, m) && Clusters(d, Names(s))
  {
    d := Oriented(s, m);
    OrientedAgrees(s, m);
    ListClusters(s, m, d);
  }

  lemma GrownBestDoubt(d: Nearness, names: set<string>, a: seq<Signal>, b: seq<Signal>)
    requires Grown(a, b) && Proper(a) && Admissible(d, names, b)
    ensures Doubt(d, [], Taken(b)) <= Doubt(d, [], Taken(a))
  {
    assert [] + b == b && [] + a == a;
    GrownDoubt(d, names, [], a, b);
  }

  /** And while they keep the same shares in both orientations, the order of the signals never matters. */
  lemma ClusteredOrder(s: seq<Signal>, t: seq<Signal>, cfg: Config)
    requires cfg.diminishingFactor == 1.0 && Clustered(cfg.correlations) && SameBothWays(cfg.correlations, 1.0)
    requires multiset(s) == multiset(t) && DistinctNames(s) && DistinctNames(t)
    ensures Combined(s, cfg) == Combined(t, cfg)
  {
    var (a, b, m) := (Bounded(s), Bounded(t), cfg.correlations);
    var d: Nearness := (x, y) => Kept(m, x, y);
    SymmetricAgrees(a, m, d);
    SymmetricAgrees(b, m, d);
    ListClusters(a, m, d);
    BoundedPermutes(s, t);
    SameBestDoubt(d, Names(a), a, b);
    UndiminishedDoubt(s, cfg, d);
    UndiminishedDoubt(t, cfg, d);
  }

  lemma SameBestDoubt(d: Nearness, names: set<string>, a: seq<Signal>, b: seq<Signal>)
    requires Admissible(d, names, a) && multiset(a) == multiset(b)
    ensures Doubt(d, [], Taken(a)) == Doubt(d, [], Taken(b))
  {
    PermutedAdmissible(d, names, a, b);
    BestDoubt(d, names, a, b);
    BestDoubt(d, names, b, a);
  }

  lemma BestDoubt(d: Nearness, names: set<string>, a: seq<Signal>, b: seq<Signal>)
    requires Admissible(d, names, a) && multiset(a) == multiset(b)
    ensures Doubt(d, [], Taken(b)) <= Doubt(d, [], Taken(a))
  {
    TakenSorts(a);
    TakenSorts(b);
    PermutedAdmissible(d, names, a, Taken(a));
    assert [] + Taken(a) == Taken(a);
    DescendingIsBest(d, names, [], Taken(a), Taken(b));
  }

  lemma SymmetricAgrees(s: seq<Signal>, m: map<(string, string), real>, d: Nearness)
    requires SameBothWays(m, 1.0) && DistinctNames(s) && forall x, y :: d(x, y) == Kept(m, x, y)
    ensures Agrees(d, s, m)
  {
    forall i, j | 0 <= i < j < |s| ensures Kept(m, s[i].name, s[j].name) == Kept(m, s[j].name, s[i].name) {
      assert Alike(1.0, Left(m, s[i].name, s[j].name), Left(m, s[j].name, s[i].name));
    }
  }
}
