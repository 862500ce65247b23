/** The combination when nothing diminishes: its doubt is that of taking the signals one after another, strongest first,
    each weighed by its nearness to those already taken. While nearness clusters the methods, no other order leaves
    less doubt, and so more or stronger evidence never hurts. */
module EvidenceClusters {
  import opened Reals
  import opened EvidenceModel
  import opened EvidenceOrder

  ghost predicate DistinctNames(s: seq<Signal>) {
    forall i, j :: 0 <= i < j < |s| ==> s[i].name != s[j].name
  }

  /** The share of its confidence that the weaker of two methods keeps: the nearer they are, the less. */
  function Kept(m: map<(string, string), real>, a: string, b: string): (w: real)
    ensures 0.0 <= w <= 1.0
  {
    Clamp(Left(m, a, b))
  }

  /** The largest of the three is attained twice. */
  predicate TopTwice(x: real, y: real, z: real) {
    x <= y == z || y <= x == z || z <= x == y
  }

  /** Methods fall into clusters: of any three, two are no nearer to each other than either is to the third. */
  ghost predicate Clustered(m: map<(string, string), real>) {
    forall a, b, c :: a != b && a != c && b != c ==> TopTwice(Kept(m, a, b), Kept(m, a, c), Kept(m, b, c))
  }

  type Nearness = (string, string) -> real

  /** Shares that are symmetric and cluster these methods. */
  ghost predicate Clusters(d: Nearness, names: set<string>) {
    && (forall a, b :: a in names && b in names ==> 0.0 <= d(a, b) <= 1.0 && d(a, b) == d(b, a))
    && (forall a, b, c :: a in names && b in names && c in names && a != b && a != c && b != c ==>
          TopTwice(d(a, b), d(a, c), d(b, c)))
  }

  // ---------------------------------------------------------------------------------------------
  // One signal after another

  /** What a method keeps after those taken before it. */
  ghost function Share(d: Nearness, before: seq<Signal>, name: string): real {
    if before == [] then 1.0
    else
      var n := |before| - 1;
      Min(Share(d, before[..n], name), d(before[n].name, name))
  }

  /** The doubt that the signals leave when taken in this order. */
  ghost function Doubt(d: Nearness, before: seq<Signal>, s: seq<Signal>): real
    decreases |s|
  {
    if s == [] then 1.0
    else Times(1.0 - Times(s[0].conf, Share(d, before, s[0].name)), Doubt(d, before + [s[0]], s[1..]))
  }

  lemma {:induction false} ShareIsLeast(d: Nearness, before: seq<Signal>, name: string)
    ensures var w := Share(d, before, name);
      && w <= 1.0 && (forall p :: p in before ==> w <= d(p.name, name))
      && (w == 1.0 || exists p :: p in before && w == d(p.name, name))
  {
    if before != [] {
      var n := |before| - 1;
      ShareIsLeast(d, before[..n], name);
      assert before == before[..n] + [before[n]];
    }
  }

  lemma ShareInUnit(d: Nearness, names: set<string>, before: seq<Signal>, name: string)
    requires Clusters(d, names) && Names(before) <= names && name in names
    ensures 0.0 <= Share(d, before, name) <= 1.0
  {
    ShareIsLeast(d, before, name);
    var w := Share(d, before, name);
    if p :| p in before && w == d(p.name, name) { assert p.name in Names(before); }
  }

  lemma ShareAfter(d: Nearness, before: seq<Signal>, p: Signal, name: string)
    ensures Share(d, before + [p], name) == Min(Share(d, before, name), d(p.name, name))
  {
    assert (before + [p])[..|before|] == before;
  }

  lemma SameShare(d: Nearness, p: seq<Signal>, q: seq<Signal>, name: string)
    requires forall x :: x in p <==> x in q
    ensures Share(d, p, name) == Share(d, q, name)
  {
    ShareIsLeast(d, p, name);
    ShareIsLeast(d, q, name);
  }

  lemma {:induction false} SameDoubt(d: Nearness, p: seq<Signal>, q: seq<Signal>, s: seq<Signal>)
    requires forall x :: x in p <==> x in q
    ensures Doubt(d, p, s) == Doubt(d, q, s)
    decreases |s|
  {
    if s != [] {
      SameShare(d, p, q, s[0].name);
      SameDoubt(d, p + [s[0]], q + [s[0]], s[1..]);
    }
  }

  /** Confidences are probabilities and the methods distinct ones of the clustered names. */
  ghost predicate Admissible(d: Nearness, names: set<string>, s: seq<Signal>) {
    Clusters(d, names) && Proper(s) && DistinctNames(s) && Names(s) <= names
  }

  lemma ShareOfNext(d: Nearness, names: set<string>, before: seq<Signal>, s: seq<Signal>)
    requires Admissible(d, names, before + s) && s != []
    ensures 0.0 <= Share(d, before, s[0].name) <= 1.0
    ensures 0.0 <= 1.0 - Times(s[0].conf, Share(d, before, s[0].name)) <= 1.0
    ensures before + s == before + [s[0]] + s[1..]
  {
    var all := before + s;
    assert all[|before|] == s[0];
    assert s[0].name in Names(all);
    assert Names(before) <= Names(all) by {
      forall i | 0 <= i < |before| ensures before[i].name in Names(all) { assert all[i] == before[i]; }
    }
    ShareInUnit(d, names, before, s[0].name);
    TimesMono(s[0].conf, 1.0, Share(d, before, s[0].name), 1.0);
    TimesUnit(1.0);
  }

  lemma {:induction false} DoubtInUnit(d: Nearness, names: set<string>, before: seq<Signal>, s: seq<Signal>)
    requires Admissible(d, names, before + s)
    ensures 0.0 <= Doubt(d, before, s) <= 1.0
    decreases |s|
  {
    if s != [] {
      ShareOfNext(d, names, before, s);
      DoubtInUnit(d, names, before + [s[0]], s[1..]);
      TimesMono(1.0 - Times(s[0].conf, Share(d, before, s[0].name)), 1.0, Doubt(d, before + [s[0]], s[1..]), 1.0);
      TimesUnit(1.0);
    }
  }

  /** Two methods that keep different shares beforehand keep these in either order, because they are not near. */
  lemma DifferentSharesStay(d: Nearness, names: set<string>, before: seq<Signal>, u: string, v: string)
    requires Clusters(d, names) && Names(before) <= names && u in names && v in names && u != v
    requires u !in Names(before) && v !in Names(before) && Share(d, before, u) < Share(d, before, v)
    ensures d(u, v) >= Share(d, before, v)
  {
    ShareIsLeast(d, before, u);
    ShareIsLeast(d, before, v);
    var p :| p in before && Share(d, before, u) == d(p.name, u);
    assert p.name in Names(before);
    assert TopTwice(d(p.name, u), d(p.name, v), d(u, v));
  }

  lemma SwapNumbers(x: real, y: real, a: real, b: real, e: real)
    requires 0.0 <= x <= y && 0.0 <= a && 0.0 <= b && (a < b ==> e >= b) && (b < a ==> e >= a)
    ensures Times(1.0 - Times(y, b), 1.0 - Times(x, Min(a, e))) <= Times(1.0 - Times(x, a), 1.0 - Times(y, Min(b, e)))
  {
    if a == b && e < a {
      var (gap, xy) := (a - e, x * y);
      assert Times(1.0 - Times(y, a), 1.0 - Times(x, e)) == 1.0 - y * a - x * e + (y * a) * (x * e);
      assert Times(1.0 - Times(x, a), 1.0 - Times(y, e)) == 1.0 - x * a - y * e + (x * a) * (y * e);
      assert (y * a) * (x * e) == (x * a) * (y * e);
      TimesMono(x, y, gap, gap);
      assert Times(x, gap) == x * a - x * e && Times(y, gap) == y * a - y * e;
    } else {
      TimesCommutes(1.0 - Times(y, b), 1.0 - Times(x, a));
    }
  }

  lemma DoubtOfNext(d: Nearness, before: seq<Signal>, u: Signal, rest: seq<Signal>)
    ensures Doubt(d, before, [u] + rest)
         == Times(1.0 - Times(u.conf, Share(d, before, u.name)), Doubt(d, before + [u], rest))
  {
    assert ([u] + rest)[1..] == rest;
  }

  /** What two signals leave, taken in this order. */
  ghost function PairDoubt(d: Nearness, before: seq<Signal>, u: Signal, v: Signal): real {
    Times(1.0 - Times(u.conf, Share(d, before, u.name)),
          1.0 - Times(v.conf, Min(Share(d, before, v.name), d(u.name, v.name))))
  }

  lemma DoubtOfNextTwo(d: Nearness, before: seq<Signal>, u: Signal, v: Signal, rest: seq<Signal>)
    ensures Doubt(d, before, [u, v] + rest) == Times(PairDoubt(d, before, u, v), Doubt(d, before + [u] + [v], rest))
  {
    assert [u, v] + rest == [u] + ([v] + rest);
    DoubtOfNext(d, before, u, [v] + rest);
    DoubtOfNext(d, before + [u], v, rest);
    ShareAfter(d, before, u, v.name);
    TimesAssociates(1.0 - Times(u.conf, Share(d, before, u.name)), 1.0 - Times(v.conf, Share(d, before + [u], v.name)),
                    Doubt(d, before + [u] + [v], rest));
  }

  lemma TimesAssociates(x: real, y: real, z: real)
    ensures Times(x, Times(y, z)) == Times(Times(x, y), z)
  {
    TimesSwap(x, y, z);
  }

  lemma NamesApart(s: seq<Signal>, before: seq<Signal>, i: nat)
    requires DistinctNames(s) && before <= s && |before| <= i < |s|
    ensures s[i].name !in Names(before) && s[i].name in Names(s) && Names(before) <= Names(s)
  {
    assert forall j :: 0 <= j < |before| ==> before[j] == s[j];
  }

  lemma AdmissibleNext(d: Nearness, names: set<string>, before: seq<Signal>, s: seq<Signal>, i: nat)
    requires Admissible(d, names, before + s) && i < |s|
    ensures 0.0 <= s[i].conf <= 1.0 && s[i].name in names && s[i].name !in Names(before) && Names(before) <= names
    ensures 0.0 <= Share(d, before, s[i].name) <= 1.0
  {
    assert (before + s)[|before| + i] == s[i];
    NamesApart(before + s, before, |before| + i);
    ShareInUnit(d, names, before, s[i].name);
  }

  /** Taking the stronger of two neighbours first leaves no more doubt. */
  lemma StrongerFirst(d: Nearness, names: set<string>, before: seq<Signal>, u: Signal, v: Signal, rest: seq<Signal>)
    requires Admissible(d, names, before + ([u, v] + rest)) && u.conf <= v.conf
    ensures Doubt(d, before, [v, u] + rest) <= Doubt(d, before, [u, v] + rest)
  {
    DoubtOfNextTwo(d, before, u, v, rest);
    DoubtOfNextTwo(d, before, v, u, rest);
    SameDoubt(d, before + [u] + [v], before + [v] + [u], rest);
    RestInUnit(d, names, before, u, v, rest);
    PairSwapped(d, names, before, u, v, rest);
    TimesMonoSigned(PairDoubt(d, before, v, u), PairDoubt(d, before, u, v), Doubt(d, before + [u] + [v], rest));
  }

  lemma PairSwapped(d: Nearness, names: set<string>, before: seq<Signal>, u: Signal, v: Signal, rest: seq<Signal>)
    requires Admissible(d, names, before + ([u, v] + rest)) && u.conf <= v.conf
    ensures PairDoubt(d, before, v, u) <= PairDoubt(d, before, u, v)
  {
    var s := [u, v] + rest;
    AdmissibleNext(d, names, before, s, 0);
    AdmissibleNext(d, names, before, s, 1);
    DistinctNeighbours(before, s);
    SwapShares(d, names, before, u, v);
  }

  lemma DistinctNeighbours(before: seq<Signal>, s: seq<Signal>)
    requires DistinctNames(before + s) && |s| >= 2
    ensures s[0].name != s[1].name
  {
    assert (before + s)[|before|] == s[0] && (before + s)[|before| + 1] == s[1];
  }

  lemma RestInUnit(d: Nearness, names: set<string>, before: seq<Signal>, u: Signal, v: Signal, rest: seq<Signal>)
    requires Admissible(d, names, before + ([u, v] + rest))
    ensures 0.0 <= Doubt(d, before + [u] + [v], rest) <= 1.0
  {
    assert before + ([u, v] + rest) == before + [u] + [v] + rest;
    DoubtInUnit(d, names, before + [u] + [v], rest);
  }

  lemma SwapShares(d: Nearness, names: set<string>, before: seq<Signal>, u: Signal, v: Signal)
    requires Clusters(d, names) && Names(before) <= names && u.name in names && v.name in names && u.name != v.name
    requires u.name !in Names(before) && v.name !in Names(before) && 0.0 <= u.conf <= v.conf
    ensures var (a, b, e) := (Share(d, before, u.name), Share(d, before, v.name), d(u.name, v.name));
      && e == d(v.name, u.name)
      && Times(1.0 - Times(v.conf, b), 1.0 - Times(u.conf, Min(a, e)))
         <= Times(1.0 - Times(u.conf, a), 1.0 - Times(v.conf, Min(b, e)))
  {
    var (a, b) := (Share(d, before, u.name), Share(d, before, v.name));
    ShareInUnit(d, names, before, u.name);
    ShareInUnit(d, names, before, v.name);
    if a < b {
      DifferentSharesStay(d, names, before, u.name, v.name);
    } else if b < a {
      DifferentSharesStay(d, names, before, v.name, u.name);
    }
    SwapNumbers(u.conf, v.conf, a, b, d(u.name, v.name));
  }

  lemma TimesMonoSigned(x: real, x': real, y: real)
    requires x <= x' && 0.0 <= y
    ensures Times(x, y) <= Times(x', y)
  {
    TimesMono(0.0, x' - x, y, y);
    TimesSplit(x' - x, x, y);
  }

  // ---------------------------------------------------------------------------------------------
  // The best order

  lemma PrefixKept(d: Nearness, before: seq<Signal>, y: Signal, s: seq<Signal>, t: seq<Signal>)
    requires 0.0 <= 1.0 - Times(y.conf, Share(d, before, y.name))
    requires Doubt(d, before + [y], s) <= Doubt(d, before + [y], t)
    ensures Doubt(d, before, [y] + s) <= Doubt(d, before, [y] + t)
  {
    DoubtOfNext(d, before, y, s);
    DoubtOfNext(d, before, y, t);
    var p := 1.0 - Times(y.conf, Share(d, before, y.name));
    TimesMonoSigned(Doubt(d, before + [y], s), Doubt(d, before + [y], t), p);
    TimesCommutes(p, Doubt(d, before + [y], s));
    TimesCommutes(p, Doubt(d, before + [y], t));
  }

  lemma PermutedAdmissible(d: Nearness, names: set<string>, s: seq<Signal>, t: seq<Signal>)
    requires Admissible(d, names, s) && multiset(s) == multiset(t)
    ensures Admissible(d, names, t)
  {
    PermutedMembers(s, t);
    assert Proper(t) by { forall i | 0 <= i < |t| ensures 0.0 <= t[i].conf <= 1.0 { assert t[i] in s; } }
    assert Names(t) <= names by { forall i | 0 <= i < |t| ensures t[i].name in names { assert t[i] in s; } }
    forall i, j | 0 <= i < j < |t| ensures t[i].name != t[j].name {
      assert t[i] in s && t[j] in s;
      if t[i] == t[j] {
        OccursTwice(t, i, j);
        var p, q := OccursAgain(s, t[i]);
      }
    }
  }

  /** Bringing a strongest signal to the front leaves no more doubt. */
  lemma {:induction false} StrongestToFront(d: Nearness, names: set<string>, before: seq<Signal>, ys: seq<Signal>,
                                            z: Signal, rest: seq<Signal>)
    requires Admissible(d, names, before + (ys + [z] + rest)) && forall y :: y in ys ==> y.conf <= z.conf
    ensures Doubt(d, before, [z] + (ys + rest)) <= Doubt(d, before, ys + [z] + rest)
    decreases |ys|
  {
    if ys == [] {
      assert [z] + ([] + rest) == [] + [z] + rest;
    } else {
      var (y, more) := (ys[0], ys[1..]);
      var s := ys + [z] + rest;
      assert s == [y] + (more + [z] + rest);
      assert before + s == before + [y] + (more + [z] + rest);
      StrongestToFront(d, names, before + [y], more, z, rest);
      ShareOfNext(d, names, before, s);
      PrefixKept(d, before, y, [z] + (more + rest), more + [z] + rest);
      LastStepToFront(d, names, before, ys, z, rest);
    }
  }

  lemma LastStepToFront(d: Nearness, names: set<string>, before: seq<Signal>, ys: seq<Signal>, z: Signal,
                        rest: seq<Signal>)
    requires Admissible(d, names, before + (ys + [z] + rest)) && ys != [] && ys[0].conf <= z.conf
    ensures Doubt(d, before, [z] + (ys + rest)) <= Doubt(d, before, [ys[0]] + ([z] + (ys[1..] + rest)))
  {
    var (y, more) := (ys[0], ys[1..]);
    assert [y] + ([z] + (more + rest)) == [y, z] + (more + rest);
    assert [z] + (ys + rest) == [z, y] + (more + rest);
    FrontPermutes(before, ys, z, rest);
    PermutedAdmissible(d, names, before + (ys + [z] + rest), before + ([y, z] + (more + rest)));
    StrongerFirst(d, names, before, y, z, more + rest);
  }

  lemma FrontPermutes(before: seq<Signal>, ys: seq<Signal>, z: Signal, rest: seq<Signal>)
    requires ys != []
    ensures multiset(before + (ys + [z] + rest)) == multiset(before + ([ys[0], z] + (ys[1..] + rest)))
  {
    assert ys == [ys[0]] + ys[1..];
  }

  /** No order of the signals leaves less doubt than from strongest to weakest. */
  lemma {:induction false} DescendingIsBest(d: Nearness, names: set<string>, before: seq<Signal>, s: seq<Signal>,
                                            t: seq<Signal>)
    requires Admissible(d, names, before + s) && Descending(t) && multiset(s) == multiset(t)
    ensures Doubt(d, before, t) <= Doubt(d, before, s)
    decreases |t|
  {
    PermutedMembers(s, t);
    if t != [] {
      var z := t[0];
      assert z in s;
      var p :| 0 <= p < |s| && s[p] == z;
      var (ys, rest) := (s[..p], s[p + 1..]);
      assert s == ys + [z] + rest;
      assert forall y :: y in ys ==> y.conf <= z.conf by {
        forall y | y in ys ensures y.conf <= z.conf { assert y in s && y in t; }
      }
      StrongestToFront(d, names, before, ys, z, rest);
      RestPermutes(before, s, t, p);
      PermutedAdmissible(d, names, before + s, before + [z] + (ys + rest));
      DescendingIsBest(d, names, before + [z], ys + rest, t[1..]);
      assert t == [z] + t[1..];
      ShareOfFirst(d, names, before, z, ys + rest);
      PrefixKept(d, before, z, t[1..], ys + rest);
    }
  }

  lemma RestPermutes(before: seq<Signal>, s: seq<Signal>, t: seq<Signal>, p: nat)
    requires multiset(s) == multiset(t) && t != [] && p < |s| && s[p] == t[0]
    ensures multiset(s[..p] + s[p + 1..]) == multiset(t[1..])
    ensures multiset(before + s) == multiset(before + [t[0]] + (s[..p] + s[p + 1..]))
  {
    SameRest(t, s, p);
    assert t[..0] + t[1..] == t[1..];
    assert s == s[..p] + [s[p]] + s[p + 1..];
  }

  lemma ShareOfFirst(d: Nearness, names: set<string>, before: seq<Signal>, z: Signal, rest: seq<Signal>)
    requires Admissible(d, names, before + [z] + rest)
    ensures 0.0 <= 1.0 - Times(z.conf, Share(d, before, z.name))
  {
    assert before + [z] + rest == before + ([z] + rest);
    ShareOfNext(d, names, before, [z] + rest);
  }
}
