/** Shared vocabulary on sequences: cutting to a limit, keeping a bounded tail, distinctness. */
module Sequences {

  ghost predicate Distinct<T>(s: seq<T>) {
    forall i, j :: 0 <= i < j < |s| ==> s[i] != s[j]
  }

  /** The first `limit` elements; nothing at all when the limit is not positive. */
  function Cut<T>(s: seq<T>, limit: int): (r: seq<T>)
    ensures r <= s
  {
    if |s| <= limit then s else if limit <= 0 then [] else s[..limit]
  }

  /** Cutting early and again later loses nothing that a single final cut would keep. */
  lemma CutAbsorbs<T>(a: seq<T>, b: seq<T>, limit: int)
    ensures Cut(Cut(a, limit) + b, limit) == Cut(a + b, limit)
  {
    if limit > 0 && |a| > limit {
      assert (a[..limit] + b)[..limit] == a[..limit] == (a + b)[..limit];
    }
  }

  /** The last `n` elements, or all of them when there are fewer. */
  function LastN<T>(s: seq<T>, n: nat): (r: seq<T>)
    ensures |r| == if |s| <= n then |s| else n
  {
    if |s| <= n then s else s[|s| - n..]
  }

  lemma LastNAt<T>(s: seq<T>, n: nat, i: nat)
    requires i < |LastN(s, n)|
    ensures LastN(s, n)[i] == s[|s| - |LastN(s, n)| + i]
  {
  }

  /** A bounded queue: appending and dropping the head on overflow keeps the last `n`. */
  lemma LastNAppend<T>(s: seq<T>, x: T, n: nat)
    ensures var t := LastN(s, n) + [x];
            LastN(s + [x], n) == if |t| > n then t[1..] else t
  {
    if |s| >= n {
      assert (s + [x])[|s| + 1 - n..] == (LastN(s, n) + [x])[1..];
    }
  }

  ghost function Members<T>(s: seq<T>): set<T> {
    set x | x in s
  }

  /** No element occurs twice, read from the front. */
  ghost predicate Unique<T>(s: seq<T>) {
    s != [] ==> s[0] !in s[1..] && Unique(s[1..])
  }

  lemma {:induction false} UniqueDistinct<T>(s: seq<T>)
    requires Unique(s)
    ensures Distinct(s)
  {
    if s != [] {
      UniqueDistinct(s[1..]);
      forall i, j | 0 <= i < j < |s| ensures s[i] != s[j] {
        assert s[j] == s[1..][j - 1];
        if i > 0 { assert s[i] == s[1..][i - 1]; }
      }
    }
  }

  lemma {:induction false} DistinctUnique<T>(s: seq<T>)
    requires Distinct(s)
    ensures Unique(s)
  {
    if s != [] { DistinctUnique(s[1..]); }
  }

  lemma {:induction false} UniqueAppend<T>(s: seq<T>, x: T)
    requires Unique(s) && x !in s
    ensures Unique(s + [x]) && Members(s + [x]) == Members(s) + {x}
  {
    if s != [] {
      UniqueAppend(s[1..], x);
      assert (s + [x])[1..] == s[1..] + [x];
    }
  }

  lemma {:induction false} UniqueSuffix<T>(s: seq<T>, t: seq<T>)
    requires Unique(s + t)
    ensures Unique(t)
  {
    if s == [] {
      assert s + t == t;
    } else {
      assert (s + t)[1..] == s[1..] + t;
      UniqueSuffix(s[1..], t);
    }
  }
}
