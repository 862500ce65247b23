/** Composite keys: three parts joined by colons, as used to deduplicate events and to file benchmark metrics. */
module Keys {

  function Join(a: string, b: string, c: string): string { a + ":" + b + ":" + c }

  lemma FirstColon(a: string, rest: string, a': string, rest': string)
    requires a + ":" + rest == a' + ":" + rest' && ':' !in a && ':' !in a'
    ensures a == a' && rest == rest'
  {
    var (s, t) := (a + ":" + rest, a' + ":" + rest');
    assert s[|a|] == ':' && t[|a'|] == ':';
    assert forall k :: 0 <= k < |a| ==> s[k] == a[k] != ':';
    assert forall k :: 0 <= k < |a'| ==> t[k] == a'[k] != ':';
    assert |a| == |a'|;
    assert s[..|a|] == a && t[..|a'|] == a';
    assert s[|a| + 1..] == rest && t[|a'| + 1..] == rest';
  }

  /** Among first and second parts without a colon, equal keys have equal parts. */
  lemma JoinInjective(a: string, b: string, c: string, a': string, b': string, c': string)
    requires ':' !in a && ':' !in a' && ':' !in b && ':' !in b'
    ensures Join(a, b, c) == Join(a', b', c') <==> a == a' && b == b' && c == c'
  {
    if Join(a, b, c) == Join(a', b', c') {
      assert Join(a, b, c) == a + ":" + (b + ":" + c);
      assert Join(a', b', c') == a' + ":" + (b' + ":" + c');
      FirstColon(a, b + ":" + c, a', b' + ":" + c');
      FirstColon(b, c, b', c');
    }
  }

  function Colons(s: string): nat {
    if s == [] then 0 else (if s[0] == ':' then 1 else 0) + Colons(s[1..])
  }

  lemma {:induction false} ColonsConcat(s: string, t: string)
    ensures Colons(s + t) == Colons(s) + Colons(t)
  {
    if s == [] {
      assert s + t == t;
    } else {
      assert (s + t)[1..] == s[1..] + t;
      ColonsConcat(s[1..], t);
    }
  }

  lemma {:induction false} ColonFree(s: string)
    ensures Colons(s) == 0 <==> ':' !in s
  {
    if s != [] {
      assert s == [s[0]] + s[1..];
      ColonFree(s[1..]);
    }
  }

  lemma ColonsOfJoin(a: string, b: string, c: string)
    ensures Colons(Join(a, b, c)) == Colons(a) + Colons(b) + Colons(c) + 2
  {
    ColonsConcat(a, ":");
    ColonsConcat(a + ":", b);
    ColonsConcat(a + ":" + b, ":");
    ColonsConcat(a + ":" + b + ":", c);
    assert Colons(":") == 1;
  }

  /** A key of three colon-free parts can be read in one way only. */
  lemma JoinUnique(a: string, b: string, c: string, a': string, b': string, c': string)
    requires ':' !in a && ':' !in b && ':' !in c && Join(a', b', c') == Join(a, b, c)
    ensures a' == a && b' == b && c' == c
  {
    ColonsOfJoin(a, b, c);
    ColonsOfJoin(a', b', c');
    ColonFree(a);
    ColonFree(b);
    ColonFree(c);
    ColonFree(a');
    ColonFree(b');
    JoinInjective(a, b, c, a', b', c');
  }

  /** Taking a string apart at its first colon. */
  lemma {:induction false} SplitFirst(s: string) returns (head: string, rest: string)
    requires ':' in s
    ensures s == head + ":" + rest && ':' !in head
  {
    if s[0] == ':' {
      head, rest := "", s[1..];
    } else {
      head, rest := SplitFirst(s[1..]);
      head := [s[0]] + head;
    }
  }

  /** The reading whose first two parts contain no colon; every key has one. */
  lemma PlainReading(a: string, b: string, c: string) returns (a': string, b': string, c': string)
    ensures ':' !in a' && ':' !in b' && Join(a', b', c') == Join(a, b, c)
  {
    var key := Join(a, b, c);
    assert key[|a|] == ':';
    var rest;
    a', rest := SplitFirst(key);
    ColonsOfJoin(a, b, c);
    ColonsConcat(a' + ":", rest);
    ColonsConcat(a', ":");
    ColonFree(a');
    ColonFree(rest);
    assert Colons(":") == 1;
    b', c' := SplitFirst(rest);
    assert Join(a', b', c') == a' + ":" + (b' + ":" + c');
  }

  /** Some other parts make the same key. */
  ghost predicate Shared(a: string, b: string, c: string) {
    exists a', b', c' :: (a', b', c') != (a, b, c) && Join(a', b', c') == Join(a, b, c)
  }

  /** Some other parts, with a colon in the third at most, make the same key. */
  ghost predicate SharedPlainly(a: string, b: string, c: string) {
    exists a', b', c' :: ':' !in a' && ':' !in b' && (a', b', c') != (a, b, c) && Join(a', b', c') == Join(a, b, c)
  }

  /** A key identifies its parts exactly when none of them contains a colon. */
  lemma SharedIff(a: string, b: string, c: string)
    ensures Shared(a, b, c) <==> ':' in a || ':' in b || ':' in c
    ensures SharedPlainly(a, b, c) <==> ':' in a || ':' in b
  {
    if ':' in a || ':' in b {
      var a', b', c' := PlainReading(a, b, c);
      assert (a', b', c') != (a, b, c);
    } else if ':' in c {
      var head, rest := SplitFirst(c);
      assert Join(a, b + ":" + head, rest) == Join(a, b, c);
      assert |b + ":" + head| > |b|;
    }
    if Shared(a, b, c) && ':' !in a && ':' !in b && ':' !in c {
      var a', b', c' :| (a', b', c') != (a, b, c) && Join(a', b', c') == Join(a, b, c);
      JoinUnique(a, b, c, a', b', c');
    }
    if SharedPlainly(a, b, c) && ':' !in a && ':' !in b {
      var a', b', c' :| ':' !in a' && ':' !in b' && (a', b', c') != (a, b, c) && Join(a', b', c') == Join(a, b, c);
      JoinInjective(a, b, c, a', b', c');
    }
  }

  /** With a colon inside a part, different parts can share a key. */
  lemma JoinCollides()
    ensures Join("a:b", "c", "d") == Join("a", "b:c", "d")
  {
    assert Join("a:b", "c", "d") == "a:b:c:d" == Join("a", "b:c", "d");
  }
}
