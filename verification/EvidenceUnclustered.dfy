/** At a diminishing factor of one, any three methods that are not clustered break monotonicity and, when their shares
    are symmetric, order independence. */
module EvidenceUnclustered {
  import opened Reals
  import opened EvidenceModel
  import opened EvidenceOrder
  import opened EvidenceClusters
  import opened EvidenceUndiminished

  lemma DoubtOfThreeTaken(d: Nearness, x: Signal, y: Signal, z: Signal, yc: real, zc: real,
                          xy: real, xz: real, yz: real)
    requires d(x.name, y.name) == xy <= 1.0 && d(x.name, z.name) == xz <= 1.0 && d(y.name, z.name) == yz
    requires x.conf == 0.875 && y.conf == yc && z.conf == zc
    ensures Doubt(d, [], [x, y, z]) == Times(0.125, Times(1.0 - Times(yc, xy), 1.0 - Times(zc, Min(xz, yz))))
  {
    assert [x, y, z] == [x] + [y, z] && [y, z] == [y] + [z] && [z] == [z] + [];
    DoubtOfNext(d, [], x, [y, z]);
    DoubtOfNext(d, [] + [x], y, [z]);
    DoubtOfNext(d, [] + [x] + [y], z, []);
    ShareAfter(d, [], x, y.name);
    ShareAfter(d, [], x, z.name);
    ShareAfter(d, [] + [x], y, z.name);
    TimesUnit(1.0 - Times(zc, Min(xz, yz)));
    TimesUnit(0.875);
  }

  lemma TakenOfThree(x: Signal, y: Signal, z: Signal)
    ensures Taken([x, y, z])
         == if y.conf > z.conf then InsertAfter(x, [y, z]) else InsertAfter(x, [z, y])
  {
    assert [x, y, z][1..] == [y, z] && [y, z][1..] == [z] && [z][1..] == [];
    assert Taken([z]) == [z];
    assert InsertAfter(y, []) == [y];
    assert InsertAfter(y, [z]) == if y.conf > z.conf then [y, z] else [z, y];
  }

  lemma InsertAfterTwo(x: Signal, y: Signal, z: Signal)
    ensures InsertAfter(x, [y, z])
         == if x.conf > y.conf then [x, y, z] else if x.conf > z.conf then [y, x, z] else [y, z, x]
  {
    assert [y, z][1..] == [z] && [z][1..] == [];
    assert InsertAfter(x, []) == [x];
    assert InsertAfter(x, [z]) == if x.conf > z.conf then [x, z] else [z, x];
  }

  lemma RaisedLast(p: real, lo: real, e: real, c: real)
    requires 0.0 <= p <= 1.0 && 0.0 <= lo <= 1.0 && 0.0 <= e && c == 0.5 - e
    ensures Times(1.0 - Times(0.5, p), 1.0 - Times(c, lo)) <= Times(1.0 - 0.5 * p, 1.0 - 0.5 * lo) + e
  {
    assert 1.0 - Times(c, lo) == 1.0 - 0.5 * lo + Times(e, lo);
    TimesMono(e, e, lo, 1.0);
    TimesUnit(e);
    AtMostMore(1.0 - 0.5 * p, 1.0 - 0.5 * lo, Times(e, lo));
  }

  lemma RaisedSecond(r: real, q: real, e: real, c: real)
    requires 0.0 <= r <= 1.0 && 0.0 <= q <= 1.0 && 0.0 <= e && c == 0.5 + e
    ensures Times(1.0 - Times(c, r), 1.0 - Times(0.5, q)) >= Times(1.0 - 0.5 * r, 1.0 - 0.5 * q) - e
  {
    assert 1.0 - Times(c, r) == 1.0 - 0.5 * r - Times(e, r);
    TimesMono(e, e, r, 1.0);
    TimesUnit(e);
    AtLeastLess(1.0 - 0.5 * r, 1.0 - 0.5 * q, Times(e, r));
  }

  lemma NearerPairs(p: real, q: real, r: real)
    requires 0.0 <= q < p <= 1.0 && 0.0 <= r < p
    ensures Times(1.0 - 0.5 * r, 1.0 - 0.5 * q)
         >= Times(1.0 - 0.5 * p, 1.0 - 0.5 * Min(r, q)) + 0.25 * (p - Max(q, r))
  {
    var (lo, hi) := (Min(r, q), Max(q, r));
    TimesCommutes(1.0 - 0.5 * r, 1.0 - 0.5 * q);
    assert Times(1.0 - 0.5 * r, 1.0 - 0.5 * q) == Times(1.0 - 0.5 * hi, 1.0 - 0.5 * lo);
    TimesSplit(0.5 * (p - hi), 1.0 - 0.5 * p, 1.0 - 0.5 * lo);
    TimesMono(0.5 * (p - hi), 0.5 * (p - hi), 0.5, 1.0 - 0.5 * lo);
    assert Times(0.5 * (p - hi), 0.5) == 0.25 * (p - hi);
  }

  /** The third method passes the second, which is less near to the first than it: the result falls. */
  lemma PassingNumbers(p: real, q: real, r: real, e: real, c: real, c': real, lo: real)
    requires 0.0 <= q < p <= 1.0 && 0.0 <= r < p && 0.0 <= e <= 0.0625 * (p - Max(q, r))
    requires c == 0.5 - e && c' == 0.5 + e && lo == Min(r, q)
    ensures Times(0.125, Times(1.0 - Times(0.5, p), 1.0 - Times(c, lo)))
          < Times(0.125, Times(1.0 - Times(c', r), 1.0 - Times(0.5, q)))
  {
    RaisedLast(p, lo, e, c);
    RaisedSecond(r, q, e, c');
    NearerPairs(p, q, r);
    var (x, y) := (Times(1.0 - Times(0.5, p), 1.0 - Times(c, lo)), Times(1.0 - Times(c', r), 1.0 - Times(0.5, q)));
    Apart(x, y, Times(1.0 - 0.5 * p, 1.0 - 0.5 * lo), Times(1.0 - 0.5 * r, 1.0 - 0.5 * q), p - Max(q, r), e);
    EighthMono(x, y);
  }

  lemma Apart(x: real, y: real, x': real, y': real, gap: real, e: real)
    requires x <= x' + e && y >= y' - e && y' >= x' + 0.25 * gap && 0.0 <= e <= 0.0625 * gap && gap > 0.0
    ensures x < y
  {
  }

  lemma EighthMono(x: real, y: real)
    requires x < y
    ensures Times(0.125, x) < Times(0.125, y)
  {
  }

  lemma AtMostMore(x: real, y: real, z: real)
    requires 0.0 <= x <= 1.0 && 0.0 <= z
    ensures Times(x, y + z) <= Times(x, y) + z
  {
    TimesMono(x, 1.0, z, z);
    TimesUnit(z);
    assert Times(x, y + z) == Times(x, y) + Times(x, z);
  }

  lemma AtLeastLess(x: real, y: real, z: real)
    requires 0.0 <= y <= 1.0 && 0.0 <= z
    ensures Times(x - z, y) >= Times(x, y) - z
  {
    TimesMono(z, z, y, 1.0);
    TimesUnit(z);
    assert Times(x - z, y) == Times(x, y) - Times(z, y);
  }

  /** A list of distinct methods that is taken in this order. */
  ghost predicate TakenAs(cfg: Config, d: Nearness, s: seq<Signal>, order: seq<Signal>) {
    DistinctNames(s) && Bounded(s) == s && Agrees(d, s, cfg.correlations) && Taken(s) == order
  }

  /** The order that leaves less doubt combines to more. */
  lemma LessDoubtCombinesMore(cfg: Config, d: Nearness, s: seq<Signal>, t: seq<Signal>, a: seq<Signal>, b: seq<Signal>)
    requires cfg.diminishingFactor == 1.0 && TakenAs(cfg, d, s, a) && TakenAs(cfg, d, t, b)
    requires Doubt(d, [], a) < Doubt(d, [], b)
    ensures Combined(s, cfg) > Combined(t, cfg)
  {
    UndiminishedDoubt(s, cfg, d);
    UndiminishedDoubt(t, cfg, d);
  }

  /** What the methods keep of each other: u of v, u of w, v of w. */
  ghost predicate Shares(d: Nearness, u: string, v: string, w: string, p: real, q: real, r: real) {
    && d(u, v) == d(v, u) == p && d(u, w) == d(w, u) == q && d(v, w) == d(w, v) == r
    && p <= 1.0 && q <= 1.0 && r <= 1.0
  }

  /** The third method, passing the second, which is nearer to it than to the first, leaves more doubt. */
  lemma PassingDoubts(d: Nearness, u: string, v: string, w: string, p: real, q: real, r: real, e: real,
                      c: real, c': real, a: seq<Signal>, b: seq<Signal>)
    requires Shares(d, u, v, w, p, q, r) && c == 0.5 - e && c' == 0.5 + e
    requires 0.0 <= q < p && 0.0 <= r < p && 0.0 <= e <= 0.0625 * (p - Max(q, r))
    requires a == [Signal(v, 0.875), Signal(u, 0.5), Signal(w, c)]
    requires b == [Signal(v, 0.875), Signal(w, c'), Signal(u, 0.5)]
    ensures Doubt(d, [], a) < Doubt(d, [], b)
  {
    var lo := Min(r, q);
    DoubtUnpassed(d, u, v, w, p, q, r, c, lo, a);
    DoubtPassed(d, u, v, w, p, q, r, c', b);
    PassingNumbers(p, q, r, e, c, c', lo);
  }

  lemma DoubtUnpassed(d: Nearness, u: string, v: string, w: string, p: real, q: real, r: real, conf: real, lo: real,
                      a: seq<Signal>)
    requires Shares(d, u, v, w, p, q, r) && a == [Signal(v, 0.875), Signal(u, 0.5), Signal(w, conf)] && lo == Min(r, q)
    ensures Doubt(d, [], a) == Times(0.125, Times(1.0 - Times(0.5, p), 1.0 - Times(conf, lo)))
  {
    DoubtOfThreeTaken(d, a[0], a[1], a[2], 0.5, conf, p, r, q);
  }

  lemma DoubtPassed(d: Nearness, u: string, v: string, w: string, p: real, q: real, r: real, conf: real, b: seq<Signal>)
    requires Shares(d, u, v, w, p, q, r) && q < p && b == [Signal(v, 0.875), Signal(w, conf), Signal(u, 0.5)]
    ensures Doubt(d, [], b) == Times(0.125, Times(1.0 - Times(conf, r), 1.0 - Times(0.5, q)))
  {
    DoubtOfThreeTaken(d, b[0], b[1], b[2], conf, 0.5, r, p, q);
  }

  /** Three methods in one of the orders in which u comes before v. */
  function Mixed<T>(shape: int, u: T, v: T, w: T): (s: seq<T>)
    ensures |s| == 3
  {
    if shape == 0 then [u, v, w] else if shape == 1 then [u, w, v] else [w, u, v]
  }

  /** What the listed methods keep, in the order of the list: u of v, u of w, v of w. */
  ghost predicate KeptShares(m: map<(string, string), real>, shape: int, u: string, v: string, w: string,
                             p: real, q: real, r: real)
  {
    && 0 <= shape < 3 && p == Kept(m, u, v)
    && q == (if shape < 2 then Kept(m, u, w) else Kept(m, w, u))
    && r == (if shape < 1 then Kept(m, v, w) else Kept(m, w, v))
  }

  /** Of three methods that are not clustered, two keep a larger share of each other than either keeps of the third. */
  lemma LargestOnce(m: map<(string, string), real>, a: string, b: string, c: string)
    returns (shape: int, u: string, v: string, w: string, p: real, q: real, r: real)
    requires !TopTwice(Kept(m, a, b), Kept(m, a, c), Kept(m, b, c)) && a != b && a != c && b != c
    ensures KeptShares(m, shape, u, v, w, p, q, r) && u != v && u != w && v != w
    ensures 0.0 <= q < p <= 1.0 && 0.0 <= r < p
  {
    if Kept(m, a, b) > Kept(m, a, c) && Kept(m, a, b) > Kept(m, b, c) {
      shape, u, v, w := 0, a, b, c;
    } else if Kept(m, a, c) > Kept(m, b, c) {
      shape, u, v, w := 1, a, c, b;
    } else {
      shape, u, v, w := 2, b, c, a;
    }
    p := Kept(m, u, v);
    q := if shape < 2 then Kept(m, u, w) else Kept(m, w, u);
    r := if shape < 1 then Kept(m, v, w) else Kept(m, w, v);
  }

  function Listed(shape: int, u: string, v: string, w: string, conf: real): seq<Signal> {
    Mixed(shape, Signal(u, 0.5), Signal(v, 0.875), Signal(w, conf))
  }

  lemma ListedTaken(shape: int, u: string, v: string, w: string, conf: real)
    requires 0.0 <= conf < 0.875 && conf != 0.5
    ensures var (x, y, z, s) := (Signal(u, 0.5), Signal(v, 0.875), Signal(w, conf), Listed(shape, u, v, w, conf));
            Bounded(s) == s && Taken(s) == if conf < 0.5 then [y, x, z] else [y, z, x]
  {
    var (x, y, z, s) := (Signal(u, 0.5), Signal(v, 0.875), Signal(w, conf), Listed(shape, u, v, w, conf));
    TakenOfThree(s[0], s[1], s[2]);
    InsertAfterTwo(s[0], s[1], s[2]);
    InsertAfterTwo(s[0], s[2], s[1]);
    assert s == [s[0], s[1], s[2]];
  }

  lemma ListedAgrees(shape: int, u: string, v: string, w: string, conf: real, d: Nearness,
                     m: map<(string, string), real>, p: real, q: real, r: real)
    requires u != v && u != w && v != w && Shares(d, u, v, w, p, q, r) && KeptShares(m, shape, u, v, w, p, q, r)
    ensures DistinctNames(Listed(shape, u, v, w, conf)) && Agrees(d, Listed(shape, u, v, w, conf), m)
  {
  }

  lemma ListOf(cfg: Config, d: Nearness, shape: int, u: string, v: string, w: string, conf: real,
               p: real, q: real, r: real) returns (s: seq<Signal>)
    requires u != v && u != w && v != w && 0.0 <= conf < 0.875 && conf != 0.5
    requires Shares(d, u, v, w, p, q, r) && KeptShares(cfg.correlations, shape, u, v, w, p, q, r)
    ensures var (x, y, z) := (Signal(u, 0.5), Signal(v, 0.875), Signal(w, conf));
            s == Listed(shape, u, v, w, conf) && TakenAs(cfg, d, s, if conf < 0.5 then [y, x, z] else [y, z, x])
  {
    s := Listed(shape, u, v, w, conf);
    ListedAgrees(shape, u, v, w, conf, d, cfg.correlations, p, q, r);
    ListedTaken(shape, u, v, w, conf);
  }

  lemma ListedGrown(shape: int, u: string, v: string, w: string, conf: real, conf': real)
    requires conf <= conf'
    ensures Grown(Listed(shape, u, v, w, conf), Listed(shape, u, v, w, conf'))
  {
    var (s, i) := (Listed(shape, u, v, w, conf), if shape == 0 then 2 else if shape == 1 then 1 else 0);
    RaiseStrengthens(s, i, conf');
    assert Listed(shape, u, v, w, conf') == s[i := Signal(s[i].name, conf')];
  }

  /** Raising a method past another lowers the result, when a third is nearer to either than they are apart. */
  lemma RaiseAmongUnclustered(cfg: Config, a: string, b: string, c: string) returns (s: seq<Signal>, t: seq<Signal>)
    requires cfg.diminishingFactor == 1.0 && a != b && a != c && b != c
    requires var m := cfg.correlations; !TopTwice(Kept(m, a, b), Kept(m, a, c), Kept(m, b, c))
    ensures DistinctNames(s) && DistinctNames(t) && Grown(s, t) && Combined(s, cfg) > Combined(t, cfg)
  {
    var shape, u, v, w, p, q, r := LargestOnce(cfg.correlations, a, b, c);
    var d := NearnessOf(u, v, w, p, q, r);
    var e := 0.0625 * (p - Max(q, r));
    var (a, b) := ([Signal(v, 0.875), Signal(u, 0.5), Signal(w, 0.5 - e)],
                   [Signal(v, 0.875), Signal(w, 0.5 + e), Signal(u, 0.5)]);
    s, t := RaisedLists(cfg, d, shape, u, v, w, p, q, r, e, a, b);
    PassingDoubts(d, u, v, w, p, q, r, e, 0.5 - e, 0.5 + e, a, b);
    LessDoubtCombinesMore(cfg, d, s, t, a, b);
  }

  lemma RaisedLists(cfg: Config, d: Nearness, shape: int, u: string, v: string, w: string, p: real, q: real, r: real,
                    e: real, a: seq<Signal>, b: seq<Signal>) returns (s: seq<Signal>, t: seq<Signal>)
    requires u != v && u != w && v != w && 0.0 < e < 0.375
    requires Shares(d, u, v, w, p, q, r) && KeptShares(cfg.correlations, shape, u, v, w, p, q, r)
    requires a == [Signal(v, 0.875), Signal(u, 0.5), Signal(w, 0.5 - e)]
    requires b == [Signal(v, 0.875), Signal(w, 0.5 + e), Signal(u, 0.5)]
    ensures TakenAs(cfg, d, s, a) && TakenAs(cfg, d, t, b) && Grown(s, t)
  {
    s := ListOf(cfg, d, shape, u, v, w, 0.5 - e, p, q, r);
    t := ListOf(cfg, d, shape, u, v, w, 0.5 + e, p, q, r);
    ListedGrown(shape, u, v, w, 0.5 - e, 0.5 + e);
  }

  lemma NearnessOf(u: string, v: string, w: string, p: real, q: real, r: real) returns (d: Nearness)
    requires u != v && u != w && v != w && p <= 1.0 && q <= 1.0 && r <= 1.0
    ensures Shares(d, u, v, w, p, q, r)
  {
    d := (x, y) => if x != w && y != w then p else if x != v && y != v then q else r;
  }

  lemma TakenTied(x: Signal, y: Signal, z: Signal)
    requires x.conf == y.conf < z.conf
    ensures Taken([x, y, z]) == [z, y, x]
  {
    TakenOfThree(x, y, z);
    InsertAfterTwo(x, z, y);
  }

  /** Exchanging two equally strong methods changes the result, when a third is nearer to either than they are apart. */
  lemma ExchangeAmongUnclustered(cfg: Config, a: string, b: string, c: string) returns (s: seq<Signal>, t: seq<Signal>)
    requires cfg.diminishingFactor == 1.0 && a != b && a != c && b != c && SameBothWays(cfg.correlations, 1.0)
    requires var m := cfg.correlations; !TopTwice(Kept(m, a, b), Kept(m, a, c), Kept(m, b, c))
    ensures DistinctNames(s) && DistinctNames(t) && multiset(s) == multiset(t) && Combined(s, cfg) != Combined(t, cfg)
  {
    var m := cfg.correlations;
    var shape, u, v, w, p, q, r := LargestOnce(m, a, b, c);
    SymmetricAt(m, u, v);
    SymmetricAt(m, u, w);
    SymmetricAt(m, v, w);
    var d := NearnessOf(u, v, w, p, q, r);
    s, t := TiedLists(cfg, d, u, v, w, p, q, r);
  }

  lemma TiedLists(cfg: Config, d: Nearness, u: string, v: string, w: string, p: real, q: real, r: real)
    returns (s: seq<Signal>, t: seq<Signal>)
    requires cfg.diminishingFactor == 1.0 && u != v && u != w && v != w && Shares(d, u, v, w, p, q, r)
    requires var m := cfg.correlations;
             && p == Kept(m, u, v) == Kept(m, v, u) && q == Kept(m, u, w) == Kept(m, w, u)
             && r == Kept(m, v, w) == Kept(m, w, v)
    requires 0.0 <= q < p && 0.0 <= r < p
    ensures DistinctNames(s) && DistinctNames(t) && multiset(s) == multiset(t) && Combined(s, cfg) != Combined(t, cfg)
  {
    var (x, y, z) := (Signal(u, 0.5), Signal(v, 0.875), Signal(w, 0.5));
    var (o, o') := ([y, x, z], [y, z, x]);
    s := TiedList(cfg, d, z, x, y, o);
    t := TiedList(cfg, d, x, z, y, o');
    PassingDoubts(d, u, v, w, p, q, r, 0.0, 0.5, 0.5, o, o');
    LessDoubtCombinesMore(cfg, d, s, t, o, o');
  }

  lemma TiedList(cfg: Config, d: Nearness, x: Signal, y: Signal, z: Signal, o: seq<Signal>) returns (s: seq<Signal>)
    requires o == [z, y, x]
    requires x.name != y.name && x.name != z.name && y.name != z.name && 0.0 <= x.conf == y.conf < z.conf <= 1.0
    requires var m := cfg.correlations;
             && d(x.name, y.name) == d(y.name, x.name) == Kept(m, x.name, y.name)
             && d(x.name, z.name) == d(z.name, x.name) == Kept(m, x.name, z.name)
             && d(y.name, z.name) == d(z.name, y.name) == Kept(m, y.name, z.name)
    ensures DistinctNames(s) && multiset(s) == multiset{x, y, z} && TakenAs(cfg, d, s, o)
  {
    s := [x, y, z];
    TakenTied(x, y, z);
    assert Bounded(s) == s;
  }

  lemma SymmetricAt(m: map<(string, string), real>, a: string, b: string)
    requires SameBothWays(m, 1.0)
    ensures Kept(m, a, b) == Kept(m, b, a)
  {
    if a != b { assert Alike(1.0, Left(m, a, b), Left(m, b, a)); }
  }
}
