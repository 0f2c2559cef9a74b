/** Pathname strings and the directory locations they spell.

    The cache stores pathnames as flat strings and compares them with a prefix
    test that must stop on a component boundary. A location is the same thing
    with its structure kept: the command-line root path, then one name per
    level. The main lemma says that the string test decides the tree relation. */
module Paths {
  /** A root path followed by the names on the way down. */
  type Loc = seq<string>

  /** The boundary test of rewriteCachedPaths and zapSubtree. */
  predicate Below(dir: string, p: string) {
    dir <= p && (|p| == |dir| || p[|dir|] == '/')
  }

  /** A pathname after the directory oldDir has become newDir. */
  function Moved(p: string, oldDir: string, newDir: string): string {
    if Below(oldDir, p) then newDir + p[|oldDir|..] else p
  }

  function Tail(names: seq<string>): string {
    if names == [] then "" else "/" + names[0] + Tail(names[1..])
  }

  function Path(l: Loc): string
    requires |l| > 0
  {
    l[0] + Tail(l[1..])
  }

  /** No root path lies inside another. */
  ghost predicate NonNested(roots: set<string>) {
    forall r, s | r in roots && s in roots && Below(r, s) :: r == s
  }

  ghost predicate ValidLoc(roots: set<string>, l: Loc) {
    && |l| > 0
    && l[0] in roots
    && Names(l[1..])
  }

  ghost predicate Names(names: seq<string>) {
    forall i | 0 <= i < |names| :: '/' !in names[i]
  }

  lemma {:induction false} TailAppend(a: seq<string>, b: seq<string>)
    ensures Tail(a + b) == Tail(a) + Tail(b)
  {
    if a == [] {
      assert a + b == b;
    } else {
      assert (a + b)[1..] == a[1..] + b;
      TailAppend(a[1..], b);
    }
  }

  lemma {:induction false} PathAppend(l: Loc, s: seq<string>)
    requires |l| > 0
    ensures Path(l + s) == Path(l) + Tail(s)
  {
    assert (l + s)[1..] == l[1..] + s;
    TailAppend(l[1..], s);
  }

  /** The "%s/%s" formatting of a directory path and an entry name. */
  lemma PathSnoc(l: Loc, name: string)
    requires |l| > 0
    ensures Path(l + [name]) == Path(l) + "/" + name
  {
    PathAppend(l, [name]);
    assert Tail([name]) == "/" + name + Tail([name][1..]);
  }

  lemma {:induction false} TailStartsWithSlash(names: seq<string>)
    ensures names == [] ==> Tail(names) == ""
    ensures names != [] ==> |Tail(names)| > 0 && Tail(names)[0] == '/'
  {
  }

  lemma BelowShift(base: string, a: string, b: string)
    ensures Below(base + a, base + b) <==> Below(a, b)
  {
    var left, right := base + a, base + b;
    assert forall i | 0 <= i < |a| :: left[|base| + i] == a[i];
    assert forall i | 0 <= i < |b| :: right[|base| + i] == b[i];
    if a <= b {
      assert right == left + b[|a|..];
    }
    if left <= right {
      assert right[|base|..][..|a|] == left[|base|..] == a;
    }
  }

  /** Two different names are told apart by the boundary test. */
  lemma DifferentNames(p: string, x: string, q: string, y: string)
    requires '/' !in p && '/' !in q && p != q
    requires (x != "" ==> x[0] == '/') && (y != "" ==> y[0] == '/')
    ensures !Below(p + x, q + y)
  {
    var left, right := p + x, q + y;
    assert |p| < |q| ==> right[|p|] == q[|p|] && q[|p|] in q;
    assert |q| < |p| ==> left[|q|] == p[|q|] && p[|q|] in p;
    assert |p| < |left| ==> left[|p|] == '/';
    assert |q| < |right| ==> right[|q|] == '/';
    if |p| == |q| {
      var i :| 0 <= i < |p| && p[i] != q[i];
      assert left[i] != right[i];
    }
  }

  lemma {:induction false} HeadFirst(base: string, ps: seq<string>)
    requires ps != []
    ensures base + Tail(ps) == (base + "/") + (ps[0] + Tail(ps[1..]))
    ensures base + Tail(ps) == (base + "/" + ps[0]) + Tail(ps[1..])
  {
    var head, tail := ps[0], Tail(ps[1..]);
    var slash := "/";
    assert Tail(ps) == slash + head + tail;
    hide *;
    Associative(slash, head, tail);
    Associative(base, slash, head + tail);
    Associative(base + slash, head, tail);
  }

  lemma Associative(a: string, b: string, c: string)
    ensures (a + b) + c == a + (b + c)
  {
  }

  lemma {:induction false} DifferentHeads(base: string, ps: seq<string>, qs: seq<string>)
    requires ps != [] && qs != [] && '/' !in ps[0] && '/' !in qs[0] && ps[0] != qs[0]
    ensures !Below(base + Tail(ps), base + Tail(qs))
  {
    hide Tail, Below;
    TailStartsWithSlash(ps[1..]);
    TailStartsWithSlash(qs[1..]);
    HeadFirst(base, ps);
    HeadFirst(base, qs);
    BelowShift(base + "/", ps[0] + Tail(ps[1..]), qs[0] + Tail(qs[1..]));
    DifferentNames(ps[0], Tail(ps[1..]), qs[0], Tail(qs[1..]));
  }

  lemma {:induction false} BelowTail(base: string, ps: seq<string>, qs: seq<string>)
    requires Names(ps) && Names(qs)
    ensures Below(base + Tail(ps), base + Tail(qs)) <==> ps <= qs
    decreases ps
  {
    TailStartsWithSlash(ps);
    TailStartsWithSlash(qs);
    if ps == [] {
      assert base + Tail(ps) == base;
    } else if qs == [] {
    } else if ps[0] != qs[0] {
      DifferentHeads(base, ps, qs);
    } else {
      var deeper := base + "/" + ps[0];
      HeadFirst(base, ps);
      HeadFirst(base, qs);
      BelowTail(deeper, ps[1..], qs[1..]);
      assert ps == [ps[0]] + ps[1..] && qs == [qs[0]] + qs[1..];
    }
  }

  lemma {:induction false} Disagreement(r: string, s: string) returns (i: nat)
    requires !(r <= s) && !(s <= r)
    ensures i < |r| && i < |s| && r[i] != s[i]
  {
    if r[0] != s[0] {
      i := 0;
    } else {
      i := Disagreement(r[1..], s[1..]);
      i := i + 1;
    }
  }

  lemma {:induction false} DifferentRoots(r: string, ps: seq<string>, s: string, qs: seq<string>)
    requires !Below(r, s) && !Below(s, r)
    ensures !Below(r + Tail(ps), s + Tail(qs))
  {
    TailStartsWithSlash(ps);
    TailStartsWithSlash(qs);
    var left, right := r + Tail(ps), s + Tail(qs);
    assert |r| < |s| ==> right[|r|] == s[|r|];
    assert |s| < |r| ==> left[|s|] == r[|s|];
    assert |r| < |left| ==> left[|r|] == '/';
    assert |s| < |right| ==> right[|s|] == '/';
    if !(r <= s) && !(s <= r) {
      var i := Disagreement(r, s);
      assert left[i] != right[i];
    }
  }

  /** The string test decides the tree relation. */
  lemma BelowIffPrefix(roots: set<string>, p: Loc, q: Loc)
    requires NonNested(roots) && ValidLoc(roots, p) && ValidLoc(roots, q)
    ensures Below(Path(p), Path(q)) <==> p <= q
  {
    if p[0] == q[0] {
      BelowTail(p[0], p[1..], q[1..]);
      assert p == [p[0]] + p[1..] && q == [q[0]] + q[1..];
    } else {
      assert !Below(p[0], q[0]) && !Below(q[0], p[0]);
      DifferentRoots(p[0], p[1..], q[0], q[1..]);
    }
  }

  lemma PathInjective(roots: set<string>, p: Loc, q: Loc)
    requires NonNested(roots) && ValidLoc(roots, p) && ValidLoc(roots, q)
    requires Path(p) == Path(q)
    ensures p == q
  {
    BelowIffPrefix(roots, p, q);
    BelowIffPrefix(roots, q, p);
  }

  /** Moving directory p to q in the tree rewrites exactly the pathnames that
      the string test selects, and rewrites them to the new pathnames. */
  function Relocated(l: Loc, p: Loc, q: Loc): Loc {
    if p <= l then q + l[|p|..] else l
  }

  lemma MovedTail(dir: string, tail: string, newDir: string)
    requires Below(dir, dir + tail)
    ensures Moved(dir + tail, dir, newDir) == newDir + tail
  {
  }

  lemma RelocatedValid(roots: set<string>, l: Loc, p: Loc, q: Loc)
    requires ValidLoc(roots, p) && ValidLoc(roots, q) && ValidLoc(roots, l)
    ensures ValidLoc(roots, Relocated(l, p, q))
  {
    if p <= l {
      var s := l[|p|..];
      assert (q + s)[1..] == q[1..] + s;
      assert s == l[1..][|p| - 1..];
    }
  }

  lemma MovedMatchesRelocated(roots: set<string>, l: Loc, p: Loc, q: Loc)
    requires NonNested(roots) && ValidLoc(roots, p) && ValidLoc(roots, q) && ValidLoc(roots, l)
    ensures ValidLoc(roots, Relocated(l, p, q))
    ensures Moved(Path(l), Path(p), Path(q)) == Path(Relocated(l, p, q))
  {
    RelocatedValid(roots, l, p, q);
    BelowIffPrefix(roots, p, l);
    hide Tail, Path, ValidLoc;
    if p <= l {
      var s := l[|p|..];
      assert l == p + s;
      PathAppend(p, s);
      PathAppend(q, s);
      MovedTail(Path(p), Tail(s), Path(q));
    }
  }
}
