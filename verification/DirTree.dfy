/** The kernel's side: the directory trees, the inotify watch table, and what
    it means for the cache to agree with them. */
module DirTree {
  import opened Options
  import opened Paths
  import opened WatchSlots
  import opened DirEvents

  /** dirs: every directory of the monitored trees with its inode.
      watches: the watch table of the current inotify instance. Descriptors are
      handed out in increasing order. */
  datatype Kernel = Kernel(dirs: map<Loc, nat>, watches: map<nat, nat>, nextWd: nat)

  function Parent(l: Loc): Loc
    requires |l| > 1
  {
    l[..|l| - 1]
  }

  function Last(l: Loc): string
    requires |l| > 0
  {
    l[|l| - 1]
  }

  ghost predicate WellFormedDirs(roots: set<string>, dirs: map<Loc, nat>) {
    && (forall l | l in dirs :: ValidLoc(roots, l))
    && (forall l {:trigger Parent(l)} | l in dirs && |l| > 1 :: Parent(l) in dirs)
    && (forall l, m | l in dirs && m in dirs && dirs[l] == dirs[m] :: l == m)
  }

  ghost predicate WellFormed(roots: set<string>, k: Kernel) {
    && NonNested(roots)
    && WellFormedDirs(roots, k.dirs)
    && (forall wd | wd in k.watches :: wd < k.nextWd)
    && (forall v, w | v in k.watches && w in k.watches && k.watches[v] == k.watches[w] :: v == w)
  }

  /** Descriptor wd watches the directory now at l. */
  ghost predicate Watches(k: Kernel, wd: nat, l: Loc) {
    wd in k.watches && l in k.dirs && k.watches[wd] == k.dirs[l]
  }

  ghost predicate IsWatched(k: Kernel, l: Loc) {
    exists wd: nat :: Watches(k, wd, l)
  }

  ghost predicate IsPlaced(k: Kernel, wd: nat) {
    exists l :: Watches(k, wd, l)
  }

  ghost function WdOf(k: Kernel, l: Loc): (wd: nat)
    requires IsWatched(k, l)
    ensures Watches(k, wd, l)
  {
    var wd: nat :| Watches(k, wd, l);
    wd
  }

  /** The live slots a correct cache has: each watch on a directory of the
      trees, with that directory's present pathname. */
  ghost predicate IsExpected(k: Kernel, w: Watch) {
    && w.wd >= 0
    && exists l | l in k.dirs :: |l| > 0 && Watches(k, w.wd, l) && w.path == Path(l)
  }

  ghost predicate Cached(k: Kernel, s: Slots) {
    && UniqueWds(s)
    && forall w :: w in LiveSet(s) <==> IsExpected(k, w)
  }

  // ---------------------------------------------------------------- roots

  function Zeroes(roots: seq<Option<string>>): nat {
    if roots == [] then 0 else (if roots[0].None? then 1 else 0) + Zeroes(roots[1..])
  }

  /** The root list names exactly the root directories still in place, each
      once, and counts the others. */
  ghost predicate RootsMatch(k: Kernel, d: Daemon) {
    && (forall p :: Some(p) in d.roots <==> [p] in k.dirs)
    && (forall i, j | 0 <= i < j < |d.roots| && d.roots[i].Some? :: d.roots[i] != d.roots[j])
    && d.ignored == Zeroes(d.roots)
  }

  lemma {:induction false} ZeroesUpdate(roots: seq<Option<string>>, j: nat)
    requires j < |roots| && roots[j].Some?
    ensures Zeroes(roots[j := None]) == Zeroes(roots) + 1
  {
    if j > 0 {
      assert roots[j := None][1..] == roots[1..][j - 1 := None];
      ZeroesUpdate(roots[1..], j - 1);
    } else {
      assert roots[0 := None][1..] == roots[1..];
    }
  }

  lemma {:induction false} ZeroesAll(roots: seq<Option<string>>)
    ensures Zeroes(roots) <= |roots|
    ensures Zeroes(roots) == |roots| <==> forall p :: Some(p) !in roots
  {
    if roots != [] {
      ZeroesAll(roots[1..]);
      assert roots == [roots[0]] + roots[1..];
      if roots[0].Some? {
        assert Some(roots[0].value) in roots;
      }
    }
  }

  // ------------------------------------------------------------- agreement

  /** Cache and kernel agree: the live slots are exactly the kernel's watches,
      every watch is on a directory of the trees, every such directory is
      watched, and the root list is right. */
  ghost predicate InSync(roots: set<string>, k: Kernel, d: Daemon) {
    && WellFormed(roots, k)
    && Cached(k, d.slots)
    && (forall l {:trigger IsWatched(k, l)} | l in k.dirs :: IsWatched(k, l))
    && (forall wd {:trigger IsPlaced(k, wd)} | wd in k.watches :: IsPlaced(k, wd))
    && RootsMatch(k, d)
  }

  /** The slot of a watched directory is found and holds its pathname. */
  lemma {:induction false} SlotOf(k: Kernel, d: Daemon, wd: nat, l: Loc)
    requires Cached(k, d.slots) && Watches(k, wd, l) && |l| > 0
    ensures FindWatch(d.slots, wd) >= 0 && PathOf(d, wd) == Path(l)
    ensures d.slots[FindWatch(d.slots, wd)] == Watch(wd, Path(l))
  {
    var w := Watch(wd, Path(l));
    assert IsExpected(k, w);
    var j :| 0 <= j < |d.slots| && d.slots[j] == w;
    FindIsUnique(d.slots, j);
  }

  lemma PathCachedIff(roots: set<string>, k: Kernel, s: Slots, l: Loc)
    requires WellFormed(roots, k) && Cached(k, s) && ValidLoc(roots, l)
    ensures PathInCache(s, Path(l)) <==> l in k.dirs && IsWatched(k, l)
  {
    var j := PathSlot(s, Path(l));
    if j >= 0 {
      assert s[j] in LiveSet(s);
      var m :| m in k.dirs && |m| > 0 && Watches(k, s[j].wd, m) && s[j].path == Path(m);
      PathInjective(roots, l, m);
    }
    if l in k.dirs && IsWatched(k, l) {
      var w := Watch(WdOf(k, l), Path(l));
      assert IsExpected(k, w);
      var i :| 0 <= i < |s| && s[i] == w;
      assert HasPath(s[i], Path(l));
    }
  }

  lemma RootPathIff(roots: set<string>, k: Kernel, d: Daemon, l: Loc)
    requires WellFormed(roots, k) && RootsMatch(k, d) && l in k.dirs
    ensures IsRoot(d, Path(l)) <==> |l| == 1
  {
    if |l| == 1 {
      assert l == [l[0]] && Path(l) == l[0];
    }
    if IsRoot(d, Path(l)) {
      var p := Path(l);
      assert [p] in k.dirs && Path([p]) == p;
      PathInjective(roots, l, [p]);
    }
  }

  /** A watch asks for the directory's own moves exactly if it is on a root. */
  lemma OwnMovesAskedForRoots(roots: set<string>, k: Kernel, d: Daemon, l: Loc)
    requires WellFormed(roots, k) && RootsMatch(k, d) && l in k.dirs
    ensures IN_MOVE_SELF in AskedFor(d, Path(l)) <==> |l| == 1
  {
    RootPathIff(roots, k, d, l);
  }

  // ------------------------------------------------------------- traversal

  /** inotify_add_watch: an inode already watched keeps its descriptor. */
  ghost function AddWatch(k: Kernel, l: Loc): Kernel
    requires l in k.dirs
  {
    if IsWatched(k, l) then k
    else k.(watches := k.watches[k.nextWd := k.dirs[l]], nextWd := k.nextWd + 1)
  }

  ghost function VisitOf(k: Kernel, l: Loc): Visit
    requires l in k.dirs && |l| > 0
  {
    Visit(Path(l), true, Granted(if IsWatched(k, l) then WdOf(k, l) else k.nextWd))
  }

  /** nftw visiting the directories of order, one inotify_add_watch each. */
  ghost function WatchAll(k: Kernel, order: seq<Loc>): Kernel
    requires forall l | l in order :: l in k.dirs
    ensures WatchAll(k, order).dirs == k.dirs
    decreases order
  {
    if order == [] then k else WatchAll(AddWatch(k, order[0]), order[1..])
  }

  ghost function VisitsOf(k: Kernel, order: seq<Loc>): seq<Visit>
    requires forall l | l in order :: l in k.dirs && |l| > 0
    decreases order
  {
    if order == [] then [] else [VisitOf(k, order[0])] + VisitsOf(AddWatch(k, order[0]), order[1..])
  }

  lemma FreshWatchExpected(roots: set<string>, k: Kernel, l: Loc, w: Watch)
    requires WellFormed(roots, k) && l in k.dirs && !IsWatched(k, l)
    ensures IsExpected(AddWatch(k, l), w) <==> IsExpected(k, w) || w == Watch(k.nextWd, Path(l))
  {
    var k' := AddWatch(k, l);
    assert Watches(k', k.nextWd, l);
    if IsExpected(k, w) {
      var m :| m in k.dirs && |m| > 0 && Watches(k, w.wd, m) && w.path == Path(m);
      assert Watches(k', w.wd, m);
    }
    if IsExpected(k', w) {
      var m :| m in k.dirs && |m| > 0 && Watches(k', w.wd, m) && w.path == Path(m);
      assert if w.wd == k.nextWd then m == l else Watches(k, w.wd, m);
    }
  }

  lemma AddWatchWatches(roots: set<string>, k: Kernel, l: Loc)
    requires WellFormed(roots, k) && l in k.dirs
    ensures WellFormed(roots, AddWatch(k, l))
    ensures forall m | m in k.dirs :: IsWatched(AddWatch(k, l), m) <==> IsWatched(k, m) || m == l
  {
    var k' := AddWatch(k, l);
    forall m | m in k.dirs ensures IsWatched(k', m) <==> IsWatched(k, m) || m == l {
      if IsWatched(k, m) {
        assert Watches(k', WdOf(k, m), m);
      }
      if m == l && !IsWatched(k, l) {
        assert Watches(k', k.nextWd, l);
      }
      if IsWatched(k', m) {
        var v := WdOf(k', m);
        assert m == l || Watches(k, v, m);
      }
    }
    if !IsWatched(k, l) {
      forall v | v in k.watches ensures k.watches[v] != k.dirs[l] {
        assert !Watches(k, v, l);
      }
    }
  }

  lemma VisitKeepsCached(roots: set<string>, k: Kernel, s: Slots, l: Loc)
    requires WellFormed(roots, k) && Cached(k, s) && l in k.dirs
    ensures var t := TraverseOne(s, VisitOf(k, l));
      !t.exited && Cached(AddWatch(k, l), t.slots)
  {
    if IsWatched(k, l) {
      SlotOf(k, Daemon(s, [], 0), WdOf(k, l), l);
    } else {
      var j := FindWatch(s, k.nextWd);
      assert j >= 0 ==> s[j] in LiveSet(s) && IsExpected(k, s[j]);
      AddedMeans(s, k.nextWd, Path(l));
      forall w ensures IsExpected(AddWatch(k, l), w) <==> IsExpected(k, w) || w == Watch(k.nextWd, Path(l)) {
        FreshWatchExpected(roots, k, l, w);
      }
    }
  }

  /** A traversal keeps the cache equal to the watch table and adds exactly the
      directories it visits, in whatever order and however often. */
  lemma {:induction false} TraverseKeepsCached(roots: set<string>, k: Kernel, s: Slots, order: seq<Loc>)
    requires WellFormed(roots, k) && Cached(k, s)
    requires forall l | l in order :: l in k.dirs
    ensures var t := Traverse(s, VisitsOf(k, order));
      && !t.exited && Cached(WatchAll(k, order), t.slots) && WellFormed(roots, WatchAll(k, order))
    ensures forall m | m in k.dirs :: IsWatched(WatchAll(k, order), m) <==> IsWatched(k, m) || m in order
    decreases order
  {
    if order != [] {
      var l, rest := order[0], order[1..];
      assert order == [l] + rest;
      VisitKeepsCached(roots, k, s, l);
      AddWatchWatches(roots, k, l);
      var visits := VisitsOf(k, order);
      assert visits[1..] == VisitsOf(AddWatch(k, l), rest);
      TraverseKeepsCached(roots, AddWatch(k, l), TraverseOne(s, VisitOf(k, l)).slots, rest);
    }
  }

  /** Every watch added by a traversal is on a visited directory. */
  lemma {:induction false} TraverseKeepsPlaced(k: Kernel, order: seq<Loc>)
    requires forall l | l in order :: l in k.dirs
    requires forall wd {:trigger IsPlaced(k, wd)} | wd in k.watches :: IsPlaced(k, wd)
    ensures forall wd {:trigger IsPlaced(WatchAll(k, order), wd)} | wd in WatchAll(k, order).watches ::
      IsPlaced(WatchAll(k, order), wd)
    decreases order
  {
    if order != [] {
      var k' := AddWatch(k, order[0]);
      forall wd | wd in k'.watches ensures IsPlaced(k', wd) {
        if wd in k.watches && k'.watches[wd] == k.watches[wd] {
          assert IsPlaced(k, wd);
          var l :| Watches(k, wd, l);
          assert Watches(k', wd, l);
        } else {
          assert Watches(k', wd, order[0]);
        }
      }
      TraverseKeepsPlaced(k', order[1..]);
    }
  }

  /** order lists the directories at or below l. */
  ghost predicate Lists(order: seq<Loc>, dirs: map<Loc, nat>, l: Loc) {
    forall m :: m in order <==> m in dirs && l <= m
  }

  // --------------------------------------------------------------- rebuild

  /** The directories under roots j, j+1, ... in the order nftw meets them. */
  ghost function OrderFrom(orders: nat -> seq<Loc>, roots: seq<Option<string>>, j: nat): seq<Loc>
    requires j <= |roots|
    decreases |roots| - j
  {
    if j == |roots| then []
    else (if roots[j].None? then [] else orders(j)) + OrderFrom(orders, roots, j + 1)
  }

  function VisitsFrom(visits: nat -> seq<Visit>, roots: seq<Option<string>>, j: nat): seq<Visit>
    requires j <= |roots|
    decreases |roots| - j
  {
    if j == |roots| then []
    else (if roots[j].None? then [] else visits(j)) + VisitsFrom(visits, roots, j + 1)
  }

  lemma {:induction false} TraverseAppend(s: Slots, a: seq<Visit>, b: seq<Visit>)
    ensures Traverse(s, a + b)
         == if Traverse(s, a).exited then Traverse(s, a) else Traverse(Traverse(s, a).slots, b)
    decreases a
  {
    if a == [] {
      assert a + b == b;
    } else {
      assert (a + b)[1..] == a[1..] + b;
      TraverseAppend(TraverseOne(s, a[0]).slots, a[1..], b);
    }
  }

  lemma {:induction false} WatchRootsIsTraverse(s: Slots, roots: seq<Option<string>>, visits: nat -> seq<Visit>, j: nat)
    requires j <= |roots|
    ensures WatchRoots(s, roots, visits, j) == Traverse(s, VisitsFrom(visits, roots, j))
    decreases |roots| - j
  {
    if j < |roots| {
      var rest := VisitsFrom(visits, roots, j + 1);
      if roots[j].None? {
        WatchRootsIsTraverse(s, roots, visits, j + 1);
        assert [] + rest == rest;
      } else {
        TraverseAppend(s, visits(j), rest);
        WatchRootsIsTraverse(Traverse(s, visits(j)).slots, roots, visits, j + 1);
      }
    }
  }

  /** m is in the tree of one of the roots j, j+1, ... */
  ghost predicate UnderOneOf(roots: seq<Option<string>>, j: nat, m: Loc) {
    exists i | j <= i < |roots| :: roots[i].Some? && [roots[i].value] <= m
  }

  lemma UnderFirstOrRest(roots: seq<Option<string>>, j: nat, m: Loc)
    requires j < |roots|
    ensures UnderOneOf(roots, j, m) <==> (roots[j].Some? && [roots[j].value] <= m) || UnderOneOf(roots, j + 1, m)
  {
  }

  lemma {:induction false} OrderFromCovers(k: Kernel, roots: seq<Option<string>>, orders: nat -> seq<Loc>, j: nat,
      m: Loc)
    requires j <= |roots|
    requires forall i | j <= i < |roots| && roots[i].Some? :: Lists(orders(i), k.dirs, [roots[i].value])
    ensures m in OrderFrom(orders, roots, j) <==> m in k.dirs && UnderOneOf(roots, j, m)
    decreases |roots| - j
  {
    if j < |roots| {
      UnderFirstOrRest(roots, j, m);
      OrderFromCovers(k, roots, orders, j + 1, m);
      hide UnderOneOf;
    }
  }

  /** On a quiet tree nftw visits, root after root, the directories there are. */
  ghost predicate QuietRebuild(k: Kernel, d: Daemon, orders: nat -> seq<Loc>, visits: nat -> seq<Visit>) {
    && (forall i: nat | i < |d.roots| && d.roots[i].Some? :: Lists(orders(i), k.dirs, [d.roots[i].value]))
    && (forall l | l in OrderFrom(orders, d.roots, 0) :: l in k.dirs && |l| > 0)
    && VisitsFrom(visits, d.roots, 0) == VisitsOf(k, OrderFrom(orders, d.roots, 0))
  }

  lemma {:induction false} UnderItsRoot(roots: set<string>, dirs: map<Loc, nat>, l: Loc)
    requires WellFormedDirs(roots, dirs) && l in dirs
    ensures [l[0]] in dirs && [l[0]] <= l
    decreases |l|
  {
    if |l| > 1 {
      UnderItsRoot(roots, dirs, Parent(l));
    } else {
      assert l == [l[0]];
    }
  }

  /** From any cache contents whatever, a rebuild on a quiet tree ends in
      agreement. The new inotify instance starts without watches. */
  lemma {:induction false} RebuildResyncs(names: set<string>, k: Kernel, d: Daemon, orders: nat -> seq<Loc>,
      visits: nat -> seq<Visit>)
    requires WellFormed(names, k) && k.watches == map[] && RootsMatch(k, d)
    requires QuietRebuild(k, d, orders, visits)
    ensures var o := Rebuild(d, visits);
      && o.Rebuilt?
      && InSync(names, WatchAll(k, OrderFrom(orders, d.roots, 0)), o.d)
  {
    var order := OrderFrom(orders, d.roots, 0);
    assert Cached(k, []);
    WatchRootsIsTraverse([], d.roots, visits, 0);
    TraverseKeepsCached(names, k, [], order);
    TraverseKeepsPlaced(k, order);
    forall l | l in k.dirs ensures IsWatched(WatchAll(k, order), l) {
      UnderItsRoot(names, k.dirs, l);
      assert Some(l[0]) in d.roots;
      OrderFromCovers(k, d.roots, orders, 0, l);
    }
  }

  /** After an overflow, an event from an unknown watch, or one that cannot be
      followed, the cache agrees with the trees again, whatever it held. */
  lemma {:induction false} RecoveryResyncs(names: set<string>, k: Kernel, d: Daemon, ev: Event, next: Option<Event>,
      firstTry: bool, a: Answers, orders: nat -> seq<Loc>)
    requires Legal(ev) && ReportsOne(ev) && UniqueWds(d.slots) && (next.Some? ==> Legal(next.value))
    requires NeedsRebuild(d, ev, next, firstTry, a)
    requires WellFormed(names, k) && k.watches == map[] && RootsMatch(k, RootsLeft(d, ev))
    requires QuietRebuild(k, RootsLeft(d, ev), orders, a.rebuild)
    ensures var o := Step(d, ev, next, firstTry, a);
      && o.Rebuilt?
      && InSync(names, WatchAll(k, OrderFrom(orders, RootsLeft(d, ev).roots, 0)), o.d)
  {
    hide NeedsRebuild, Step, QuietRebuild, RootsMatch, InSync, Rebuild, RootsLeft;
    RebuildsIffNeeded(d, ev, next, firstTry, a);
    RebuildResyncs(names, k, RootsLeft(d, ev), orders, a.rebuild);
  }
}
