/** The race the program is built around: directories are made and removed by
    other processes while it traverses and while its events wait. The traversal
    goes one nftw visit at a time, and anything may happen between two visits.

    A removed directory that is still held, as the working directory of a process
    or by the stream of a listing, keeps its inode and its watch. IN_DELETE_SELF
    comes when it is released. A directory made meanwhile under the same name is
    announced before that, while the name is still cached.

    nftw may end a traversal early with an error, as when an entry it has found is
    removed before it looks at it. The program carries on.

    Once the queue is empty and no traversal is under way, every directory has
    exactly one cache entry, with its watch and its path, if and only if none was
    overlooked: made under a held name, or still to be met by a traversal that
    ended early, and not visited since. */
module CreationRace {
  import opened Options
  import opened Paths
  import opened WatchSlots
  import opened DirEvents
  import opened DirTree
  import opened QuietOps
  import QuietSteps

  /** A queued event: a subdirectory was made in, or the directory went. */
  datatype Note = Made(wd: nat, name: string) | Deletion(wd: nat)

  /** A directory nftw is listing and the entries it is still bound to meet:
      those there when the watch was set and not removed since. */
  datatype Frame = Frame(at: Loc, todo: set<string>)

  /** pending: roots whose traversal is still to start. held: the watches of
      removed directories that are not released yet, with their former places.
      overlooked: the directories made where a removed one was still held, and those
      a traversal that ended early was still to meet, unless visited since; it
      records the run and decides no step. */
  datatype Sys = Sys(k: Kernel, queue: seq<Note>, slots: Slots, pending: seq<Loc>, stack: seq<Frame>,
                     held: map<nat, Loc>, overlooked: set<Loc>)

  predicate Idle(s: Sys) {
    s.pending == [] && s.stack == []
  }

  function ChildNames(dirs: map<Loc, nat>, at: Loc): set<string> {
    set l | l in dirs && |l| > 1 && Parent(l) == at :: Last(l)
  }

  // -------------------------------------------------------------- the steps

  /** The directory now at a pathname. */
  ghost function PlaceAt(k: Kernel, path: string): (place: Option<Loc>)
    ensures place.Some? ==> place.value in k.dirs && |place.value| > 0 && Path(place.value) == path
    ensures place.None? ==> forall l | l in k.dirs && |l| > 0 :: Path(l) != path
  {
    if l :| l in k.dirs && |l| > 0 && Path(l) == path then Some(l) else None
  }

  /** What the kernel answers when nftw reports a pathname. */
  ghost function VisitAt(k: Kernel, path: string): Visit {
    match PlaceAt(k, path)
    case Some(l) => VisitOf(k, l)
    case None => Visit(path, true, NoEntry)
  }

  /** nftw reports a pathname: inotify_add_watch, a cache entry if the descriptor
      is new, and a listing to come; nothing if the name is gone by then. */
  ghost function VisitPath(s: Sys, path: string): Sys {
    var visited := s.(slots := TraverseOne(s.slots, VisitAt(s.k, path)).slots);
    match PlaceAt(s.k, path)
    case Some(l) =>
      visited.(k := AddWatch(s.k, l),
               stack := s.stack + [Frame(l, ChildNames(s.k.dirs, l))],
               overlooked := s.overlooked - {l})
    case None => visited
  }

  /** close, inotify_init, and all roots to be watched afresh. */
  function Restart(s: Sys, roots: seq<string>): Sys {
    Sys(s.k.(watches := map[], nextWd := 1), [], [], seq(|roots|, i requires 0 <= i < |roots| => [roots[i]]), [],
        map[], {})
  }

  /** The waiting event at the head of the queue is handled. */
  ghost function Handle(s: Sys, roots: seq<string>): Sys
    requires s.queue != []
  {
    var rest := s.(queue := s.queue[1..]);
    var j := FindWatch(s.slots, s.queue[0].wd);
    if j == -1 then Restart(s, roots)
    else match s.queue[0]
      case Made(_, name) =>
        var path := s.slots[j].path + "/" + name;
        if PathInCache(s.slots, path) then rest else VisitPath(rest, path)
      case Deletion(_) => rest.(slots := Emptied(s.slots, j))
  }

  datatype Action =
    | Mkdir(at: Loc, ino: nat)
    | Rmdir(at: Loc)
    | Release(wd: nat)
    | StartRoot
    | Meet(name: string)
    | ListingDone
    | GiveUp
    | HandleEvent
    | Rebuild

  /** Which steps can happen; nftw may also meet entries it is not bound to, and may
      give up at any time. */
  ghost predicate Enabled(names: set<string>, s: Sys, a: Action) {
    match a
    case Mkdir(at, ino) =>
      |at| > 1 && ValidLoc(names, at) && at !in s.k.dirs && Parent(at) in s.k.dirs && ino !in s.k.dirs.Values
    case Rmdir(at) => |at| > 1 && at in s.k.dirs && IsEmptyAt(s.k.dirs, at)
    case Release(wd) => wd in s.held
    case StartRoot => s.stack == [] && s.pending != [] && |s.pending[0]| > 0
    case Meet(name) => s.stack != [] && '/' !in name && |s.stack[|s.stack| - 1].at| > 0
    case ListingDone => s.stack != [] && s.stack[|s.stack| - 1].todo == {}
    case GiveUp => s.stack != []
    case HandleEvent => Idle(s) && s.queue != []
    case Rebuild => Idle(s)
  }

  function Delisted(stack: seq<Frame>, at: Loc): seq<Frame>
    requires |at| > 1
  {
    seq(|stack|, i requires 0 <= i < |stack| =>
      if stack[i].at == Parent(at) then stack[i].(todo := stack[i].todo - {Last(at)}) else stack[i])
  }

  /** An entry the traversal under way is still bound to meet. */
  ghost predicate Listed(s: Sys, l: Loc)
    requires |l| > 1
  {
    exists i :: 0 <= i < |s.stack| && s.stack[i].at == Parent(l) && Last(l) in s.stack[i].todo
  }

  /** What is missed if the traversal ends now. */
  ghost function Abandoned(s: Sys): set<Loc> {
    set l | l in s.k.dirs && |l| > 1 && Listed(s, l) && !IsWatched(s.k, l)
  }

  ghost function Apply(names: set<string>, roots: seq<string>, s: Sys, a: Action): Sys
    requires Enabled(names, s, a)
  {
    match a
    case Mkdir(at, ino) =>
      s.(k := s.k.(dirs := s.k.dirs[at := ino]),
         queue := if IsWatched(s.k, Parent(at)) then s.queue + [Made(WdOf(s.k, Parent(at)), Last(at))] else s.queue,
         overlooked := if at in s.held.Values then s.overlooked + {at} else s.overlooked)
    case Rmdir(at) =>
      s.(k := s.k.(dirs := s.k.dirs - {at},
                   watches := if IsWatched(s.k, at) then s.k.watches - {WdOf(s.k, at)} else s.k.watches),
         held := if IsWatched(s.k, at) then s.held[WdOf(s.k, at) := at] else s.held,
         stack := Delisted(s.stack, at),
         overlooked := s.overlooked - {at})
    case Release(wd) =>
      s.(held := s.held - {wd}, queue := s.queue + [Deletion(wd)])
    case StartRoot => VisitPath(s.(pending := s.pending[1..]), Path(s.pending[0]))
    case Meet(name) =>
      var top := s.stack[|s.stack| - 1];
      VisitPath(s.(stack := s.stack[..|s.stack| - 1] + [top.(todo := top.todo - {name})]), Path(top.at) + "/" + name)
    case ListingDone => s.(stack := s.stack[..|s.stack| - 1])
    case GiveUp => s.(stack := [], overlooked := s.overlooked + Abandoned(s))
    case HandleEvent => Handle(s, roots)
    case Rebuild => Restart(s, roots)
  }

  // ---------------------------------------------------------- the invariant

  /** The deletion of wd waits before position q. */
  ghost predicate DeletionBefore(queue: seq<Note>, wd: int, q: int) {
    exists i :: 0 <= i < q && i < |queue| && queue[i].Deletion? && queue[i].wd == wd
  }

  /** The slot of a removed directory that is still held. */
  ghost predicate HeldSlot(s: Sys, w: Watch) {
    w.wd in s.held && |s.held[w.wd]| > 1 && w.path == Path(s.held[w.wd])
  }

  /** A live slot whose directory is gone; its deletion waits in the queue, or
      the directory is held. */
  ghost predicate Stale(names: set<string>, s: Sys, w: Watch) {
    && w.wd >= 0 && w.wd !in s.k.watches && w.wd < s.k.nextWd
    && (DeletionBefore(s.queue, w.wd, |s.queue|) || HeldSlot(s, w))
    && exists l :: ValidLoc(names, l) && |l| > 1 && w.path == Path(l)
  }

  ghost predicate SlotsRight(names: set<string>, s: Sys) {
    && UniqueWds(s.slots)
    && (forall w | IsExpected(s.k, w) :: w in LiveSet(s.slots))
    && (forall w | w in LiveSet(s.slots) :: IsExpected(s.k, w) || Stale(names, s, w))
    && (forall wd | wd in s.held :: HeldRight(names, s, wd))
  }

  ghost predicate HeldRight(names: set<string>, s: Sys, wd: nat)
    requires wd in s.held
  {
    && wd !in s.k.watches && wd < s.k.nextWd
    && |s.held[wd]| > 1 && ValidLoc(names, s.held[wd])
    && Watch(wd, Path(s.held[wd])) in LiveSet(s.slots)
  }

  ghost predicate Known(s: Sys, wd: nat) {
    exists w :: w in LiveSet(s.slots) && w.wd == wd
  }

  ghost predicate QueueRight(s: Sys) {
    && (forall i | 0 <= i < |s.queue| && s.queue[i].Deletion? ::
          s.queue[i].wd !in s.k.watches && s.queue[i].wd !in s.held && Known(s, s.queue[i].wd))
    && (forall i, j | 0 <= i < j < |s.queue| && s.queue[i].Deletion? :: s.queue[j].wd != s.queue[i].wd)
    && (forall i | 0 <= i < |s.queue| && s.queue[i].Made? ::
          '/' !in s.queue[i].name && Known(s, s.queue[i].wd))
  }

  /** The making of l waits at position q, behind the deletions of all slots
      that still hold its path. */
  ghost predicate AnnouncedAt(s: Sys, l: Loc, q: int)
    requires |l| > 1
  {
    && IsWatched(s.k, Parent(l))
    && 0 <= q < |s.queue| && s.queue[q] == Made(WdOf(s.k, Parent(l)), Last(l))
    && forall w | w in LiveSet(s.slots) && w.path == Path(l) :: DeletionBefore(s.queue, w.wd, q)
  }

  /** Why a directory that is not watched yet will be. */
  ghost predicate Due(s: Sys, l: Loc)
    requires |l| > 0
  {
    if |l| == 1 then l in s.pending
    else l in s.overlooked || !IsWatched(s.k, Parent(l)) || Listed(s, l) || exists q :: AnnouncedAt(s, l, q)
  }

  ghost predicate Covered(s: Sys) {
    forall l {:trigger IsWatched(s.k, l)} | l in s.k.dirs && |l| > 0 :: IsWatched(s.k, l) || Due(s, l)
  }

  ghost predicate Shape(names: set<string>, roots: seq<string>, s: Sys) {
    && WellFormed(names, s.k)
    && (forall r | r in roots :: r in names && [r] in s.k.dirs)
    && (forall l | l in s.k.dirs && |l| == 1 :: l[0] in roots)
    && (forall l | l in s.pending :: |l| == 1 && l in s.k.dirs)
    && (forall wd {:trigger IsPlaced(s.k, wd)} | wd in s.k.watches :: IsPlaced(s.k, wd))
    && (forall i | 0 <= i < |s.stack| :: ValidLoc(names, s.stack[i].at))
    && (forall l | l in s.overlooked :: |l| > 1 && l in s.k.dirs && !IsWatched(s.k, l))
  }

  ghost predicate Inv(names: set<string>, roots: seq<string>, s: Sys) {
    Shape(names, roots, s) && SlotsRight(names, s) && QueueRight(s) && Covered(s)
  }

  // ------------------------------------------------------ setting a watch

  /** Covered, but for directories at one path. */
  ghost predicate CoveredBut(s: Sys, path: string) {
    forall l {:trigger IsWatched(s.k, l)} | l in s.k.dirs && |l| > 0 && Path(l) != path ::
      IsWatched(s.k, l) || Due(s, l)
  }

  lemma LiveBelowNext(names: set<string>, s: Sys, w: Watch)
    requires WellFormed(names, s.k) && SlotsRight(names, s) && w in LiveSet(s.slots)
    ensures 0 <= w.wd < s.k.nextWd
  {
  }

  lemma WatchedIsCached(names: set<string>, s: Sys, l: Loc)
    requires SlotsRight(names, s) && IsWatched(s.k, l) && |l| > 0
    ensures Watch(WdOf(s.k, l), Path(l)) in LiveSet(s.slots)
    ensures FindWatch(s.slots, WdOf(s.k, l)) >= 0
  {
    var w := Watch(WdOf(s.k, l), Path(l));
    assert IsExpected(s.k, w);
    var j :| 0 <= j < |s.slots| && s.slots[j] == w;
  }

  lemma LiveIsInCache(s: Slots, w: Watch)
    requires w in LiveSet(s)
    ensures PathInCache(s, w.path)
  {
    var j :| 0 <= j < |s| && s[j] == w;
    assert HasPath(s[j], w.path);
  }

  ghost function Entered(s: Sys, l: Loc): Sys
    requires l in s.k.dirs && |l| > 0
  {
    s.(k := AddWatch(s.k, l),
       slots := TraverseOne(s.slots, VisitOf(s.k, l)).slots,
       stack := s.stack + [Frame(l, ChildNames(s.k.dirs, l))],
       overlooked := s.overlooked - {l})
  }

  lemma VisitPathIs(names: set<string>, s: Sys, path: string)
    requires WellFormed(names, s.k)
    ensures || VisitPath(s, path) == s
            || exists l :: l in s.k.dirs && |l| > 0 && Path(l) == path && VisitPath(s, path) == Entered(s, l)
    ensures VisitPath(s, path) == s ==> (forall l | l in s.k.dirs && |l| > 0 :: Path(l) != path)
  {
    if PlaceAt(s.k, path).Some? {
      var l := PlaceAt(s.k, path).value;
      assert VisitPath(s, path) == Entered(s, l);
      assert |Entered(s, l).stack| == |s.stack| + 1;
    }
  }

  lemma EnteredSlots(names: set<string>, s: Sys, l: Loc)
    requires WellFormed(names, s.k) && SlotsRight(names, s) && l in s.k.dirs
    ensures UniqueWds(Entered(s, l).slots)
    ensures LiveSet(Entered(s, l).slots)
         == LiveSet(s.slots) + if IsWatched(s.k, l) then {} else {Watch(s.k.nextWd, Path(l))}
  {
    if IsWatched(s.k, l) {
      WatchedIsCached(names, s, l);
    } else {
      var j := FindWatch(s.slots, s.k.nextWd);
      if j >= 0 {
        LiveBelowNext(names, s, s.slots[j]);
      }
      AddedMeans(s.slots, s.k.nextWd, Path(l));
    }
  }

  lemma EnteredSlotsRight(names: set<string>, s: Sys, l: Loc)
    requires WellFormed(names, s.k) && SlotsRight(names, s) && l in s.k.dirs
    ensures SlotsRight(names, Entered(s, l))
  {
    var t := Entered(s, l);
    EnteredSlots(names, s, l);
    forall w
      ensures IsExpected(t.k, w)
          <==> IsExpected(s.k, w) || (!IsWatched(s.k, l) && w == Watch(s.k.nextWd, Path(l)))
    {
      if !IsWatched(s.k, l) {
        FreshWatchExpected(names, s.k, l, w);
      }
    }
    forall w | w in LiveSet(s.slots) && Stale(names, s, w) ensures Stale(names, t, w) {
    }
    forall wd | wd in t.held ensures HeldRight(names, t, wd) {
      assert HeldRight(names, s, wd);
    }
  }

  lemma EnteredQueueRight(names: set<string>, s: Sys, l: Loc)
    requires WellFormed(names, s.k) && SlotsRight(names, s) && QueueRight(s) && l in s.k.dirs
    ensures QueueRight(Entered(s, l))
  {
    var t := Entered(s, l);
    EnteredSlots(names, s, l);
    forall wd: nat | Known(s, wd) ensures Known(t, wd) && wd < s.k.nextWd {
      var w :| w in LiveSet(s.slots) && w.wd == wd;
      assert w in LiveSet(t.slots);
      LiveBelowNext(names, s, w);
    }
  }

  lemma WdOfKept(names: set<string>, k: Kernel, k': Kernel, l: Loc)
    requires WellFormed(names, k') && IsWatched(k, l) && Watches(k', WdOf(k, l), l)
    ensures IsWatched(k', l) && WdOf(k', l) == WdOf(k, l)
  {
  }

  /** What was due stays due; the new entries are listed. */
  lemma EnteredDue(names: set<string>, s: Sys, l: Loc, m: Loc)
    requires WellFormed(names, s.k) && SlotsRight(names, s) && l in s.k.dirs
    requires WellFormed(names, Entered(s, l).k)
    requires m in s.k.dirs && ValidLoc(names, m) && m != l && ValidLoc(names, l)
    requires IsWatched(s.k, m) || Due(s, m)
    ensures IsWatched(Entered(s, l).k, m) || Due(Entered(s, l), m)
  {
    var t := Entered(s, l);
    if IsWatched(s.k, m) {
      assert Watches(t.k, WdOf(s.k, m), m);
    } else if |m| > 1 && m !in s.overlooked {
      if Listed(s, m) {
        var i :| 0 <= i < |s.stack| && s.stack[i].at == Parent(m) && Last(m) in s.stack[i].todo;
        assert t.stack[i] == s.stack[i];
      } else if q :| AnnouncedAt(s, m, q) {
        assert Watches(t.k, WdOf(s.k, Parent(m)), Parent(m));
        WdOfKept(names, s.k, t.k, Parent(m));
        EnteredSlots(names, s, l);
        forall w | w in LiveSet(t.slots) && w.path == Path(m) ensures DeletionBefore(t.queue, w.wd, q) {
          if w !in LiveSet(s.slots) {
            PathInjective(names, l, m);
          }
        }
        assert AnnouncedAt(t, m, q);
      } else if Parent(m) == l {
        assert t.stack[|s.stack|] == Frame(l, ChildNames(s.k.dirs, l));
        assert Last(m) in ChildNames(s.k.dirs, l);
        assert Listed(t, m);
      } else {
        assert !IsWatched(s.k, Parent(m));
        if IsWatched(t.k, Parent(m)) {
          var wd := WdOf(t.k, Parent(m));
          assert Watches(s.k, wd, Parent(m));
        }
      }
    }
  }

  /** Visiting a path settles the one directory it leads to. */
  lemma VisitKeeps(names: set<string>, roots: seq<string>, s: Sys, path: string)
    requires Shape(names, roots, s) && SlotsRight(names, s) && QueueRight(s) && CoveredBut(s, path)
    ensures Inv(names, roots, VisitPath(s, path))
  {
    VisitPathIs(names, s, path);
    var t := VisitPath(s, path);
    if t != s {
      var l :| l in s.k.dirs && |l| > 0 && Path(l) == path && t == Entered(s, l);
      AddWatchWatches(names, s.k, l);
      EnteredSlotsRight(names, s, l);
      EnteredQueueRight(names, s, l);
      EnteredShape(names, roots, s, l);
      forall m | m in t.k.dirs && |m| > 0 ensures IsWatched(t.k, m) || Due(t, m) {
        if m == l {
          assert IsWatched(t.k, l);
        } else {
          if Path(m) == path {
            PathInjective(names, l, m);
          }
          assert IsWatched(s.k, m) || Due(s, m);
          EnteredDue(names, s, l, m);
        }
      }
    }
  }

  lemma EnteredShape(names: set<string>, roots: seq<string>, s: Sys, l: Loc)
    requires Shape(names, roots, s) && l in s.k.dirs && |l| > 0
    requires WellFormed(names, AddWatch(s.k, l))
    ensures Shape(names, roots, Entered(s, l))
  {
    var t := Entered(s, l);
    forall wd | wd in t.k.watches ensures IsPlaced(t.k, wd) {
      if wd in s.k.watches && t.k.watches[wd] == s.k.watches[wd] {
        assert IsPlaced(s.k, wd);
        var m :| Watches(s.k, wd, m);
        assert Watches(t.k, wd, m);
      } else {
        assert Watches(t.k, wd, l);
      }
    }
    forall m | m in t.overlooked ensures !IsWatched(t.k, m) {
      if wd: nat :| Watches(t.k, wd, m) {
        assert Watches(s.k, wd, m);
      }
    }
  }

  lemma BookkeepingKeeps(names: set<string>, s: Sys, t: Sys)
    requires t == s.(pending := t.pending, stack := t.stack)
    requires SlotsRight(names, s) && QueueRight(s)
    ensures SlotsRight(names, t) && QueueRight(t)
  {
    forall w ensures Stale(names, t, w) <==> Stale(names, s, w) {
    }
    forall wd: nat ensures Known(t, wd) <==> Known(s, wd) {
    }
  }

  lemma PendingShape(names: set<string>, roots: seq<string>, s: Sys)
    requires Shape(names, roots, s) && s.pending != []
    ensures Shape(names, roots, s.(pending := s.pending[1..]))
  {
  }

  lemma StartRootKeeps(names: set<string>, roots: seq<string>, s: Sys)
    requires Inv(names, roots, s) && Enabled(names, s, StartRoot)
    ensures Inv(names, roots, Apply(names, roots, s, StartRoot))
  {
    hide SlotsRight, QueueRight, Shape, Path, VisitPath, Listed, AnnouncedAt;
    var root := s.pending[0];
    var t := s.(pending := s.pending[1..]);
    PendingShape(names, roots, s);
    forall l | l in t.k.dirs && |l| > 0 && Path(l) != Path(root) ensures IsWatched(t.k, l) || Due(t, l) {
      assert IsWatched(s.k, l) || Due(s, l);
      SameListed(s, t, l);
      DueElsewhere(s, t, l);
    }
    BookkeepingKeeps(names, s, t);
    hide Due;
    VisitKeeps(names, roots, t, Path(root));
  }

  lemma SameListed(s: Sys, t: Sys, l: Loc)
    requires t.stack == s.stack && |l| > 0
    ensures |l| > 1 ==> (Listed(s, l) <==> Listed(t, l))
  {
  }

  /** Only the traversal bookkeeping differs, and not for l. */
  lemma DueElsewhere(s: Sys, t: Sys, l: Loc)
    requires t == s.(pending := t.pending, stack := t.stack) && |l| > 0
    requires IsWatched(s.k, l) || Due(s, l)
    requires |l| == 1 ==> (l in s.pending ==> l in t.pending)
    requires |l| > 1 ==> (Listed(s, l) ==> Listed(t, l))
    ensures IsWatched(t.k, l) || Due(t, l)
  {
    if !IsWatched(s.k, l) && |l| > 1 && l !in s.overlooked && !Listed(s, l) && IsWatched(s.k, Parent(l)) {
      var q :| AnnouncedAt(s, l, q);
      assert AnnouncedAt(t, l, q);
    }
  }

  ghost function Crossed(s: Sys, name: string): Sys
    requires s.stack != []
  {
    var n := |s.stack| - 1;
    s.(stack := s.stack[..n] + [s.stack[n].(todo := s.stack[n].todo - {name})])
  }

  lemma CrossedListed(s: Sys, name: string, l: Loc)
    requires s.stack != [] && |l| > 1 && Listed(s, l)
    requires l != s.stack[|s.stack| - 1].at + [name]
    ensures Listed(Crossed(s, name), l)
  {
    var i :| 0 <= i < |s.stack| && s.stack[i].at == Parent(l) && Last(l) in s.stack[i].todo;
    assert Parent(l) + [Last(l)] == l;
    var t := Crossed(s, name);
    assert t.stack[i].at == Parent(l) && Last(l) in t.stack[i].todo;
  }

  lemma BookkeepingShape(names: set<string>, roots: seq<string>, s: Sys, t: Sys)
    requires Shape(names, roots, s) && t == s.(stack := t.stack)
    requires |t.stack| <= |s.stack| && forall i | 0 <= i < |t.stack| :: t.stack[i].at == s.stack[i].at
    ensures Shape(names, roots, t)
  {
  }

  lemma CrossedDue(s: Sys, name: string, l: Loc)
    requires s.stack != [] && |l| > 0 && (IsWatched(s.k, l) || Due(s, l))
    requires l != s.stack[|s.stack| - 1].at + [name]
    ensures IsWatched(s.k, l) || Due(Crossed(s, name), l)
  {
    if |l| > 1 && Listed(s, l) {
      CrossedListed(s, name, l);
    }
    hide Listed, AnnouncedAt;
    DueElsewhere(s, Crossed(s, name), l);
  }

  lemma MeetKeeps(names: set<string>, roots: seq<string>, s: Sys, name: string)
    requires Inv(names, roots, s) && Enabled(names, s, Meet(name))
    ensures Inv(names, roots, Apply(names, roots, s, Meet(name)))
  {
    hide SlotsRight, QueueRight, Due, Shape, Path, VisitPath;
    var at := s.stack[|s.stack| - 1].at;
    var t := Crossed(s, name);
    var path := Path(at) + "/" + name;
    PathSnoc(at, name);
    BookkeepingKeeps(names, s, t);
    BookkeepingShape(names, roots, s, t);
    forall l | l in t.k.dirs && |l| > 0 && Path(l) != path ensures IsWatched(t.k, l) || Due(t, l) {
      assert IsWatched(s.k, l) || Due(s, l);
      CrossedDue(s, name, l);
    }
    VisitKeeps(names, roots, t, path);
  }

  /** The listing at the top is over: it left nothing it was bound to meet. */
  lemma DoneDue(s: Sys, l: Loc)
    requires s.stack != [] && s.stack[|s.stack| - 1].todo == {}
    requires |l| > 0 && (IsWatched(s.k, l) || Due(s, l))
    ensures IsWatched(s.k, l) || Due(s.(stack := s.stack[..|s.stack| - 1]), l)
  {
    var t := s.(stack := s.stack[..|s.stack| - 1]);
    if |l| > 1 && Listed(s, l) {
      var i :| 0 <= i < |s.stack| && s.stack[i].at == Parent(l) && Last(l) in s.stack[i].todo;
      assert t.stack[i] == s.stack[i];
    }
    hide Listed, AnnouncedAt;
    DueElsewhere(s, t, l);
  }

  lemma ListingDoneKeeps(names: set<string>, roots: seq<string>, s: Sys)
    requires Inv(names, roots, s) && Enabled(names, s, ListingDone)
    ensures Inv(names, roots, Apply(names, roots, s, ListingDone))
  {
    hide SlotsRight, QueueRight, Due, Shape, Path;
    var t := s.(stack := s.stack[..|s.stack| - 1]);
    BookkeepingKeeps(names, s, t);
    BookkeepingShape(names, roots, s, t);
    forall l | l in t.k.dirs && |l| > 0 ensures IsWatched(t.k, l) || Due(t, l) {
      assert IsWatched(s.k, l) || Due(s, l);
      DoneDue(s, l);
    }
  }

  /** nftw gives up: what it was still to meet is overlooked. */
  lemma GiveUpKeeps(names: set<string>, roots: seq<string>, s: Sys)
    requires Inv(names, roots, s) && Enabled(names, s, GiveUp)
    ensures Inv(names, roots, Apply(names, roots, s, GiveUp))
  {
    hide SlotsRight, QueueRight, Shape, Path, Due, Abandoned;
    var t := s.(stack := [], overlooked := s.overlooked + Abandoned(s));
    assert Apply(names, roots, s, GiveUp) == t;
    hide Apply;
    GiveUpShape(names, roots, s, t);
    GiveUpSlots(names, s, t);
    forall l | l in t.k.dirs && |l| > 0 ensures IsWatched(t.k, l) || Due(t, l) {
      assert IsWatched(s.k, l) || Due(s, l);
      GiveUpDue(s, t, l);
    }
  }

  lemma GiveUpShape(names: set<string>, roots: seq<string>, s: Sys, t: Sys)
    requires Shape(names, roots, s) && t == s.(stack := [], overlooked := s.overlooked + Abandoned(s))
    ensures Shape(names, roots, t)
  {
    hide WellFormed, Listed;
  }

  lemma GiveUpSlots(names: set<string>, s: Sys, t: Sys)
    requires t == s.(stack := [], overlooked := t.overlooked) && SlotsRight(names, s) && QueueRight(s)
    ensures SlotsRight(names, t) && QueueRight(t)
  {
    BookkeepingKeeps(names, s, s.(stack := []));
    hide IsExpected, UniqueWds, Path, ValidLoc;
    forall w ensures Stale(names, t, w) <==> Stale(names, s, w) {
    }
    forall wd | wd in t.held ensures HeldRight(names, t, wd) {
      assert HeldRight(names, s, wd);
    }
    forall wd: nat ensures Known(t, wd) <==> Known(s, wd) {
    }
  }

  lemma GiveUpDue(s: Sys, t: Sys, l: Loc)
    requires t == s.(stack := [], overlooked := s.overlooked + Abandoned(s))
    requires l in s.k.dirs && |l| > 0 && (IsWatched(s.k, l) || Due(s, l))
    ensures IsWatched(t.k, l) || Due(t, l)
  {
    if !IsWatched(s.k, l) && |l| > 1 && l !in s.overlooked && !Listed(s, l) && IsWatched(s.k, Parent(l)) {
      var q :| AnnouncedAt(s, l, q);
      assert AnnouncedAt(t, l, q);
    }
  }

  lemma RestartKeeps(names: set<string>, roots: seq<string>, s: Sys)
    requires Shape(names, roots, s)
    ensures Inv(names, roots, Restart(s, roots))
  {
    var t := Restart(s, roots);
    forall l | l in t.k.dirs && |l| == 1 ensures l in t.pending {
      var i :| 0 <= i < |roots| && roots[i] == l[0];
      assert t.pending[i] == l;
    }
    forall l | l in t.k.dirs && |l| > 0 ensures Due(t, l) {
      assert |l| > 1 ==> !IsWatched(t.k, Parent(l));
    }
    assert forall wd, l :: !Watches(t.k, wd, l);
  }

  // ------------------------------------------------------- other processes

  lemma MkdirWatches(k: Kernel, at: Loc, ino: nat, wd: nat, l: Loc)
    requires at !in k.dirs && ino !in k.dirs.Values
    requires forall v {:trigger IsPlaced(k, v)} | v in k.watches :: IsPlaced(k, v)
    ensures Watches(k.(dirs := k.dirs[at := ino]), wd, l) <==> Watches(k, wd, l)
  {
    if wd in k.watches {
      assert IsPlaced(k, wd);
    }
  }

  /** t is s with a directory made at the place at, with no watch on it. */
  ghost predicate Making(s: Sys, at: Loc, t: Sys) {
    && |at| > 1 && at !in s.k.dirs && at in t.k.dirs
    && (forall wd: nat, l :: Watches(t.k, wd, l) <==> Watches(s.k, wd, l))
    && t.k.watches == s.k.watches && t.k.nextWd == s.k.nextWd
    && t.slots == s.slots && t.pending == s.pending && t.stack == s.stack && t.held == s.held
    && t.overlooked == (if at in s.held.Values then s.overlooked + {at} else s.overlooked)
    && t.queue == if IsWatched(s.k, Parent(at)) then s.queue + [Made(WdOf(s.k, Parent(at)), Last(at))] else s.queue
  }

  /** A directory that is not watched is not watched later unless it is visited. */
  lemma OverlookedUnwatched(s: Sys, t: Sys)
    requires forall wd: nat, l | Watches(t.k, wd, l) :: Watches(s.k, wd, l) || l !in t.overlooked
    requires forall l | l in t.overlooked :: !IsWatched(s.k, l)
    ensures forall l | l in t.overlooked :: !IsWatched(t.k, l)
  {
    hide Watches;
    assert forall wd: nat, l | Watches(s.k, wd, l) :: IsWatched(s.k, l);
  }

  lemma MkdirWellFormed(names: set<string>, k: Kernel, at: Loc, ino: nat)
    requires WellFormed(names, k) && |at| > 1 && ValidLoc(names, at) && Parent(at) in k.dirs
    requires at !in k.dirs && ino !in k.dirs.Values
    ensures WellFormed(names, k.(dirs := k.dirs[at := ino]))
  {
    hide ValidLoc, NonNested;
  }

  lemma MkdirShape(names: set<string>, roots: seq<string>, s: Sys, at: Loc, ino: nat, t: Sys)
    requires Shape(names, roots, s) && Enabled(names, s, Mkdir(at, ino)) && Making(s, at, t)
    requires t.k.dirs == s.k.dirs[at := ino]
    ensures Shape(names, roots, t)
  {
    MkdirWellFormed(names, s.k, at, ino);
    assert t.k == s.k.(dirs := t.k.dirs);
    hide WellFormed, ValidLoc;
    forall wd | wd in t.k.watches ensures IsPlaced(t.k, wd) {
      assert IsPlaced(s.k, wd);
      var l :| Watches(s.k, wd, l);
      assert Watches(t.k, wd, l);
    }
    OverlookedUnwatched(s, t);
  }

  lemma SameExpected(k: Kernel, k': Kernel, w: Watch)
    requires forall wd: nat, l :: Watches(k', wd, l) <==> Watches(k, wd, l)
    ensures IsExpected(k', w) <==> IsExpected(k, w)
  {
    if l :| l in k.dirs && |l| > 0 && w.wd >= 0 && Watches(k, w.wd, l) && w.path == Path(l) {
      assert Watches(k', w.wd, l);
    }
    if l :| l in k'.dirs && |l| > 0 && w.wd >= 0 && Watches(k', w.wd, l) && w.path == Path(l) {
      assert Watches(k, w.wd, l);
    }
  }

  lemma DeletionStays(queue: seq<Note>, more: seq<Note>, wd: int, q: int)
    requires q <= |queue| && DeletionBefore(queue, wd, q)
    ensures DeletionBefore(queue + more, wd, q) && DeletionBefore(queue + more, wd, |queue + more|)
  {
    var i :| 0 <= i < q && i < |queue| && queue[i].Deletion? && queue[i].wd == wd;
    assert (queue + more)[i] == queue[i];
  }

  lemma MkdirSlots(names: set<string>, s: Sys, at: Loc, t: Sys)
    requires Making(s, at, t) && SlotsRight(names, s)
    ensures SlotsRight(names, t)
  {
    var more := t.queue[|s.queue|..];
    assert t.queue == s.queue + more;
    forall w ensures IsExpected(t.k, w) <==> IsExpected(s.k, w) {
      SameExpected(s.k, t.k, w);
    }
    forall w | Stale(names, s, w) ensures Stale(names, t, w) {
      if !HeldSlot(s, w) {
        DeletionStays(s.queue, more, w.wd, |s.queue|);
      }
    }
    forall wd | wd in t.held ensures HeldRight(names, t, wd) {
      assert HeldRight(names, s, wd);
    }
  }

  lemma MkdirQueue(names: set<string>, s: Sys, at: Loc, t: Sys)
    requires Making(s, at, t) && SlotsRight(names, s) && QueueRight(s) && '/' !in Last(at)
    ensures QueueRight(t)
  {
    hide IsExpected, Stale, HeldRight, UniqueWds, Path;
    forall wd: nat ensures Known(t, wd) <==> Known(s, wd) {
    }
    if IsWatched(s.k, Parent(at)) {
      WatchedIsCached(names, s, Parent(at));
      var w := Watch(WdOf(s.k, Parent(at)), Path(Parent(at)));
      assert Known(s, w.wd);
    }
  }

  lemma MkdirDue(names: set<string>, s: Sys, at: Loc, t: Sys)
    requires Making(s, at, t) && SlotsRight(names, s) && WellFormed(names, s.k) && ValidLoc(names, at)
    requires WellFormed(names, t.k)
    ensures Due(t, at)
  {
    if at !in s.held.Values && IsWatched(t.k, Parent(at)) {
      var wd := WdOf(t.k, Parent(at));
      assert Watches(s.k, wd, Parent(at));
      WdOfKept(names, t.k, s.k, Parent(at));
      var q := |s.queue|;
      var more := [Made(wd, Last(at))];
      forall w | w in LiveSet(t.slots) && w.path == Path(at) ensures DeletionBefore(t.queue, w.wd, q) {
        if IsExpected(s.k, w) {
          var l :| l in s.k.dirs && |l| > 0 && Watches(s.k, w.wd, l) && w.path == Path(l);
          PathInjective(names, l, at);
        }
        if HeldSlot(s, w) {
          assert HeldRight(names, s, w.wd);
          PathInjective(names, s.held[w.wd], at);
        }
        DeletionStays(s.queue, more, w.wd, q);
      }
      assert AnnouncedAt(t, at, q);
    }
  }

  lemma MkdirOthersDue(names: set<string>, s: Sys, at: Loc, t: Sys, l: Loc)
    requires Making(s, at, t) && WellFormed(names, s.k) && WellFormed(names, t.k)
    requires l in s.k.dirs && |l| > 0 && (IsWatched(s.k, l) || Due(s, l))
    ensures IsWatched(t.k, l) || Due(t, l)
  {
    if IsWatched(s.k, l) {
      assert Watches(t.k, WdOf(s.k, l), l);
    } else if l in s.overlooked {
      assert l in t.overlooked;
    } else if |l| > 1 && !Listed(s, l) {
      if IsWatched(t.k, Parent(l)) {
        var wd := WdOf(t.k, Parent(l));
        assert Watches(s.k, wd, Parent(l));
        WdOfKept(names, t.k, s.k, Parent(l));
        var q :| AnnouncedAt(s, l, q);
        var more := t.queue[|s.queue|..];
        assert t.queue == s.queue + more;
        forall w | w in LiveSet(t.slots) && w.path == Path(l) ensures DeletionBefore(t.queue, w.wd, q) {
          DeletionStays(s.queue, more, w.wd, q);
        }
        assert AnnouncedAt(t, l, q);
      }
    } else if |l| > 1 {
      assert Listed(t, l);
    }
  }

  lemma MkdirIsMaking(names: set<string>, roots: seq<string>, s: Sys, at: Loc, ino: nat)
    requires Inv(names, roots, s) && Enabled(names, s, Mkdir(at, ino))
    ensures var t := Apply(names, roots, s, Mkdir(at, ino));
            Making(s, at, t) && t.k.dirs == s.k.dirs[at := ino] && '/' !in Last(at)
  {
    hide SlotsRight, QueueRight, Covered;
    var t := Apply(names, roots, s, Mkdir(at, ino));
    forall wd: nat, l ensures Watches(t.k, wd, l) <==> Watches(s.k, wd, l) {
      MkdirWatches(s.k, at, ino, wd, l);
    }
  }

  lemma MkdirKeeps(names: set<string>, roots: seq<string>, s: Sys, at: Loc, ino: nat)
    requires Inv(names, roots, s) && Enabled(names, s, Mkdir(at, ino))
    ensures Inv(names, roots, Apply(names, roots, s, Mkdir(at, ino)))
  {
    var t := Apply(names, roots, s, Mkdir(at, ino));
    MkdirIsMaking(names, roots, s, at, ino);
    hide Apply, Making, SlotsRight, QueueRight, Due;
    MkdirShape(names, roots, s, at, ino, t);
    MkdirSlots(names, s, at, t);
    MkdirQueue(names, s, at, t);
    forall l | l in t.k.dirs && |l| > 0 ensures IsWatched(t.k, l) || Due(t, l) {
      if l == at {
        MkdirDue(names, s, at, t);
      } else {
        MkdirOthersDue(names, s, at, t, l);
      }
    }
  }

  /** t is s with the empty directory at removed; its watch, if it had one, is held. */
  ghost predicate Removing(s: Sys, at: Loc, t: Sys) {
    && |at| > 1 && at in s.k.dirs && IsEmptyAt(s.k.dirs, at)
    && t.k.dirs == s.k.dirs - {at} && t.k.nextWd == s.k.nextWd
    && (forall wd: nat, l :: Watches(t.k, wd, l) <==> l != at && Watches(s.k, wd, l))
    && (forall wd | wd in s.k.watches :: wd in t.k.watches || Watches(s.k, wd, at))
    && (forall wd | wd in t.k.watches ::
          wd in s.k.watches && t.k.watches[wd] == s.k.watches[wd] && !Watches(s.k, wd, at))
    && t.slots == s.slots && t.pending == s.pending && t.stack == Delisted(s.stack, at)
    && t.queue == s.queue && t.overlooked == s.overlooked - {at}
    && t.held == if IsWatched(s.k, at) then s.held[WdOf(s.k, at) := at] else s.held
  }

  lemma WatchGoesWithDirectory(names: set<string>, k: Kernel, at: Loc, t: Kernel)
    requires WellFormed(names, k) && at in k.dirs && t.dirs == k.dirs - {at}
    requires t.watches == if IsWatched(k, at) then k.watches - {WdOf(k, at)} else k.watches
    ensures forall wd: nat, l :: Watches(t, wd, l) <==> l != at && Watches(k, wd, l)
    ensures forall wd | wd in k.watches :: wd in t.watches || Watches(k, wd, at)
    ensures forall wd | wd in t.watches ::
              wd in k.watches && t.watches[wd] == k.watches[wd] && !Watches(k, wd, at)
  {
    forall wd: nat, l ensures Watches(t, wd, l) <==> l != at && Watches(k, wd, l) {
      if Watches(k, wd, at) {
        assert IsWatched(k, at);
      }
    }
  }

  lemma RmdirIsRemoving(names: set<string>, roots: seq<string>, s: Sys, at: Loc)
    requires Inv(names, roots, s) && Enabled(names, s, Rmdir(at))
    ensures Removing(s, at, Apply(names, roots, s, Rmdir(at)))
  {
    assert WellFormed(names, s.k);
    hide Inv, Delisted, IsEmptyAt, WellFormed, IsWatched, Watches;
    WatchGoesWithDirectory(names, s.k, at, Apply(names, roots, s, Rmdir(at)).k);
  }

  lemma RmdirDirs(names: set<string>, dirs: map<Loc, nat>, at: Loc)
    requires WellFormedDirs(names, dirs) && IsEmptyAt(dirs, at) && |at| > 1
    ensures WellFormedDirs(names, dirs - {at})
  {
    forall l | l in dirs && l != at && |l| > 1 ensures Parent(l) in dirs && Parent(l) != at {
    }
  }

  lemma RmdirWellFormed(names: set<string>, s: Sys, at: Loc, t: Sys)
    requires WellFormed(names, s.k) && Removing(s, at, t)
    ensures WellFormed(names, t.k)
  {
    RmdirDirs(names, s.k.dirs, at);
  }

  lemma RmdirPlaced(s: Sys, at: Loc, t: Sys, wd: nat)
    requires Removing(s, at, t) && wd in t.k.watches && IsPlaced(s.k, wd)
    ensures IsPlaced(t.k, wd)
  {
    var l :| Watches(s.k, wd, l);
    assert Watches(t.k, wd, l);
  }

  lemma RmdirShape(names: set<string>, roots: seq<string>, s: Sys, at: Loc, t: Sys)
    requires Shape(names, roots, s) && Removing(s, at, t)
    ensures Shape(names, roots, t)
  {
    RmdirWellFormed(names, s, at, t);
    forall wd | wd in t.k.watches ensures IsPlaced(t.k, wd) {
      assert IsPlaced(s.k, wd);
      RmdirPlaced(s, at, t, wd);
    }
    hide WellFormed;
    assert forall i | 0 <= i < |t.stack| :: t.stack[i].at == s.stack[i].at;
    OverlookedUnwatched(s, t);
  }

  /** A live slot after the removal: of a directory that is still there, or held. */
  lemma RmdirSlot(names: set<string>, s: Sys, at: Loc, t: Sys, w: Watch)
    requires Removing(s, at, t) && WellFormed(names, s.k) && IsExpected(s.k, w)
    ensures IsExpected(t.k, w) || Stale(names, t, w)
  {
    assert ValidLoc(names, at);
    hide ValidLoc, WellFormedDirs, NonNested, Delisted, DeletionBefore, IsEmptyAt;
    var l :| l in s.k.dirs && |l| > 0 && Watches(s.k, w.wd, l) && w.path == Path(l);
    if l == at {
      assert IsWatched(s.k, at) && w.wd == WdOf(s.k, at);
      assert HeldSlot(t, w);
    } else {
      assert Watches(t.k, w.wd, l);
    }
  }

  lemma RmdirStale(names: set<string>, s: Sys, at: Loc, t: Sys, w: Watch)
    requires Removing(s, at, t) && Stale(names, s, w)
    ensures Stale(names, t, w)
  {
    hide ValidLoc, Path, Delisted, DeletionBefore, IsEmptyAt, WdOf;
  }

  lemma RmdirHeld(names: set<string>, s: Sys, at: Loc, t: Sys, wd: nat)
    requires Removing(s, at, t) && WellFormed(names, s.k) && SlotsRight(names, s) && wd in t.held
    ensures HeldRight(names, t, wd)
  {
    assert ValidLoc(names, at);
    hide ValidLoc, WellFormedDirs, NonNested, Delisted, DeletionBefore, IsEmptyAt, Path, IsExpected, Stale;
    if IsWatched(s.k, at) && wd == WdOf(s.k, at) {
      WatchedIsCached(names, s, at);
    } else {
      assert HeldRight(names, s, wd);
    }
  }

  lemma RmdirSlots(names: set<string>, s: Sys, at: Loc, t: Sys)
    requires Removing(s, at, t) && WellFormed(names, s.k) && SlotsRight(names, s)
    ensures SlotsRight(names, t)
  {
    forall w | IsExpected(t.k, w) ensures w in LiveSet(t.slots) {
      var l :| l in t.k.dirs && |l| > 0 && Watches(t.k, w.wd, l) && w.path == Path(l);
      assert Watches(s.k, w.wd, l);
      assert IsExpected(s.k, w);
    }
    hide Removing, WellFormed, IsExpected, Stale, HeldRight, UniqueWds;
    assert t.slots == s.slots by { RemovingKeepsSlots(s, at, t); }
    forall w | w in LiveSet(s.slots) ensures IsExpected(t.k, w) || Stale(names, t, w) {
      if IsExpected(s.k, w) {
        RmdirSlot(names, s, at, t, w);
      } else {
        RmdirStale(names, s, at, t, w);
      }
    }
    forall wd | wd in t.held ensures HeldRight(names, t, wd) {
      RmdirHeld(names, s, at, t, wd);
    }
  }

  lemma RemovingKeepsSlots(s: Sys, at: Loc, t: Sys)
    requires Removing(s, at, t)
    ensures t.slots == s.slots
  {
  }

  lemma RmdirQueue(names: set<string>, s: Sys, at: Loc, t: Sys)
    requires Removing(s, at, t) && QueueRight(s)
    ensures QueueRight(t)
  {
    forall wd: nat ensures Known(t, wd) <==> Known(s, wd) {
    }
  }

  lemma RmdirAnnounced(names: set<string>, s: Sys, at: Loc, t: Sys, l: Loc, q: int)
    requires Removing(s, at, t) && WellFormed(names, s.k)
    requires |l| > 1 && IsWatched(t.k, Parent(l)) && AnnouncedAt(s, l, q)
    ensures AnnouncedAt(t, l, q)
  {
    assert Watches(s.k, WdOf(t.k, Parent(l)), Parent(l));
    WdOfKept(names, t.k, s.k, Parent(l));
  }

  lemma RmdirDue(names: set<string>, s: Sys, at: Loc, t: Sys, l: Loc)
    requires Removing(s, at, t) && WellFormed(names, s.k) && WellFormed(names, t.k)
    requires l in t.k.dirs && |l| > 0 && (IsWatched(s.k, l) || Due(s, l))
    ensures IsWatched(t.k, l) || Due(t, l)
  {
    if IsWatched(s.k, l) {
      assert Watches(t.k, WdOf(s.k, l), l);
    } else if |l| > 1 && l !in s.overlooked {
      if Listed(s, l) {
        var i :| 0 <= i < |s.stack| && s.stack[i].at == Parent(l) && Last(l) in s.stack[i].todo;
        assert Parent(l) + [Last(l)] == l && Parent(at) + [Last(at)] == at;
        assert t.stack[i].at == Parent(l) && Last(l) in t.stack[i].todo;
      } else if IsWatched(t.k, Parent(l)) {
        assert Watches(s.k, WdOf(t.k, Parent(l)), Parent(l));
        var q :| AnnouncedAt(s, l, q);
        RmdirAnnounced(names, s, at, t, l, q);
      }
    }
  }

  lemma RmdirKeeps(names: set<string>, roots: seq<string>, s: Sys, at: Loc)
    requires Inv(names, roots, s) && Enabled(names, s, Rmdir(at))
    ensures Inv(names, roots, Apply(names, roots, s, Rmdir(at)))
  {
    var t := Apply(names, roots, s, Rmdir(at));
    RmdirIsRemoving(names, roots, s, at);
    RmdirShape(names, roots, s, at, t);
    RmdirSlots(names, s, at, t);
    RmdirQueue(names, s, at, t);
    forall l | l in t.k.dirs && |l| > 0 ensures IsWatched(t.k, l) || Due(t, l) {
      assert IsWatched(s.k, l) || Due(s, l);
      RmdirDue(names, s, at, t, l);
    }
  }

  lemma ReleaseQueue(s: Sys, wd: nat, t: Sys)
    requires QueueRight(s) && wd in s.held && wd !in s.k.watches && Known(s, wd)
    requires t == s.(held := s.held - {wd}, queue := s.queue + [Deletion(wd)])
    ensures QueueRight(t)
  {
    forall v: nat ensures Known(t, v) <==> Known(s, v) {
    }
  }

  lemma ReleaseShape(names: set<string>, roots: seq<string>, s: Sys, t: Sys)
    requires Shape(names, roots, s) && t == s.(held := t.held, queue := t.queue)
    ensures Shape(names, roots, t)
  {
  }

  /** The inode of a removed directory goes, and its watch with it. */
  lemma ReleaseKeeps(names: set<string>, roots: seq<string>, s: Sys, wd: nat)
    requires Inv(names, roots, s) && wd in s.held
    ensures Inv(names, roots, Apply(names, roots, s, Release(wd)))
  {
    hide Shape, SlotsRight, QueueRight, Due, HeldRight;
    var t := s.(held := s.held - {wd}, queue := s.queue + [Deletion(wd)]);
    assert Apply(names, roots, s, Release(wd)) == t;
    hide Apply;
    HeldIsKnown(names, s, wd);
    ReleaseShape(names, roots, s, t);
    ReleaseQueue(s, wd, t);
    ReleaseSlots(names, s, wd, t);
    forall l | l in t.k.dirs && |l| > 0 ensures IsWatched(t.k, l) || Due(t, l) {
      assert IsWatched(s.k, l) || Due(s, l);
      ReleaseDue(s, t, [Deletion(wd)], l);
    }
  }

  lemma HeldIsKnown(names: set<string>, s: Sys, wd: nat)
    requires SlotsRight(names, s) && wd in s.held
    ensures wd !in s.k.watches && Known(s, wd)
  {
    assert HeldRight(names, s, wd);
  }

  lemma ReleaseSlots(names: set<string>, s: Sys, wd: nat, t: Sys)
    requires SlotsRight(names, s) && wd in s.held
    requires t == s.(held := s.held - {wd}, queue := s.queue + [Deletion(wd)])
    ensures SlotsRight(names, t)
  {
    hide IsExpected, UniqueWds, Path, ValidLoc;
    forall w | Stale(names, s, w) ensures Stale(names, t, w) {
      if w.wd == wd {
        assert t.queue[|s.queue|] == Deletion(wd);
      } else if !HeldSlot(s, w) {
        DeletionStays(s.queue, [Deletion(wd)], w.wd, |s.queue|);
      }
    }
    forall v | v in t.held ensures HeldRight(names, t, v) {
      assert HeldRight(names, s, v);
    }
  }

  lemma ReleaseDue(s: Sys, t: Sys, more: seq<Note>, l: Loc)
    requires t == s.(held := t.held, queue := s.queue + more) && |l| > 0
    requires IsWatched(s.k, l) || Due(s, l)
    ensures IsWatched(t.k, l) || Due(t, l)
  {
    if !IsWatched(s.k, l) && |l| > 1 && l !in s.overlooked && IsWatched(s.k, Parent(l)) {
      if Listed(s, l) {
        assert Listed(t, l);
      } else {
        var q :| AnnouncedAt(s, l, q);
        forall w | w in LiveSet(t.slots) && w.path == Path(l) ensures DeletionBefore(t.queue, w.wd, q) {
          DeletionStays(s.queue, more, w.wd, q);
        }
        assert AnnouncedAt(t, l, q);
      }
    }
  }

  // ------------------------------------------------------ handling an event

  lemma {:induction false} KnownIsFound(s: Sys, wd: nat)
    requires Known(s, wd)
    ensures FindWatch(s.slots, wd) >= 0
    ensures s.slots[FindWatch(s.slots, wd)] in LiveSet(s.slots)
  {
    var w :| w in LiveSet(s.slots) && w.wd == wd;
    var j :| 0 <= j < |s.slots| && s.slots[j] == w;
  }

  lemma DeletionShifts(queue: seq<Note>, wd: int, q: int)
    requires queue != [] && DeletionBefore(queue, wd, q)
    requires !(queue[0].Deletion? && queue[0].wd == wd)
    ensures DeletionBefore(queue[1..], wd, q - 1)
  {
    var i :| 0 <= i < q && i < |queue| && queue[i].Deletion? && queue[i].wd == wd;
    assert queue[1..][i - 1] == queue[i];
  }

  /** The head of the queue is taken off, with the slot of a deleted directory. */
  ghost predicate Popped(s: Sys, t: Sys) {
    && s.queue != [] && t == s.(queue := s.queue[1..], slots := t.slots)
    && LiveSet(t.slots) <= LiveSet(s.slots)
    && (forall w | w in LiveSet(s.slots) && w !in LiveSet(t.slots) :: s.queue[0].Deletion? && w.wd == s.queue[0].wd)
    && (forall w | w in LiveSet(t.slots) && s.queue[0].Deletion? :: w.wd != s.queue[0].wd)
    && UniqueWds(t.slots)
  }

  lemma PoppedKeeps(names: set<string>, s: Sys, t: Sys)
    requires Popped(s, t) && SlotsRight(names, s) && QueueRight(s)
    ensures SlotsRight(names, t) && QueueRight(t)
  {
    forall w | w in LiveSet(t.slots) && Stale(names, s, w) ensures Stale(names, t, w) {
      if !HeldSlot(s, w) {
        DeletionShifts(s.queue, w.wd, |s.queue|);
      }
    }
    forall wd | wd in t.held ensures HeldRight(names, t, wd) {
      assert HeldRight(names, s, wd);
      assert s.queue[0].Deletion? ==> wd != s.queue[0].wd;
    }
    forall w | IsExpected(s.k, w) ensures w in LiveSet(t.slots) {
      assert w.wd in s.k.watches;
    }
    forall wd: nat | Known(s, wd) && !(s.queue[0].Deletion? && s.queue[0].wd == wd) ensures Known(t, wd) {
      var w :| w in LiveSet(s.slots) && w.wd == wd;
      assert w in LiveSet(t.slots);
    }
    assert forall i | 0 <= i < |t.queue| :: t.queue[i] == s.queue[i + 1];
  }

  /** Everything due stays due, except a directory announced by the very event
      that was taken off. */
  lemma PoppedDue(s: Sys, t: Sys, l: Loc)
    requires Popped(s, t) && |l| > 0 && (IsWatched(s.k, l) || Due(s, l))
    ensures IsWatched(t.k, l) || Due(t, l) || (|l| > 1 && AnnouncedAt(s, l, 0))
  {
    if !IsWatched(s.k, l) && |l| > 1 && l !in s.overlooked {
      if Listed(s, l) {
        assert Listed(t, l);
      } else if IsWatched(s.k, Parent(l)) {
        var q :| AnnouncedAt(s, l, q);
        if q > 0 {
          assert t.queue[q - 1] == s.queue[q];
          forall w | w in LiveSet(t.slots) && w.path == Path(l) ensures DeletionBefore(t.queue, w.wd, q - 1) {
            DeletionShifts(s.queue, w.wd, q);
          }
          assert AnnouncedAt(t, l, q - 1);
        }
      }
    }
  }

  lemma PoppedShape(names: set<string>, roots: seq<string>, s: Sys, t: Sys)
    requires Popped(s, t) && Shape(names, roots, s)
    ensures Shape(names, roots, t) && t.k == s.k
  {
    hide WellFormed, UniqueWds;
  }

  lemma DeletionPops(names: set<string>, roots: seq<string>, s: Sys)
    requires Inv(names, roots, s) && s.queue != [] && s.queue[0].Deletion?
    ensures Popped(s, Handle(s, roots))
  {
    var wd := s.queue[0].wd;
    KnownIsFound(s, wd);
    EmptiedMeans(s.slots, FindWatch(s.slots, wd));
  }

  lemma HandleDeletionKeeps(names: set<string>, roots: seq<string>, s: Sys)
    requires Inv(names, roots, s) && Enabled(names, s, HandleEvent) && s.queue[0].Deletion?
    ensures Inv(names, roots, Handle(s, roots))
  {
    var t := Handle(s, roots);
    hide Handle, Popped, Shape, SlotsRight, QueueRight, Due;
    DeletionPops(names, roots, s);
    PoppedShape(names, roots, s, t);
    PoppedKeeps(names, s, t);
    forall l | l in t.k.dirs && |l| > 0 ensures IsWatched(t.k, l) || Due(t, l) {
      assert IsWatched(s.k, l) || Due(s, l);
      PoppedDue(s, t, l);
    }
  }

  /** The event at the head announces at most the directory at its path. */
  lemma HeadAnnounces(names: set<string>, s: Sys, l: Loc)
    requires SlotsRight(names, s) && |l| > 1 && AnnouncedAt(s, l, 0)
    ensures FindWatch(s.slots, s.queue[0].wd) >= 0
    ensures s.slots[FindWatch(s.slots, s.queue[0].wd)].path + "/" + s.queue[0].name == Path(l)
    ensures forall w | w in LiveSet(s.slots) :: w.path != Path(l)
  {
    var wd := WdOf(s.k, Parent(l));
    WatchedIsCached(names, s, Parent(l));
    var j :| 0 <= j < |s.slots| && s.slots[j] == Watch(wd, Path(Parent(l)));
    FindIsUnique(s.slots, j);
    PathSnoc(Parent(l), Last(l));
    assert Parent(l) + [Last(l)] == l;
    assert forall w: Watch :: !DeletionBefore(s.queue, w.wd, 0);
  }

  lemma HandleMadeKeeps(names: set<string>, roots: seq<string>, s: Sys)
    requires Inv(names, roots, s) && Enabled(names, s, HandleEvent) && s.queue[0].Made?
    ensures Inv(names, roots, Handle(s, roots))
  {
    var t := s.(queue := s.queue[1..]);
    KnownIsFound(s, s.queue[0].wd);
    var path := s.slots[FindWatch(s.slots, s.queue[0].wd)].path + "/" + s.queue[0].name;
    var j := PathSlot(s.slots, path);
    assert j >= 0 ==> s.slots[j] in LiveSet(s.slots);
    assert Popped(s, t);
    PoppedKeeps(names, s, t);
    forall l | l in t.k.dirs && |l| > 0 && !IsWatched(t.k, l) && !Due(t, l)
      ensures Path(l) == path && !PathInCache(s.slots, path)
    {
      assert IsWatched(s.k, l) || Due(s, l);
      PoppedDue(s, t, l);
      HeadAnnounces(names, s, l);
    }
    if !PathInCache(s.slots, path) {
      VisitKeeps(names, roots, t, path);
    }
  }

  // ------------------------------------- the same steps as the event handler

  /** A slot cleared here never belongs to a root. */
  lemma {:induction false} DeletedIsNoRoot(names: set<string>, roots: seq<string>, s: Sys, wd: nat)
    requires Inv(names, roots, s) && s.queue != [] && s.queue[0] == Deletion(wd)
    ensures FindWatch(s.slots, wd) >= 0 && s.slots[FindWatch(s.slots, wd)].path !in roots
  {
    KnownIsFound(s, wd);
    var w := s.slots[FindWatch(s.slots, wd)];
    assert Stale(names, s, w);
    var l :| ValidLoc(names, l) && |l| > 1 && w.path == Path(l);
    if w.path in roots {
      assert Path([w.path]) == w.path;
      PathInjective(names, l, [w.path]);
      assert false;
    }
  }

  lemma {:induction false} StepOnDeletion(d: Daemon, wd: nat, dirBit: bool, next: Option<Event>, a: Answers)
    requires FindWatch(d.slots, wd) >= 0 && !IsRoot(d, PathOf(d, wd))
    ensures Step(d, Deleted(wd, dirBit)[0], next, false, a) == Took(Cleared(d, wd), 1)
  {
  }

  /** Handling a deletion at the head of the queue is what the event handler does
      with that event: the same slot is cleared. */
  lemma HandlingDeletionIsStep(names: set<string>, roots: seq<string>, s: Sys, d: Daemon, wd: nat, dirBit: bool,
      next: Option<Event>, a: Answers)
    requires Inv(names, roots, s) && Idle(s) && s.queue != [] && s.queue[0] == Deletion(wd)
    requires d.slots == s.slots && forall p :: Some(p) in d.roots <==> p in roots
    ensures var ev := Deleted(wd, dirBit)[0];
            Legal(ev) && Step(d, ev, next, false, a) == Took(d.(slots := Handle(s, roots).slots), 1)
  {
    DeletedIsNoRoot(names, roots, s, wd);
    StepOnDeletion(d, wd, dirBit, next, a);
  }

  /** The steps while a traversal that an event started is under way. */
  predicate Traversing(a: Action) {
    a.Meet? || a.ListingDone? || a.GiveUp? || a.Mkdir? || a.Rmdir? || a.Release?
  }

  /** What nftw visits in a stretch of a run. */
  ghost function VisitsIn(names: set<string>, roots: seq<string>, s: Sys, actions: seq<Action>): seq<Visit>
    decreases actions
  {
    if actions == [] || !Enabled(names, s, actions[0]) then []
    else
      (if actions[0].Meet? then [VisitAt(s.k, Path(s.stack[|s.stack| - 1].at) + "/" + actions[0].name)] else [])
      + VisitsIn(names, roots, Apply(names, roots, s, actions[0]), actions[1..])
  }

  lemma VisitSlots(s: Sys, path: string)
    ensures TraverseOne(s.slots, VisitAt(s.k, path)) == Traversal(VisitPath(s, path).slots, false)
  {
    hide FindWatch, AddWatch, Added, ChildNames;
  }

  lemma StepSlots(names: set<string>, roots: seq<string>, s: Sys, a: Action)
    requires Enabled(names, s, a) && Traversing(a)
    ensures var t := Apply(names, roots, s, a);
            if a.Meet? then
              TraverseOne(s.slots, VisitAt(s.k, Path(s.stack[|s.stack| - 1].at) + "/" + a.name))
              == Traversal(t.slots, false)
            else t.slots == s.slots
    ensures s.stack == [] ==> !a.Meet? && Apply(names, roots, s, a).stack == []
  {
    hide TraverseOne, VisitAt, VisitPath, Handle, Restart, IsWatched, WdOf, Abandoned;
    if a.Meet? {
      VisitSlots(Crossed(s, a.name), Path(s.stack[|s.stack| - 1].at) + "/" + a.name);
    }
  }

  lemma {:induction false} NoVisits(slots: Slots)
    ensures Traverse(slots, []) == Traversal(slots, false)
  {
  }

  lemma {:induction false} FirstVisit(slots: Slots, v: Visit, rest: seq<Visit>, middle: Slots, end: Slots)
    requires TraverseOne(slots, v) == Traversal(middle, false) && Traverse(middle, rest) == Traversal(end, false)
    ensures Traverse(slots, [v] + rest) == Traversal(end, false)
  {
    hide TraverseOne;
    assert ([v] + rest)[1..] == rest;
  }

  /** The cache after a stretch of a traversal is what its visits, one after the
      other, make of it. */
  lemma {:induction false} SlotsFollowVisits(names: set<string>, roots: seq<string>, s: Sys, actions: seq<Action>,
      t: Sys)
    requires Run(names, roots, s, actions, t) && forall a: Action | a in actions :: Traversing(a)
    ensures Traverse(s.slots, VisitsIn(names, roots, s, actions)) == Traversal(t.slots, false)
    ensures s.stack == [] ==> VisitsIn(names, roots, s, actions) == []
    decreases actions
  {
    if actions != [] {
      var r := Apply(names, roots, s, actions[0]);
      StepSlots(names, roots, s, actions[0]);
      assert forall a | a in actions[1..] :: a in actions;
      SlotsFollowVisits(names, roots, r, actions[1..], t);
      hide Apply, Enabled, TraverseOne, VisitAt, Traverse;
      var rest := VisitsIn(names, roots, r, actions[1..]);
      if actions[0].Meet? {
        var v := VisitAt(s.k, Path(s.stack[|s.stack| - 1].at) + "/" + actions[0].name);
        FirstVisit(s.slots, v, rest, r.slots, t.slots);
        assert VisitsIn(names, roots, s, actions) == [v] + rest;
      } else {
        assert VisitsIn(names, roots, s, actions) == [] + rest == rest;
      }
    }
  }

  /** The pathname an event about a made directory is about. */
  ghost function MadePath(s: Sys, wd: nat, name: string): string
    requires FindWatch(s.slots, wd) >= 0
  {
    s.slots[FindWatch(s.slots, wd)].path + "/" + name
  }

  lemma HeadIsFound(names: set<string>, roots: seq<string>, s: Sys)
    requires Inv(names, roots, s) && s.queue != []
    ensures FindWatch(s.slots, s.queue[0].wd) >= 0
  {
    KnownIsFound(s, s.queue[0].wd);
  }

  lemma {:induction false} HandledMade(roots: seq<string>, s: Sys, wd: nat, name: string)
    requires s.queue != [] && s.queue[0] == Made(wd, name) && FindWatch(s.slots, wd) >= 0
    ensures PathInCache(s.slots, MadePath(s, wd, name)) ==>
              Handle(s, roots).slots == s.slots && Handle(s, roots).stack == s.stack
    ensures !PathInCache(s.slots, MadePath(s, wd, name)) ==>
              TraverseOne(s.slots, VisitAt(s.k, MadePath(s, wd, name))) == Traversal(Handle(s, roots).slots, false)
  {
    hide FindWatch, PathInCache, AddWatch, Restart, ChildNames;
  }

  lemma {:induction false} MadeStep(d: Daemon, wd: nat, name: string, next: Option<Event>, a: Answers, slots: Slots)
    requires FindWatch(d.slots, wd) >= 0
    requires if PathInCache(d.slots, PathOf(d, wd) + "/" + name) then slots == d.slots
             else Traverse(d.slots, a.visits) == Traversal(slots, false)
    ensures var ev := EntryEvent(wd, IN_CREATE, 0, name);
            Legal(ev) && Step(d, ev, next, false, a) == Took(d.(slots := slots), 1)
  {
    QuietSteps.StepArrive(d, wd, true, 0, name, next, a);
    hide Step, FindWatch, PathInCache, Traverse;
  }

  /** A made directory is handled as the event handler does, which takes the
      traversal in one go: from the event to the end of the traversal that it
      starts, whatever happens beside it, the cache becomes what the handler makes
      of it with the visits made in between. */
  lemma {:induction false} HandlingMadeIsStep(names: set<string>, roots: seq<string>, s: Sys, d: Daemon, wd: nat,
      name: string, next: Option<Event>, a: Answers, actions: seq<Action>, t: Sys)
    requires Inv(names, roots, s) && Enabled(names, s, HandleEvent) && s.queue[0] == Made(wd, name)
    requires d.slots == s.slots
    requires Run(names, roots, Handle(s, roots), actions, t) && Idle(t)
    requires forall b: Action | b in actions :: Traversing(b)
    requires FindWatch(s.slots, wd) >= 0 ==>
               a.visits == [VisitAt(s.k, MadePath(s, wd, name))] + VisitsIn(names, roots, Handle(s, roots), actions)
    ensures var ev := EntryEvent(wd, IN_CREATE, 0, name);
            Legal(ev) && Step(d, ev, next, false, a) == Took(d.(slots := t.slots), 1)
  {
    hide Inv, Handle, VisitAt, Traverse, TraverseOne, Step, FindWatch, PathInCache, VisitsIn, Run;
    HeadIsFound(names, roots, s);
    var after := Handle(s, roots);
    var rest := VisitsIn(names, roots, after, actions);
    HandledMade(roots, s, wd, name);
    SlotsFollowVisits(names, roots, after, actions, t);
    if PathInCache(s.slots, MadePath(s, wd, name)) {
      NoVisits(after.slots);
    } else {
      FirstVisit(s.slots, VisitAt(s.k, MadePath(s, wd, name)), rest, after.slots, t.slots);
    }
    MadeStep(d, wd, name, next, a, t.slots);
  }

  // --------------------------------------------------------------- all runs

  lemma StepKeeps(names: set<string>, roots: seq<string>, s: Sys, a: Action)
    requires Inv(names, roots, s) && Enabled(names, s, a)
    ensures Inv(names, roots, Apply(names, roots, s, a))
  {
    match a
    case Mkdir(at, ino) => MkdirKeeps(names, roots, s, at, ino);
    case Rmdir(at) => RmdirKeeps(names, roots, s, at);
    case Release(wd) => ReleaseKeeps(names, roots, s, wd);
    case StartRoot => StartRootKeeps(names, roots, s);
    case Meet(name) => MeetKeeps(names, roots, s, name);
    case ListingDone => ListingDoneKeeps(names, roots, s);
    case GiveUp => GiveUpKeeps(names, roots, s);
    case HandleEvent =>
      if s.queue[0].Made? {
        HandleMadeKeeps(names, roots, s);
      } else {
        HandleDeletionKeeps(names, roots, s);
      }
    case Rebuild => RestartKeeps(names, roots, s);
  }

  /** A run: steps of the program and of other processes, in any order. */
  ghost predicate Run(names: set<string>, roots: seq<string>, s: Sys, actions: seq<Action>, end: Sys)
    decreases actions
  {
    if actions == [] then end == s
    else Enabled(names, s, actions[0]) && Run(names, roots, Apply(names, roots, s, actions[0]), actions[1..], end)
  }

  lemma {:induction false} RunKeeps(names: set<string>, roots: seq<string>, s: Sys, actions: seq<Action>, end: Sys)
    requires Inv(names, roots, s) && Run(names, roots, s, actions, end)
    ensures Inv(names, roots, end)
    decreases actions
  {
    if actions != [] {
      StepKeeps(names, roots, s, actions[0]);
      RunKeeps(names, roots, Apply(names, roots, s, actions[0]), actions[1..], end);
    }
  }

  /** Nothing waits and nothing is under way: the live slots are those of the
      watched directories, each once and with its path, and those of removed
      directories that are still held. */
  ghost predicate SettledSlots(s: Sys) {
    && UniqueWds(s.slots)
    && forall w :: w in LiveSet(s.slots) <==> IsExpected(s.k, w) || (w.wd >= 0 && HeldSlot(s, w))
  }

  lemma SettledMeans(names: set<string>, roots: seq<string>, s: Sys)
    requires Inv(names, roots, s) && Idle(s) && s.queue == []
    ensures SettledSlots(s) && (s.held == map[] ==> Cached(s.k, s.slots))
    ensures AllWatched(s) <==> s.overlooked == {}
  {
    forall w: Watch | w.wd >= 0 && HeldSlot(s, w) ensures w in LiveSet(s.slots) {
      assert HeldRight(names, s, w.wd);
    }
    if s.overlooked == {} {
      forall l | l in s.k.dirs ensures IsWatched(s.k, l) {
        SettledWatched(names, roots, s, l);
      }
    } else {
      var l :| l in s.overlooked;
      assert l in s.k.dirs && !IsWatched(s.k, l);
    }
  }

  ghost predicate AllWatched(s: Sys) {
    forall l {:trigger IsWatched(s.k, l)} | l in s.k.dirs :: IsWatched(s.k, l)
  }

  lemma {:induction false} SettledWatched(names: set<string>, roots: seq<string>, s: Sys, l: Loc)
    requires Inv(names, roots, s) && Idle(s) && s.queue == [] && s.overlooked == {} && l in s.k.dirs
    ensures IsWatched(s.k, l)
    decreases |l|
  {
    if |l| > 1 {
      SettledWatched(names, roots, s, Parent(l));
    }
    assert IsWatched(s.k, l) || Due(s, l);
  }

  // ------------------------------------------------------------- the result

  /** From the first build of the cache on, in every interleaving: whenever the
      queue is empty and no traversal is under way, no directory is missed if and
      only if none is overlooked. None is doubled in any case. */
  lemma {:induction false} MissedIffOverlooked(names: set<string>, roots: seq<string>, s: Sys,
      actions: seq<Action>, end: Sys)
    requires Shape(names, roots, s)
    requires Run(names, roots, Restart(s, roots), actions, end)
    requires Idle(end) && end.queue == []
    ensures SettledSlots(end) && (end.held == map[] ==> Cached(end.k, end.slots))
    ensures AllWatched(end) <==> end.overlooked == {}
  {
    RestartKeeps(names, roots, s);
    RunKeeps(names, roots, Restart(s, roots), actions, end);
    SettledMeans(names, roots, end);
  }

  /** No directory of the run is made under a name whose removed directory is
      still held, and no traversal ends before it has met what it was to meet. */
  ghost predicate Gentle(names: set<string>, roots: seq<string>, s: Sys, actions: seq<Action>)
    decreases actions
  {
    actions == [] ||
    (Enabled(names, s, actions[0])
     && (actions[0].Mkdir? ==> actions[0].at !in s.held.Values)
     && (actions[0].GiveUp? ==> Abandoned(s) == {})
     && Gentle(names, roots, Apply(names, roots, s, actions[0]), actions[1..]))
  }

  lemma VisitOverlooksNone(s: Sys, path: string)
    requires s.overlooked == {}
    ensures VisitPath(s, path).overlooked == {} && VisitPath(s, path).held == s.held
  {
  }

  lemma StepOverlooksNone(names: set<string>, roots: seq<string>, s: Sys, a: Action)
    requires Enabled(names, s, a) && s.overlooked == {}
    requires (a.Mkdir? ==> a.at !in s.held.Values) && (a.GiveUp? ==> Abandoned(s) == {})
    ensures Apply(names, roots, s, a).overlooked == {}
    ensures s.held == map[] && !a.Rmdir? ==> Apply(names, roots, s, a).held == map[]
  {
    match a
    case StartRoot => VisitOverlooksNone(s.(pending := s.pending[1..]), Path(s.pending[0]));
    case Meet(name) =>
      var top := s.stack[|s.stack| - 1];
      var crossed := s.(stack := s.stack[..|s.stack| - 1] + [top.(todo := top.todo - {name})]);
      VisitOverlooksNone(crossed, Path(top.at) + "/" + name);
    case HandleEvent =>
      var j := FindWatch(s.slots, s.queue[0].wd);
      if j >= 0 && s.queue[0].Made? {
        VisitOverlooksNone(s.(queue := s.queue[1..]), s.slots[j].path + "/" + s.queue[0].name);
      }
    case _ =>
  }

  lemma {:induction false} GentleRun(names: set<string>, roots: seq<string>, s: Sys, actions: seq<Action>, end: Sys)
    requires Run(names, roots, s, actions, end) && Gentle(names, roots, s, actions) && s.overlooked == {}
    ensures end.overlooked == {}
    decreases actions
  {
    if actions != [] {
      StepOverlooksNone(names, roots, s, actions[0]);
      GentleRun(names, roots, Apply(names, roots, s, actions[0]), actions[1..], end);
    }
  }

  lemma {:induction false} NothingHeld(names: set<string>, roots: seq<string>, s: Sys, actions: seq<Action>, end: Sys)
    requires Run(names, roots, s, actions, end) && s.overlooked == {} && s.held == map[]
    requires forall a: Action | a in actions :: !a.Rmdir? && !a.GiveUp?
    ensures Gentle(names, roots, s, actions) && end.held == map[]
    decreases actions
  {
    if actions != [] {
      StepOverlooksNone(names, roots, s, actions[0]);
      assert forall a: Action | a in actions[1..] :: a in actions;
      NothingHeld(names, roots, Apply(names, roots, s, actions[0]), actions[1..], end);
    }
  }

  /** So with directories made and removed, but none made under a held name, and no
      traversal given up, every directory there is has its watch and exactly one
      entry, with its path. */
  lemma {:induction false} NoneMissedNoneDoubled(names: set<string>, roots: seq<string>, s: Sys, actions: seq<Action>,
      end: Sys)
    requires Shape(names, roots, s)
    requires Run(names, roots, Restart(s, roots), actions, end) && Gentle(names, roots, Restart(s, roots), actions)
    requires Idle(end) && end.queue == []
    ensures AllWatched(end) && SettledSlots(end)
    ensures end.held == map[] ==> Cached(end.k, end.slots)
  {
    MissedIffOverlooked(names, roots, s, actions, end);
    GentleRun(names, roots, Restart(s, roots), actions, end);
  }

  /** And with directories made only, so that nftw has no reason to give up, there
      is no condition. */
  lemma {:induction false} CreationsAreNeverMissed(names: set<string>, roots: seq<string>, s: Sys,
      actions: seq<Action>, end: Sys)
    requires Shape(names, roots, s)
    requires Run(names, roots, Restart(s, roots), actions, end)
    requires forall a: Action | a in actions :: !a.Rmdir? && !a.GiveUp?
    requires Idle(end) && end.queue == []
    ensures AllWatched(end) && Cached(end.k, end.slots)
  {
    NothingHeld(names, roots, Restart(s, roots), actions, end);
    NoneMissedNoneDoubled(names, roots, s, actions, end);
  }

  /** The program never meets an event whose watch it does not know. */
  lemma {:induction false} NoRebuildNeeded(names: set<string>, roots: seq<string>, s: Sys, actions: seq<Action>,
      end: Sys)
    requires Shape(names, roots, s)
    requires Run(names, roots, Restart(s, roots), actions, end) && end.queue != []
    ensures FindWatch(end.slots, end.queue[0].wd) >= 0
  {
    RestartKeeps(names, roots, s);
    RunKeeps(names, roots, Restart(s, roots), actions, end);
    HeadIsFound(names, roots, end);
  }
}
