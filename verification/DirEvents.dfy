/** What the program does with one inotify event, and with a whole stream of
    them, as functions of the cache, the root list and the kernel's answers. */
module DirEvents {
  import opened Options
  import opened Paths
  import opened WatchSlots

  datatype Flag =
    | IN_CREATE | IN_MOVED_FROM | IN_MOVED_TO | IN_DELETE_SELF | IN_MOVE_SELF
    | IN_IGNORED | IN_Q_OVERFLOW | IN_UNMOUNT | IN_ISDIR

  /** nameLen is the padded length of the name field. */
  datatype Event = Event(wd: int, mask: set<Flag>, cookie: nat, name: string, nameLen: nat)

  const HEADER: nat := 16
  const NAME_MAX: nat := 255
  const BUF_LEN: nat := 100 * (HEADER + NAME_MAX + 1)

  function Size(ev: Event): nat {
    HEADER + ev.nameLen
  }

  /** What the kernel delivers: only an overflow has descriptor -1, and neither
      it nor IN_IGNORED reports a directory operation. */
  predicate Legal(ev: Event) {
    && ev.wd >= -1
    && ev.nameLen <= NAME_MAX + 1
    && ((ev.wd == -1 || IN_IGNORED in ev.mask) ==> ev.mask <= {IN_IGNORED, IN_Q_OVERFLOW, IN_ISDIR})
  }

  /** The program's state: the cache, the root pathnames (None once zapped) and
      the count of zapped ones. */
  datatype Daemon = Daemon(slots: Slots, roots: seq<Option<string>>, ignored: nat)

  /** The kernel's answers while one event is handled: what nftw visits for
      watchSubtree, which descriptors inotify_rm_watch refuses, and what nftw
      visits under each root if the cache is rebuilt. */
  datatype Answers = Answers(visits: seq<Visit>, stale: set<int>, rebuild: nat -> seq<Visit>)

  datatype Outcome =
    | Took(d: Daemon, events: nat)
    | Rebuilt(d: Daemon)
    | Hanging
    | Exited

  // ---------------------------------------------------------------- roots

  function FindRoot(roots: seq<Option<string>>, path: string): (j: int)
    ensures -1 <= j < |roots|
    ensures j >= 0 ==> roots[j] == Some(path) && forall i | 0 <= i < j :: roots[i] != Some(path)
    ensures j == -1 <==> Some(path) !in roots
  {
    if roots == [] then -1
    else if roots[0] == Some(path) then 0
    else
      var rest := FindRoot(roots[1..], path);
      if rest == -1 then -1 else rest + 1
  }

  predicate IsRoot(d: Daemon, path: string) {
    FindRoot(d.roots, path) >= 0
  }

  /** The events asked for when a watch is added at a path. */
  function AskedFor(d: Daemon, path: string): set<Flag> {
    {IN_CREATE, IN_MOVED_FROM, IN_MOVED_TO, IN_DELETE_SELF} + if IsRoot(d, path) then {IN_MOVE_SELF} else {}
  }

  /** zapRootDirPath on a path that is a root; the caller exits when this was
      the last one. */
  function RootZapped(d: Daemon, path: string): Daemon
    requires IsRoot(d, path)
  {
    d.(roots := d.roots[FindRoot(d.roots, path) := None], ignored := d.ignored + 1)
  }

  predicate NoRootsLeft(d: Daemon) {
    d.ignored == |d.roots|
  }

  // -------------------------------------------------------------- rebuild

  function WatchRoots(slots: Slots, roots: seq<Option<string>>, visits: nat -> seq<Visit>, j: nat): Traversal
    requires j <= |roots|
    decreases |roots| - j
  {
    if j == |roots| then Traversal(slots, false)
    else if roots[j] == None then WatchRoots(slots, roots, visits, j + 1)
    else
      var t := Traverse(slots, visits(j));
      if t.exited then t else WatchRoots(t.slots, roots, visits, j + 1)
  }

  /** reinitialize: the old cache is thrown away whatever it held. */
  function Rebuild(d: Daemon, visits: nat -> seq<Visit>): Outcome {
    var t := WatchRoots([], d.roots, visits, 0);
    if t.exited then Exited else Rebuilt(d.(slots := t.slots))
  }

  // ------------------------------------------------------------ one event

  /** The event names a descriptor the cache does not know. */
  predicate Unknown(d: Daemon, ev: Event) {
    ev.wd != -1 && IN_IGNORED !in ev.mask && FindWatch(d.slots, ev.wd) == -1
  }

  /** A rename whose second half is the very next event in the buffer. */
  predicate Paired(ev: Event, next: Option<Event>) {
    next.Some? && IN_MOVED_TO in next.value.mask && next.value.cookie == ev.cookie
  }

  function PathOf(d: Daemon, wd: int): string
    requires FindWatch(d.slots, wd) >= 0
  {
    d.slots[FindWatch(d.slots, wd)].path
  }

  function Cleared(d: Daemon, wd: int): Daemon
    requires FindWatch(d.slots, wd) >= 0
  {
    d.(slots := Emptied(d.slots, FindWatch(d.slots, wd)))
  }

  /** A directory appeared: watch its subtree unless its path is cached. */
  function Appear(d: Daemon, ev: Event, a: Answers): Outcome
    requires FindWatch(d.slots, ev.wd) >= 0
  {
    if PathInCache(d.slots, PathOf(d, ev.wd) + "/" + ev.name) then Took(d, 1)
    else
      var t := Traverse(d.slots, a.visits);
      if t.exited then Exited else Took(d.(slots := t.slots), 1)
  }

  function SelfDeleted(d: Daemon, ev: Event): Outcome
    requires FindWatch(d.slots, ev.wd) >= 0
  {
    var path := PathOf(d, ev.wd);
    if IsRoot(d, path) then
      var e := RootZapped(d, path);
      if NoRootsLeft(e) then Exited else Took(Cleared(e, ev.wd), 1)
    else Took(Cleared(d, ev.wd), 1)
  }

  function ZapOrRebuild(d: Daemon, path: string, a: Answers): Outcome {
    var z := Zapped(d.slots, path, a.stale);
    if z.count == -1 then Rebuild(d, a.rebuild) else Took(d.(slots := z.slots), 1)
  }

  function MovedAway(d: Daemon, ev: Event, next: Option<Event>, firstTry: bool, a: Answers): Outcome
    requires FindWatch(d.slots, ev.wd) >= 0
  {
    if Paired(ev, next) then
      if FindWatch(d.slots, next.value.wd) == -1 then Rebuild(d, a.rebuild)
      else
        var from, to := PathOf(d, ev.wd) + "/" + ev.name, PathOf(d, next.value.wd) + "/" + next.value.name;
        Took(d.(slots := Rewritten(d.slots, from, to)), 2)
    else if next.Some? || !firstTry then ZapOrRebuild(d, PathOf(d, ev.wd) + "/" + ev.name, a)
    else Hanging
  }

  function RootMoved(d: Daemon, ev: Event, a: Answers): Outcome
    requires FindWatch(d.slots, ev.wd) >= 0 && IsRoot(d, PathOf(d, ev.wd))
  {
    var path := PathOf(d, ev.wd);
    var e := RootZapped(d, path);
    if NoRootsLeft(e) then Exited else ZapOrRebuild(e, path, a)
  }

  /** processNextInotifyEvent. */
  function Step(d: Daemon, ev: Event, next: Option<Event>, firstTry: bool, a: Answers): (o: Outcome)
    requires Legal(ev)
    ensures o.Took? ==> o.events == 1 || (o.events == 2 && next.Some?)
    ensures o.Hanging? ==> firstTry && next.None?
  {
    if Unknown(d, ev) then Rebuild(d, a.rebuild)
    else if IN_ISDIR in ev.mask && (IN_CREATE in ev.mask || IN_MOVED_TO in ev.mask) then Appear(d, ev, a)
    else if IN_DELETE_SELF in ev.mask then SelfDeleted(d, ev)
    else if IN_MOVED_FROM in ev.mask && IN_ISDIR in ev.mask then MovedAway(d, ev, next, firstTry, a)
    else if IN_Q_OVERFLOW in ev.mask then Rebuild(d, a.rebuild)
    else if IN_UNMOUNT in ev.mask then Took(Cleared(d, ev.wd), 1)
    else if IN_MOVE_SELF in ev.mask && IsRoot(d, PathOf(d, ev.wd)) then RootMoved(d, ev, a)
    else Took(d, 1)
  }

  lemma RebuildForgets(d: Daemon, visits: nat -> seq<Visit>)
    ensures var o := Rebuild(d, visits);
      o.Rebuilt? ==> Rebuild(o.d, visits) == o
  {
  }

  lemma ZapRebuilds(d: Daemon, path: string, a: Answers)
    ensures var o := ZapOrRebuild(d, path, a);
      o.Rebuilt? ==> Rebuild(o.d, a.rebuild) == o
  {
    RebuildForgets(d, a.rebuild);
  }

  lemma MovedAwayRebuilds(d: Daemon, ev: Event, next: Option<Event>, firstTry: bool, a: Answers)
    requires FindWatch(d.slots, ev.wd) >= 0
    ensures var o := MovedAway(d, ev, next, firstTry, a);
      o.Rebuilt? ==> Rebuild(o.d, a.rebuild) == o
  {
    RebuildForgets(d, a.rebuild);
    ZapRebuilds(d, PathOf(d, ev.wd) + "/" + ev.name, a);
  }

  /** A step that rebuilds owes nothing to the cache it found. */
  lemma StepRebuilds(d: Daemon, ev: Event, next: Option<Event>, firstTry: bool, a: Answers)
    requires Legal(ev)
    ensures var o := Step(d, ev, next, firstTry, a);
      o.Rebuilt? ==> Rebuild(o.d, a.rebuild) == o
  {
    hide Rebuild, ZapOrRebuild, MovedAway;
    RebuildForgets(d, a.rebuild);
    if !Unknown(d, ev) && ev.wd >= 0 && IN_IGNORED !in ev.mask {
      MovedAwayRebuilds(d, ev, next, firstTry, a);
      if IsRoot(d, PathOf(d, ev.wd)) {
        ZapRebuilds(RootZapped(d, PathOf(d, ev.wd)), PathOf(d, ev.wd), a);
      }
    }
  }

  // ------------------------------------------- what makes the cache be rebuilt

  /** An event reports one thing, apart from its being about a directory. */
  ghost predicate ReportsOne(ev: Event) {
    forall f, g | f in ev.mask && g in ev.mask && f != IN_ISDIR && g != IN_ISDIR :: f == g
  }

  /** inotify_rm_watch refuses a descriptor cached at or below the path. */
  ghost predicate RefusedBelow(s: Slots, path: string, stale: set<int>) {
    exists w | w in LiveSet(s) :: w.wd in stale && Below(path, w.path)
  }

  /** The event, about the directory cached as dir, asks for what the program
      cannot do: to follow a rename to a directory it does not know, or to give up
      a watch the kernel does not let go of. */
  ghost predicate CannotFollow(d: Daemon, dir: string, ev: Event, next: Option<Event>, firstTry: bool, a: Answers) {
    if {IN_MOVED_FROM, IN_ISDIR} <= ev.mask then
      if Paired(ev, next) then NoSlotHas(d.slots, next.value.wd)
      else (next.Some? || !firstTry) && RefusedBelow(d.slots, dir + "/" + ev.name, a.stale)
    else
      IN_MOVE_SELF in ev.mask && Some(dir) in d.roots && d.ignored + 1 != |d.roots|
      && RefusedBelow(d.slots, dir, a.stale)
  }

  /** The queue has overflowed, the event is from a watch nobody knows of, or it
      cannot be followed. */
  ghost predicate NeedsRebuild(d: Daemon, ev: Event, next: Option<Event>, firstTry: bool, a: Answers) {
    || IN_Q_OVERFLOW in ev.mask
    || (ev.wd >= 0 && IN_IGNORED !in ev.mask && NoSlotHas(d.slots, ev.wd))
    || exists w :: w in LiveSet(d.slots) && w.wd == ev.wd && CannotFollow(d, w.path, ev, next, firstTry, a)
  }

  /** The roots a rebuild starts from: without the one that has just been moved. */
  function RootsLeft(d: Daemon, ev: Event): Daemon {
    if ev.wd >= 0 && IN_MOVE_SELF in ev.mask && FindWatch(d.slots, ev.wd) >= 0 && IsRoot(d, PathOf(d, ev.wd)) then
      RootZapped(d, PathOf(d, ev.wd))
    else d
  }

  lemma ZapRebuildsIff(d: Daemon, path: string, a: Answers)
    requires UniqueWds(d.slots)
    ensures var o := ZapOrRebuild(d, path, a);
      if RefusedBelow(d.slots, path, a.stale) then o == Rebuild(d, a.rebuild) else o.Took?
  {
    ZappedMeans(d.slots, path, a.stale);
  }

  lemma {:induction false} KnownSlot(s: Slots, wd: int, w: Watch)
    requires UniqueWds(s) && w in LiveSet(s) && w.wd == wd
    ensures FindWatch(s, wd) >= 0 && s[FindWatch(s, wd)] == w
  {
    var j :| 0 <= j < |s| && s[j] == w;
    FindIsUnique(s, j);
  }

  /** A rebuild that cannot ends the program. */
  ghost predicate Rebuilds(o: Outcome, d: Daemon, a: Answers, needed: bool) {
    if needed then o == Rebuild(d, a.rebuild) else !o.Rebuilt?
  }

  lemma KnownRebuildsIff(d: Daemon, ev: Event, next: Option<Event>, firstTry: bool, a: Answers, dir: string)
    requires Legal(ev) && ReportsOne(ev) && UniqueWds(d.slots) && (next.Some? ==> Legal(next.value))
    requires IN_Q_OVERFLOW !in ev.mask && ev.wd >= 0 && FindWatch(d.slots, ev.wd) >= 0 && dir == PathOf(d, ev.wd)
    ensures Rebuilds(Step(d, ev, next, firstTry, a), RootsLeft(d, ev), a, CannotFollow(d, dir, ev, next, firstTry, a))
  {
    hide Rebuild, ZapOrRebuild, RefusedBelow, UniqueWds, Rewritten;
    if {IN_MOVED_FROM, IN_ISDIR} <= ev.mask {
      ZapRebuildsIff(d, dir + "/" + ev.name, a);
      if Paired(ev, next) {
        FindWatchMeans(d.slots, next.value.wd);
      }
    } else if IN_MOVE_SELF in ev.mask && IsRoot(d, dir) {
      ZapRebuildsIff(RootZapped(d, dir), dir, a);
    }
  }

  /** The program rebuilds, or exits trying, exactly on an overflow, on an event
      from an unknown watch, and on one it cannot follow. */
  lemma {:induction false} RebuildsIffNeeded(d: Daemon, ev: Event, next: Option<Event>, firstTry: bool, a: Answers)
    requires Legal(ev) && ReportsOne(ev) && UniqueWds(d.slots) && (next.Some? ==> Legal(next.value))
    ensures Rebuilds(Step(d, ev, next, firstTry, a), RootsLeft(d, ev), a, NeedsRebuild(d, ev, next, firstTry, a))
  {
    if IN_Q_OVERFLOW !in ev.mask && ev.wd >= 0 {
      FindWatchMeans(d.slots, ev.wd);
      if FindWatch(d.slots, ev.wd) >= 0 {
        var w := d.slots[FindWatch(d.slots, ev.wd)];
        assert w in LiveSet(d.slots);
        hide Step, Rebuild, CannotFollow;
        KnownRebuildsIff(d, ev, next, firstTry, a, w.path);
        forall v | v in LiveSet(d.slots) && v.wd == ev.wd ensures v == w {
          KnownSlot(d.slots, ev.wd, v);
        }
      }
    }
  }

  /** Unmounting takes exactly the entry of the directory unmounted. */
  lemma UnmountMeans(d: Daemon, ev: Event, next: Option<Event>, firstTry: bool, a: Answers, w: Watch)
    requires Legal(ev) && ReportsOne(ev) && IN_UNMOUNT in ev.mask
    requires UniqueWds(d.slots) && w in LiveSet(d.slots) && w.wd == ev.wd
    ensures var o := Step(d, ev, next, firstTry, a);
      && o.Took? && o.events == 1 && o.d == d.(slots := o.d.slots)
      && UniqueWds(o.d.slots) && LiveSet(o.d.slots) == LiveSet(d.slots) - {w}
  {
    KnownSlot(d.slots, ev.wd, w);
    EmptiedMeans(d.slots, FindWatch(d.slots, ev.wd));
  }

  /** A rebuild ends the program exactly if a watch is refused under some root. */
  lemma {:induction false} RebuildExitsIff(d: Daemon, visits: nat -> seq<Visit>)
    ensures Rebuild(d, visits).Exited? <==>
              exists j: nat :: j < |d.roots| && d.roots[j].Some? && SomeRefused(visits(j))
  {
    WatchRootsExits([], d.roots, visits, 0);
  }

  lemma {:induction false} WatchRootsExits(slots: Slots, roots: seq<Option<string>>, visits: nat -> seq<Visit>, j: nat)
    requires UniqueWds(slots) && j <= |roots|
    ensures WatchRoots(slots, roots, visits, j).exited <==>
              exists i: nat :: j <= i < |roots| && roots[i].Some? && SomeRefused(visits(i))
    decreases |roots| - j
  {
    hide SomeRefused, Traverse, UniqueWds;
    if j < |roots| {
      if roots[j] == None {
        WatchRootsExits(slots, roots, visits, j + 1);
      } else {
        TraverseMeans(slots, visits(j));
        TraverseKeepsUnique(slots, visits(j));
        if !Traverse(slots, visits(j)).exited {
          WatchRootsExits(Traverse(slots, visits(j)).slots, roots, visits, j + 1);
        }
      }
    }
  }

  /** The event, about the directory cached as dir, ends the program: a watch on
      what has appeared is refused, or the last root is gone. */
  ghost predicate EndsProgram(d: Daemon, dir: string, ev: Event, a: Answers) {
    if IN_ISDIR in ev.mask && (IN_CREATE in ev.mask || IN_MOVED_TO in ev.mask) then
      SomeRefused(a.visits) && forall w | w in LiveSet(d.slots) :: w.path != dir + "/" + ev.name
    else
      (IN_DELETE_SELF in ev.mask || IN_MOVE_SELF in ev.mask) && Some(dir) in d.roots && d.ignored + 1 == |d.roots|
  }

  lemma CachedPath(s: Slots, path: string)
    ensures PathInCache(s, path) <==> exists w | w in LiveSet(s) :: w.path == path
  {
    var j := PathSlot(s, path);
    if j >= 0 {
      assert s[j] in LiveSet(s);
    }
    if w :| w in LiveSet(s) && w.path == path {
      var i :| 0 <= i < |s| && s[i] == w;
      assert HasPath(s[i], path);
    }
  }

  lemma KnownExitsIff(d: Daemon, ev: Event, next: Option<Event>, firstTry: bool, a: Answers, dir: string)
    requires Legal(ev) && ReportsOne(ev) && UniqueWds(d.slots) && (next.Some? ==> Legal(next.value))
    requires IN_Q_OVERFLOW !in ev.mask && ev.wd >= 0 && FindWatch(d.slots, ev.wd) >= 0 && dir == PathOf(d, ev.wd)
    requires !CannotFollow(d, dir, ev, next, firstTry, a)
    ensures Step(d, ev, next, firstTry, a).Exited? <==> EndsProgram(d, dir, ev, a)
  {
    hide Rebuild, ZapOrRebuild, RefusedBelow, UniqueWds, Rewritten, Traverse, SomeRefused, PathInCache;
    CachedPath(d.slots, dir + "/" + ev.name);
    TraverseMeans(d.slots, a.visits);
    if {IN_MOVED_FROM, IN_ISDIR} <= ev.mask {
      ZapRebuildsIff(d, dir + "/" + ev.name, a);
      if Paired(ev, next) {
        FindWatchMeans(d.slots, next.value.wd);
      }
    } else if IN_MOVE_SELF in ev.mask && IsRoot(d, dir) {
      ZapRebuildsIff(RootZapped(d, dir), dir, a);
    }
  }

  /** The program exits exactly when a watch is refused in a traversal it has to
      make, or when the last root is gone. */
  lemma {:induction false} ExitsIff(d: Daemon, ev: Event, next: Option<Event>, firstTry: bool, a: Answers)
    requires Legal(ev) && ReportsOne(ev) && UniqueWds(d.slots) && (next.Some? ==> Legal(next.value))
    ensures Step(d, ev, next, firstTry, a).Exited? <==>
              if NeedsRebuild(d, ev, next, firstTry, a) then
                exists j: nat :: j < |d.roots| && RootsLeft(d, ev).roots[j].Some? && SomeRefused(a.rebuild(j))
              else IN_IGNORED !in ev.mask
                   && exists w | w in LiveSet(d.slots) :: w.wd == ev.wd && EndsProgram(d, w.path, ev, a)
  {
    RebuildsIffNeeded(d, ev, next, firstTry, a);
    if NeedsRebuild(d, ev, next, firstTry, a) {
      RebuildExitsIff(RootsLeft(d, ev), a.rebuild);
    } else if ev.wd >= 0 && IN_IGNORED !in ev.mask {
      FindWatchMeans(d.slots, ev.wd);
      var w := d.slots[FindWatch(d.slots, ev.wd)];
      assert w in LiveSet(d.slots);
      hide Step, EndsProgram, CannotFollow;
      KnownExitsIff(d, ev, next, firstTry, a, w.path);
      forall v | v in LiveSet(d.slots) && v.wd == ev.wd ensures v == w {
        KnownSlot(d.slots, ev.wd, v);
      }
    }
  }

  // ---------------------------------------------------------- whole stream

  ghost predicate AllLegal(evs: seq<Event>) {
    forall i | 0 <= i < |evs| :: Legal(evs[i])
  }

  /** How handling a stream ends; a rebuild drops the rest of the stream, since
      it belonged to the closed inotify instance. */
  datatype End = Alive(d: Daemon, rebuilt: bool) | Gone

  /** The stream handled with every event seeing its successor: what the
      program does apart from the way read() cuts the stream. */
  function Process(d: Daemon, evs: seq<Event>, env: nat -> Answers, pos: nat): End
    requires AllLegal(evs)
    decreases |evs|
  {
    if evs == [] then Alive(d, false)
    else
      var next := if |evs| > 1 then Some(evs[1]) else None;
      match Step(d, evs[0], next, false, env(pos))
      case Took(e, n) => Process(e, evs[n..], env, pos + n)
      case Rebuilt(e) => Alive(e, true)
      case Exited => Gone
  }

  /** A rebuild is the last thing done for a stream: what was queued behind the
      event is not looked at. */
  lemma {:induction false} RebuildDropsTheRest(d: Daemon, evs: seq<Event>, env: nat -> Answers, pos: nat)
    requires AllLegal(evs) && evs != [] && ReportsOne(evs[0]) && UniqueWds(d.slots)
    requires NeedsRebuild(d, evs[0], if |evs| > 1 then Some(evs[1]) else None, false, env(pos))
    ensures Process(d, evs, env, pos)
         == match Rebuild(RootsLeft(d, evs[0]), env(pos).rebuild)
            case Rebuilt(e) => Alive(e, true)
            case _ => Gone
  {
    var next := if |evs| > 1 then Some(evs[1]) else None;
    RebuildsIffNeeded(d, evs[0], next, false, env(pos));
    hide NeedsRebuild, Step;
  }

  /** Reading ahead matters only for a hanging IN_MOVED_FROM. */
  lemma OnlyHangingLooksAhead(d: Daemon, ev: Event, next: Option<Event>, firstTry: bool, a: Answers)
    requires Legal(ev)
    requires !Step(d, ev, None, firstTry, a).Hanging?
    requires firstTry || next.None?
    ensures Step(d, ev, None, firstTry, a) == Step(d, ev, next, false, a)
  {
  }

  lemma SeenSuccessorSettles(d: Daemon, ev: Event, next: Option<Event>, firstTry: bool, a: Answers)
    requires Legal(ev) && next.Some?
    ensures Step(d, ev, next, firstTry, a) == Step(d, ev, next, false, a)
  {
  }

  // ---------------------------------------------- what every run preserves

  lemma {:induction false} WatchRootsKeepsUnique(slots: Slots, roots: seq<Option<string>>, visits: nat -> seq<Visit>,
      j: nat)
    requires UniqueWds(slots) && j <= |roots|
    ensures UniqueWds(WatchRoots(slots, roots, visits, j).slots)
    decreases |roots| - j
  {
    if j < |roots| {
      if roots[j] == None {
        WatchRootsKeepsUnique(slots, roots, visits, j + 1);
      } else {
        TraverseKeepsUnique(slots, visits(j));
        WatchRootsKeepsUnique(Traverse(slots, visits(j)).slots, roots, visits, j + 1);
      }
    }
  }

  lemma RebuildIsUnique(d: Daemon, visits: nat -> seq<Visit>)
    ensures Rebuild(d, visits).Rebuilt? ==> UniqueWds(Rebuild(d, visits).d.slots)
  {
    WatchRootsKeepsUnique([], d.roots, visits, 0);
  }

  lemma ZapKeepsUnique(d: Daemon, path: string, a: Answers)
    requires UniqueWds(d.slots)
    ensures var o := ZapOrRebuild(d, path, a);
      (o.Took? || o.Rebuilt?) ==> UniqueWds(o.d.slots)
  {
    ZappedMeans(d.slots, path, a.stale);
    RebuildIsUnique(d, a.rebuild);
  }

  ghost predicate OutcomeUnique(o: Outcome) {
    (o.Took? || o.Rebuilt?) ==> UniqueWds(o.d.slots)
  }

  lemma SelfDeletedKeepsUnique(d: Daemon, ev: Event)
    requires UniqueWds(d.slots) && ev.wd >= 0 && FindWatch(d.slots, ev.wd) >= 0
    ensures OutcomeUnique(SelfDeleted(d, ev))
  {
    EmptiedMeans(d.slots, FindWatch(d.slots, ev.wd));
  }

  lemma MovedAwayKeepsUnique(d: Daemon, ev: Event, next: Option<Event>, firstTry: bool, a: Answers)
    requires UniqueWds(d.slots) && FindWatch(d.slots, ev.wd) >= 0
    ensures OutcomeUnique(MovedAway(d, ev, next, firstTry, a))
  {
    RebuildIsUnique(d, a.rebuild);
    var from := PathOf(d, ev.wd) + "/" + ev.name;
    ZapKeepsUnique(d, from, a);
    if Paired(ev, next) && FindWatch(d.slots, next.value.wd) >= 0 {
      RewrittenMeans(d.slots, from, PathOf(d, next.value.wd) + "/" + next.value.name);
    }
  }

  lemma RootMovedKeepsUnique(d: Daemon, ev: Event, a: Answers)
    requires UniqueWds(d.slots) && FindWatch(d.slots, ev.wd) >= 0 && IsRoot(d, PathOf(d, ev.wd))
    ensures OutcomeUnique(RootMoved(d, ev, a))
  {
    ZapKeepsUnique(RootZapped(d, PathOf(d, ev.wd)), PathOf(d, ev.wd), a);
  }

  lemma StepKeepsUnique(d: Daemon, ev: Event, next: Option<Event>, firstTry: bool, a: Answers)
    requires Legal(ev) && UniqueWds(d.slots)
    ensures OutcomeUnique(Step(d, ev, next, firstTry, a))
  {
    RebuildIsUnique(d, a.rebuild);
    if FindWatch(d.slots, ev.wd) >= 0 && ev.wd >= 0 {
      TraverseKeepsUnique(d.slots, a.visits);
      SelfDeletedKeepsUnique(d, ev);
      MovedAwayKeepsUnique(d, ev, next, firstTry, a);
      EmptiedMeans(d.slots, FindWatch(d.slots, ev.wd));
      if IsRoot(d, PathOf(d, ev.wd)) {
        RootMovedKeepsUnique(d, ev, a);
      }
    }
  }

  /** Whatever events arrive, in whatever order, and whatever the kernel
      answers, no two live slots ever hold the same watch descriptor. */
  lemma {:induction false} ProcessKeepsUnique(d: Daemon, evs: seq<Event>, env: nat -> Answers, pos: nat)
    requires AllLegal(evs) && UniqueWds(d.slots)
    ensures var end := Process(d, evs, env, pos);
      end.Alive? ==> UniqueWds(end.d.slots)
    decreases |evs|
  {
    hide Step, Legal, UniqueWds;
    if evs != [] {
      var next := if |evs| > 1 then Some(evs[1]) else None;
      StepKeepsUnique(d, evs[0], next, false, env(pos));
      var o := Step(d, evs[0], next, false, env(pos));
      if o.Took? {
        ProcessKeepsUnique(o.d, evs[o.events..], env, pos + o.events);
      }
    }
  }

  /** One stream after another, as each rebuild opens a new inotify instance. */
  datatype Stream = Stream(evs: seq<Event>, env: nat -> Answers)

  function Session(d: Daemon, streams: seq<Stream>): End
    requires forall s | s in streams :: AllLegal(s.evs)
    decreases streams
  {
    if streams == [] then Alive(d, false)
    else
      var end := Process(d, streams[0].evs, streams[0].env, 0);
      if end.Gone? then Gone else Session(end.d, streams[1..])
  }

  /** Reachability from the first build of the cache: no reachable cache has
      two live slots with one descriptor. */
  lemma {:induction false} SessionKeepsUnique(d: Daemon, streams: seq<Stream>)
    requires forall s | s in streams :: AllLegal(s.evs)
    requires UniqueWds(d.slots)
    ensures Session(d, streams).Alive? ==> UniqueWds(Session(d, streams).d.slots)
    decreases streams
  {
    if streams != [] {
      ProcessKeepsUnique(d, streams[0].evs, streams[0].env, 0);
      var end := Process(d, streams[0].evs, streams[0].env, 0);
      if end.Alive? {
        SessionKeepsUnique(end.d, streams[1..]);
      }
    }
  }

  lemma {:induction false} ReachableCachesAreUnique(d: Daemon, first: nat -> seq<Visit>, streams: seq<Stream>)
    requires forall s | s in streams :: AllLegal(s.evs)
    ensures var built := Rebuild(d, first);
      built.Rebuilt? && Session(built.d, streams).Alive? ==> UniqueWds(Session(built.d, streams).d.slots)
  {
    RebuildIsUnique(d, first);
    var built := Rebuild(d, first);
    if built.Rebuilt? {
      SessionKeepsUnique(built.d, streams);
    }
  }
}
