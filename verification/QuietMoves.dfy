/** Operations that move two directories at once, or a root: those that come to two
    changes one after the other, and those that leave a directory uncached. */
module QuietMoves {
  import opened Options
  import opened Paths
  import opened WatchSlots
  import opened DirEvents
  import opened DirTree
  import opened QuietOps
  import opened QuietSteps

  // ------------------------------------------------ one event after another

  /** The kernel's answers do not change while the events are handled. */
  ghost predicate Steady(env: nat -> Answers) {
    forall i: nat, j: nat :: env(i) == env(j)
  }

  lemma {:induction false} PositionIrrelevant(d: Daemon, evs: seq<Event>, env: nat -> Answers, p: nat, q: nat)
    requires Steady(env) && AllLegal(evs)
    ensures Process(d, evs, env, p) == Process(d, evs, env, q)
    decreases |evs|
  {
    hide Step, Legal;
    if evs != [] {
      var next := if |evs| > 1 then Some(evs[1]) else None;
      assert env(p) == env(q);
      match Step(d, evs[0], next, false, env(p))
      case Took(e, n) => PositionIrrelevant(e, evs[n..], env, p + n, q + n);
      case _ =>
    }
  }

  /** An event whose successor is not the other half of a rename is handled as the
      last one would be. */
  lemma NotPaired(d: Daemon, ev: Event, next: Event, a: Answers)
    requires Legal(ev) && !Paired(ev, Some(next))
    ensures Step(d, ev, Some(next), false, a) == Step(d, ev, None, false, a)
  {
  }

  /** ev alone leads from d to e. */
  ghost predicate Alone(d: Daemon, ev: Event, a: Answers, e: Daemon) {
    Legal(ev) && Step(d, ev, None, false, a) == Took(e, 1)
  }

  lemma {:induction false} AloneThen(d: Daemon, ev: Event, rest: seq<Event>, env: nat -> Answers, e: Daemon)
    requires Alone(d, ev, env(0), e) && AllLegal(rest) && Steady(env)
    requires rest != [] ==> !Paired(ev, Some(rest[0]))
    ensures AllLegal([ev] + rest) && Process(d, [ev] + rest, env, 0) == Process(e, rest, env, 0)
  {
    if rest != [] {
      NotPaired(d, ev, rest[0], env(0));
    }
    hide Step, Legal;
    ProcessOne(d, ev, rest, env, 0);
    PositionIrrelevant(e, rest, env, 0, 1);
  }

  /** A directory leaves, of several in the trees: its event and what it leads to. */
  lemma LeaveAlone(roots: set<string>, k: Kernel, d: Daemon, at: Loc, dirBit: bool, cookie: nat, a: Answers)
    returns (e: Daemon)
    requires InSync(roots, k, d) && at in k.dirs && Without(k.dirs, at) != map[]
    requires forall wd | wd in k.watches :: wd !in a.stale
    ensures Alone(d, LeaveEvent(k, at, dirBit, cookie), a, e) && InSync(roots, Left(k, at), e)
  {
    if |at| == 1 {
      SlotOf(k, d, WdOf(k, at), at);
      LeaveRoot(roots, k, d, at, dirBit, a);
      StepMoveSelf(d, WdOf(k, at), dirBit, a);
      e := RootMoved(d, LeaveEvent(k, at, dirBit, cookie), a).d;
    } else {
      SlotOf(k, d, WdOf(k, Parent(at)), Parent(at));
      LeaveInner(roots, k, d, at, cookie, a);
      StepMovedFrom(d, WdOf(k, Parent(at)), cookie, Last(at), None, a);
      e := MovedAway(d, LeaveEvent(k, at, dirBit, cookie), None, false, a).d;
    }
  }

  /** The same with further events behind it. */
  lemma LeaveThen(roots: set<string>, k: Kernel, d: Daemon, at: Loc, dirBit: bool, cookie: nat, rest: seq<Event>,
      env: nat -> Answers)
    returns (e: Daemon)
    requires InSync(roots, k, d) && at in k.dirs && Without(k.dirs, at) != map[] && Steady(env) && AllLegal(rest)
    requires forall wd | wd in k.watches :: wd !in env(0).stale
    requires rest != [] ==> !Paired(LeaveEvent(k, at, dirBit, cookie), Some(rest[0]))
    ensures InSync(roots, Left(k, at), e) && forall wd | wd in Left(k, at).watches :: wd !in env(0).stale
    ensures var evs := [LeaveEvent(k, at, dirBit, cookie)] + rest;
            AllLegal(evs) && Process(d, evs, env, 0) == Process(e, rest, env, 0)
  {
    hide Process, Step;
    e := LeaveAlone(roots, k, d, at, dirBit, cookie, env(0));
    AloneThen(d, LeaveEvent(k, at, dirBit, cookie), rest, env, e);
  }

  lemma KernelSettled(roots: set<string>, k: Kernel, d: Daemon, at: Loc)
    requires InSync(roots, k, d) && at in k.dirs
    ensures InSyncKernel(roots, k) && WellFormed(roots, k) && ValidLoc(roots, at) && IsWatched(k, at)
    ensures |at| > 1 ==> Parent(at) in k.dirs && IsWatched(k, Parent(at))
  {
  }

  lemma KernelLeft(roots: set<string>, k: Kernel, d: Daemon, at: Loc, a: Answers)
    requires InSync(roots, k, d) && at in k.dirs && Without(k.dirs, at) != map[]
    requires forall wd | wd in k.watches :: wd !in a.stale
    ensures InSyncKernel(roots, Left(k, at))
  {
    var e := LeaveAlone(roots, k, d, at, false, 0, a);
    hide Alone;
  }

  lemma LeftKeeps(roots: set<string>, k: Kernel, at: Loc, l: Loc)
    requires WellFormed(roots, k) && l in Without(k.dirs, at) && IsWatched(k, l)
    ensures IsWatched(Left(k, at), l) && WdOf(Left(k, at), l) == WdOf(k, l)
  {
    KeptWatches(k, Without(k.dirs, at), WdOf(k, l), l);
    KeptWatches(k, Without(k.dirs, at), WdOf(Left(k, at), l), l);
  }

  // ----------------------------------------------- two changes, in agreement

  /** A rename over an empty root: one directory leaves and the root is removed. */
  lemma {:induction false} OverRootSettles(roots: set<string>, k: Kernel, d: Daemon, from: Loc, to: Loc, dirBit: bool,
      cookie: nat, env: nat -> Answers)
    requires InSync(roots, k, d) && Can(roots, k, OverRoot(from, to)) && Steady(env)
    requires forall wd | wd in k.watches :: wd !in env(0).stale
    ensures AllLegal(EventsOf(roots, k, OverRoot(from, to), dirBit, cookie))
    ensures var end := Process(d, EventsOf(roots, k, OverRoot(from, to), dirBit, cookie), env, 0);
      var k' := Left(Left(k, from), to);
      if k'.dirs == map[] then end == Gone
      else end.Alive? && !end.rebuilt && InSync(roots, k', end.d)
  {
    assert !(from <= to) && to in Without(k.dirs, from);
    LeftKeeps(roots, k, from, to);
    hide Process, Step;
    var e := LeaveThen(roots, k, d, from, dirBit, cookie, Deleted(WdOf(k, to), dirBit), env);
    RemoveSettles(roots, Left(k, from), e, to, dirBit, env);
  }

  lemma ReplaceEvents(roots: set<string>, k: Kernel, d: Daemon, at: Loc, tree: map<seq<string>, nat>, dirBit: bool,
      cookie: nat)
    requires InSync(roots, k, d) && Can(roots, k, Replace(at, tree, false))
    requires InSyncKernel(roots, Left(k, at))
    ensures var arrival := ArrivalEvent(k, at, false, cookie + 1);
      && EventsOf(roots, k, Replace(at, tree, false), dirBit, cookie) == [LeaveEvent(k, at, dirBit, cookie)] + [arrival]
      && EventsOf(roots, Left(k, at), Arrive(at, tree, false), dirBit, cookie + 1) == [arrival]
      && AllLegal([arrival]) && !Paired(LeaveEvent(k, at, dirBit, cookie), Some(arrival))
  {
    assert !(at <= Parent(at)) && Parent(at) in Left(k, at).dirs && at !in Left(k, at).dirs;
    LeftKeeps(roots, k, at, Parent(at));
  }

  /** What EventsOf asks of a kernel in agreement with the cache. */
  ghost predicate InSyncKernel(roots: set<string>, k: Kernel) {
    WellFormed(roots, k) && forall m {:trigger IsWatched(k, m)} | m in k.dirs :: IsWatched(k, m)
  }

  /** An exchange with a directory elsewhere: one leaves and the other arrives. */
  lemma {:induction false} ReplaceSettles(roots: set<string>, k: Kernel, d: Daemon, at: Loc,
      tree: map<seq<string>, nat>, dirBit: bool, cookie: nat, order: seq<Loc>, env: nat -> Answers)
    requires InSync(roots, k, d) && Can(roots, k, Replace(at, tree, false)) && Steady(env)
    requires forall wd | wd in k.watches :: wd !in env(0).stale
    requires Lists(order, Grafted(Left(k, at).dirs, at, tree), at)
    requires VisitsFaithful(Arrived(Left(k, at), at, tree), order, env(0).visits)
    ensures AllLegal(EventsOf(roots, k, Replace(at, tree, false), dirBit, cookie))
    ensures var end := Process(d, EventsOf(roots, k, Replace(at, tree, false), dirBit, cookie), env, 0);
      && end.Alive? && !end.rebuilt
      && InSync(roots, WatchAll(Arrived(Left(k, at), at, tree), order), end.d)
  {
    var k1 := Left(k, at);
    KernelSettled(roots, k, d, at);
    assert !(at <= Parent(at)) && Parent(at) in k1.dirs && at !in k1.dirs;
    KernelLeft(roots, k, d, at, env(0));
    ReplaceEvents(roots, k, d, at, tree, dirBit, cookie);
    var arrival := ArrivalEvent(k, at, false, cookie + 1);
    hide Process, Step, EventsOf, InSync, Arrived, Grafted, CanArrive, WatchAll, Lists, VisitsFaithful, AllLegal;
    var e := LeaveThen(roots, k, d, at, dirBit, cookie, [arrival], env);
    ArriveSettles(roots, k1, e, at, tree, false, dirBit, cookie + 1, order, env);
  }

  /** The same exchange with the directory from elsewhere named first: its arrival
      is passed over, since the name is cached, and then the name is given up. */
  lemma {:induction false} ReplaceFirstIsMissed(roots: set<string>, k: Kernel, d: Daemon, at: Loc,
      tree: map<seq<string>, nat>, dirBit: bool, cookie: nat, env: nat -> Answers)
    requires InSync(roots, k, d) && Can(roots, k, Replace(at, tree, true)) && Steady(env)
    requires forall wd | wd in k.watches :: wd !in env(0).stale
    ensures AllLegal(EventsOf(roots, k, Replace(at, tree, true), dirBit, cookie))
    ensures var end := Process(d, EventsOf(roots, k, Replace(at, tree, true), dirBit, cookie), env, 0);
      end.Alive? && !end.rebuilt && !PathInCache(end.d.slots, Path(at))
  {
    KernelSettled(roots, k, d, at);
    var arrival, leave := ArrivalEvent(k, at, false, cookie), LeaveEvent(k, at, dirBit, cookie + 1);
    assert EventsOf(roots, k, Replace(at, tree, true), dirBit, cookie) == [arrival] + [leave];
    assert EventsOf(roots, k, Leave(at), dirBit, cookie + 1) == [leave];
    assert !Paired(arrival, Some(leave)) && !(at <= Parent(at)) && Parent(at) in Left(k, at).dirs;
    hide Process, Step, EventsOf;
    ArrivalIgnored(roots, k, d, at, cookie, env(0));
    LeaveSettles(roots, k, d, at, dirBit, cookie + 1, env);
    AloneThen(d, arrival, [leave], env, d);
    PathCachedIff(roots, Left(k, at), Process(d, [leave], env, 0).d.slots, at);
  }

  lemma SecondLeave(roots: set<string>, k: Kernel, a: Loc, b: Loc, dirBit: bool, cookie: nat)
    requires InSyncKernel(roots, k) && a in k.dirs && b in k.dirs && !(a <= b) && !(b <= a)
    requires InSyncKernel(roots, Left(k, a))
    ensures b in Left(k, a).dirs
    ensures EventsOf(roots, Left(k, a), Leave(b), dirBit, cookie) == [LeaveEvent(k, b, dirBit, cookie)]
    ensures AllLegal([LeaveEvent(k, b, dirBit, cookie)])
  {
    LeftKeeps(roots, k, a, b);
    if |b| > 1 {
      assert !(a <= Parent(b));
      LeftKeeps(roots, k, a, Parent(b));
    }
  }

  /** Two directories leave, as two roots do that are exchanged. */
  lemma {:induction false} BothLeave(roots: set<string>, k: Kernel, d: Daemon, a: Loc, b: Loc, dirBit: bool,
      cookie: nat, second: nat, env: nat -> Answers)
    requires InSync(roots, k, d) && a in k.dirs && b in k.dirs && !(a <= b) && !(b <= a) && Steady(env)
    requires forall wd | wd in k.watches :: wd !in env(0).stale
    ensures InSyncKernel(roots, k)
    ensures var evs := [LeaveEvent(k, a, dirBit, cookie)] + [LeaveEvent(k, b, dirBit, second)];
      var k' := Left(Left(k, a), b);
      && AllLegal(evs)
      && var end := Process(d, evs, env, 0);
         if k'.dirs == map[] then end == Gone
         else end.Alive? && !end.rebuilt && InSync(roots, k', end.d)
  {
    KernelSettled(roots, k, d, a);
    KernelSettled(roots, k, d, b);
    assert b in Without(k.dirs, a);
    KernelLeft(roots, k, d, a, env(0));
    SecondLeave(roots, k, a, b, dirBit, second);
    var next := LeaveEvent(k, b, dirBit, second);
    assert !Paired(LeaveEvent(k, a, dirBit, cookie), Some(next));
    hide Process, Step, EventsOf, InSync, InSyncKernel, AllLegal;
    var e := LeaveThen(roots, k, d, a, dirBit, cookie, [next], env);
    LeaveSettles(roots, Left(k, a), e, b, dirBit, second, env);
  }

  // ------------------------------------------------- a directory is missed

  /** Some directory of the trees is not in the cache. */
  ghost predicate Misses(k: Kernel, d: Daemon) {
    exists l :: l in k.dirs && |l| > 0 && !PathInCache(d.slots, Path(l))
  }

  lemma InSyncHasAll(roots: set<string>, k: Kernel, d: Daemon, l: Loc)
    requires InSync(roots, k, d) && l in k.dirs
    ensures |l| > 0 && PathInCache(d.slots, Path(l))
  {
    PathCachedIff(roots, k, d.slots, l);
    assert IsWatched(k, l);
  }

  lemma MissesMeansNotInSync(roots: set<string>, k: Kernel, d: Daemon)
    requires Misses(k, d)
    ensures !InSync(roots, k, d)
  {
    if InSync(roots, k, d) {
      forall l | l in k.dirs ensures |l| > 0 && PathInCache(d.slots, Path(l)) {
        InSyncHasAll(roots, k, d, l);
      }
    }
  }

  /** Visits that find every directory watched and in the cache add nothing. */
  lemma {:induction false} TraverseKnown(k: Kernel, s: Slots, order: seq<Loc>)
    requires forall l | l in order :: l in k.dirs && |l| > 0 && IsWatched(k, l) && FindWatch(s, WdOf(k, l)) >= 0
    ensures Traverse(s, VisitsOf(k, order)) == Traversal(s, false)
    decreases order
  {
    if order != [] {
      assert order[0] in order;
      assert forall l | l in order[1..] :: l in order;
      TraverseKnown(k, s, order[1..]);
      var rest := VisitsOf(k, order[1..]);
      assert VisitsOf(k, order) == [VisitOf(k, order[0])] + rest;
      assert ([VisitOf(k, order[0])] + rest)[1..] == rest;
    }
  }

  /** An arrival under a cached name, or of directories that are all known. */
  lemma ArrivalIgnored(roots: set<string>, k: Kernel, d: Daemon, at: Loc, cookie: nat, a: Answers)
    requires InSync(roots, k, d) && |at| > 1 && ValidLoc(roots, at) && Parent(at) in k.dirs
    requires at !in k.dirs ==> Traverse(d.slots, a.visits) == Traversal(d.slots, false)
    ensures Alone(d, ArrivalEvent(k, at, false, cookie), a, d)
  {
    AppearStep(roots, k, d, at, false, cookie, None, a);
  }

  // ------------------------------------------ a root renamed into the trees

  /** The trees when a root has come to another root's tree, and the watches that
      are left once the program has given up those of the root. */
  function MovedIn(k: Kernel, from: Loc, to: Loc): Kernel
  {
    Renamed(k, from, to).(watches := Left(Left(k, to), from).watches)
  }

  lemma MovedInKnown(roots: set<string>, k: Kernel, d: Daemon, from: Loc, to: Loc, order: seq<Loc>, a: Answers)
    requires InSync(roots, k, d) && CanEnter(roots, k, from, to) && to !in k.dirs
    requires VisitsFaithful(Renamed(k, from, to), order, a.visits)
    ensures Traverse(d.slots, a.visits) == Traversal(d.slots, false)
  {
    var k' := Renamed(k, from, to);
    NothingThere(roots, k, d, to);
    RelocatedDirsAre(k.dirs, from, to);
    forall m | m in order ensures IsWatched(k', m) && FindWatch(d.slots, WdOf(k', m)) >= 0 {
      RelocatedIsWatched(k, from, to, k', m);
      var wd := WdOf(k', m);
      assert IsPlaced(k, wd);
      var l :| Watches(k, wd, l);
      SlotOf(k, d, wd, l);
    }
    TraverseKnown(k', d.slots, order);
  }

  /** What the events of the operation come to once the first is passed over. */
  lemma {:induction false} EnteringLeaves(roots: set<string>, k: Kernel, d: Daemon, from: Loc, to: Loc, dirBit: bool,
      cookie: nat, env: nat -> Answers)
    requires InSync(roots, k, d) && CanEnter(roots, k, from, to) && Steady(env)
    requires forall wd | wd in k.watches :: wd !in env(0).stale
    ensures var evs := [LeaveEvent(k, from, dirBit, cookie)] + DeletedIfThere(k, to, dirBit);
      && AllLegal(evs)
      && var end := Process(d, evs, env, 0);
         end.Alive? && !end.rebuilt && !PathInCache(end.d.slots, Path(to))
  {
    var k1 := Left(k, from);
    assert !(from <= Parent(to)) && Parent(to) in k1.dirs;
    assert IsWatched(k, from) && ValidLoc(roots, to);
    if to in k.dirs {
      LeftKeeps(roots, k, from, to);
      var deleted := Deleted(WdOf(k, to), dirBit);
      assert AllLegal(deleted) && !Paired(LeaveEvent(k, from, dirBit, cookie), Some(deleted[0]));
      var k2 := Left(k1, to);
      assert !(to <= Parent(to)) && Parent(to) in k2.dirs;
      hide Process, Step, ValidLoc, Path;
      var e := LeaveThen(roots, k, d, from, dirBit, cookie, deleted, env);
      RemoveSettles(roots, k1, e, to, dirBit, env);
      PathCachedIff(roots, k2, Process(e, deleted, env, 0).d.slots, to);
    } else {
      var e := LeaveThen(roots, k, d, from, dirBit, cookie, [], env);
      PathCachedIff(roots, k1, e.slots, to);
    }
  }

  lemma RootInEvents(roots: set<string>, k: Kernel, from: Loc, to: Loc, dirBit: bool, cookie: nat)
    requires InSyncKernel(roots, k) && CanEnter(roots, k, from, to)
    ensures EventsOf(roots, k, RootIn(from, to), dirBit, cookie)
         == [ArrivalEvent(k, to, false, cookie)]
            + ([LeaveEvent(k, from, dirBit, cookie)] + DeletedIfThere(k, to, dirBit))
    ensures ValidLoc(roots, to) && IsWatched(k, Parent(to)) && IsWatched(k, from)
  {
    hide DeletedIfThere, ArrivalEvent, LeaveEvent;
  }

  /** A root renamed into another root's tree: its arrival adds nothing, since its
      directories are all watched already, and then they are given up. */
  lemma {:induction false} RootInIsMissed(roots: set<string>, k: Kernel, d: Daemon, from: Loc, to: Loc, dirBit: bool,
      cookie: nat, order: seq<Loc>, env: nat -> Answers)
    requires InSync(roots, k, d) && Can(roots, k, RootIn(from, to)) && Steady(env)
    requires forall wd | wd in k.watches :: wd !in env(0).stale
    requires to !in k.dirs ==> VisitsFaithful(Renamed(k, from, to), order, env(0).visits)
    ensures AllLegal(EventsOf(roots, k, RootIn(from, to), dirBit, cookie))
    ensures to in MovedIn(k, from, to).dirs
    ensures var end := Process(d, EventsOf(roots, k, RootIn(from, to), dirBit, cookie), env, 0);
      end.Alive? && !end.rebuilt && !PathInCache(end.d.slots, Path(to))
  {
    hide Process, Step, EventsOf, VisitsFaithful, MovedIn, RelocatedDirs, AllLegal, DeletedIfThere;
    RootInEvents(roots, k, from, to, dirBit, cookie);
    RootThere(k, from, to);
    hide InSync, ValidLoc;
    var rest := [LeaveEvent(k, from, dirBit, cookie)] + DeletedIfThere(k, to, dirBit);
    if to !in k.dirs {
      MovedInKnown(roots, k, d, from, to, order, env(0));
    }
    ArrivalIgnored(roots, k, d, to, cookie, env(0));
    EnteringLeaves(roots, k, d, from, to, dirBit, cookie, env);
    AloneThen(d, ArrivalEvent(k, to, false, cookie), rest, env, d);
  }

  lemma RootThere(k: Kernel, from: Loc, to: Loc)
    requires from in k.dirs && !(to <= from)
    ensures to in MovedIn(k, from, to).dirs
  {
    RelocatedDirsAre(Without(k.dirs, to), from, to);
    assert from in Without(k.dirs, to) && Relocated(from, from, to) == to;
  }

  // ------------------------------------------------------------- exchanges

  lemma SwapThere(dirs: map<Loc, nat>, a: Loc, b: Loc)
    requires a in dirs && b in dirs && !(a <= b) && !(b <= a)
    ensures a in Swapped(dirs, a, b) && b in Swapped(dirs, a, b)
  {
    assert Swap(a, a, b) == b && Swap(b, a, b) == a;
  }

  /** The trees after an exchange; a root that was exchanged is no longer one, and
      its watches, or those of both, are given up. */
  function Exchanged(k: Kernel, a: Loc, b: Loc): Kernel {
    if |a| > 1 && |b| > 1 then k.(dirs := Swapped(k.dirs, a, b))
    else
      var k' := Left(Left(k, a), b);
      if |a| == 1 && |b| == 1 then k'
      else k'.(dirs := Without(Swapped(k.dirs, a, b), if |a| == 1 then a else b))
  }

  /** The kernel while nftw visits a root that has come to the place a: the
      directories that were at a are given up by then. */
  function Midway(k: Kernel, a: Loc, b: Loc): Kernel {
    Left(k, a).(dirs := Swapped(k.dirs, a, b))
  }

  lemma MidwayKnown(roots: set<string>, k: Kernel, e: Daemon, a: Loc, b: Loc, order: seq<Loc>, answers: Answers)
    requires WellFormed(roots, k) && InSync(roots, Left(k, a), e)
    requires a in k.dirs && b in k.dirs && !(a <= b) && !(b <= a)
    requires Lists(order, Swapped(k.dirs, a, b), a) && VisitsFaithful(Midway(k, a, b), order, answers.visits)
    ensures Traverse(e.slots, answers.visits) == Traversal(e.slots, false)
  {
    var k1, mid := Left(k, a), Midway(k, a, b);
    forall m | m in order ensures IsWatched(mid, m) && FindWatch(e.slots, WdOf(mid, m)) >= 0 {
      var l := Swap(m, a, b);
      assert m in mid.dirs && a <= m;
      assert l == b + m[|a|..] && !(a <= l) && l in k1.dirs;
      assert mid.dirs[m] == k.dirs[l] == k1.dirs[l];
      assert Watches(mid, WdOf(k1, l), m);
      assert Watches(k1, WdOf(mid, m), l);
      SlotOf(k1, e, WdOf(mid, m), l);
    }
    TraverseKnown(mid, e.slots, order);
  }

  /** An exchange of a root, moved first, with a directory of another tree. */
  lemma {:induction false} RootFirstIsMissed(roots: set<string>, k: Kernel, d: Daemon, a: Loc, b: Loc, dirBit: bool,
      cookie: nat, env: nat -> Answers)
    requires InSync(roots, k, d) && Can(roots, k, Exchange(a, b)) && |a| == 1 && |b| > 1 && Steady(env)
    requires forall wd | wd in k.watches :: wd !in env(0).stale
    ensures AllLegal(EventsOf(roots, k, Exchange(a, b), dirBit, cookie))
    ensures var end := Process(d, EventsOf(roots, k, Exchange(a, b), dirBit, cookie), env, 0);
      end.Alive? && !end.rebuilt && !PathInCache(end.d.slots, Path(b))
  {
    var arrival := ArrivalEvent(k, b, false, cookie);
    var rest := [LeaveEvent(k, a, dirBit, cookie), LeaveEvent(k, b, dirBit, cookie + 1)];
    assert EventsOf(roots, k, Exchange(a, b), dirBit, cookie) == [arrival] + rest;
    assert rest == [LeaveEvent(k, a, dirBit, cookie)] + [LeaveEvent(k, b, dirBit, cookie + 1)];
    ArrivalIgnored(roots, k, d, b, cookie, env(0));
    BothLeave(roots, k, d, a, b, dirBit, cookie, cookie + 1, env);
    AloneThen(d, arrival, rest, env, d);
    NotAfterLeaving(roots, k, a, b, b, Process(d, rest, env, 0));
  }

  /** A directory that is not a root and has left is not in the cache. */
  lemma NotAfterLeaving(roots: set<string>, k: Kernel, a: Loc, b: Loc, l: Loc, end: End)
    requires WellFormed(roots, k) && a in k.dirs && b in k.dirs && !(a <= b) && !(b <= a) && l in {a, b} && |l| > 1
    requires var k' := Left(Left(k, a), b);
      if k'.dirs == map[] then end == Gone else end.Alive? && !end.rebuilt && InSync(roots, k', end.d)
    ensures end.Alive? && !end.rebuilt && !PathInCache(end.d.slots, Path(l))
  {
    var k' := Left(Left(k, a), b);
    assert Parent(l) in k.dirs && !(a <= Parent(l)) && !(b <= Parent(l));
    assert Parent(l) in k'.dirs && l !in k'.dirs;
    PathCachedIff(roots, k', end.d.slots, l);
  }

  lemma RootSecondEvents(roots: set<string>, k: Kernel, a: Loc, b: Loc, dirBit: bool, cookie: nat)
    requires InSyncKernel(roots, k) && Can(roots, k, Exchange(a, b)) && |a| > 1 && |b| == 1
    requires InSyncKernel(roots, Left(k, a))
    ensures Parent(a) in Left(k, a).dirs && a !in Left(k, a).dirs && b in Left(k, a).dirs
    ensures var first, leave := LeaveEvent(k, a, dirBit, cookie), LeaveEvent(Left(k, a), b, dirBit, cookie + 1);
      var arrival := ArrivalEvent(Left(k, a), a, false, cookie + 1);
      && EventsOf(roots, k, Exchange(a, b), dirBit, cookie) == [first] + ([arrival] + [leave])
      && AllLegal([arrival] + [leave]) && !Paired(first, Some(arrival))
  {
    assert !(a <= Parent(a));
    LeftKeeps(roots, k, a, Parent(a));
    LeftKeeps(roots, k, a, b);
  }

  /** An arrival is passed over, and then a root leaves. */
  lemma {:induction false} ArrivedAndLeft(roots: set<string>, k: Kernel, d: Daemon, a: Loc, b: Loc, dirBit: bool,
      cookie: nat, env: nat -> Answers)
    requires InSync(roots, k, d) && b in k.dirs && |b| == 1 && Steady(env)
    requires a !in k.dirs && |a| > 1 && ValidLoc(roots, a) && Parent(a) in k.dirs && !(b <= a)
    requires forall wd | wd in k.watches :: wd !in env(0).stale
    requires Traverse(d.slots, env(0).visits) == Traversal(d.slots, false)
    ensures var evs := [ArrivalEvent(k, a, false, cookie)] + [LeaveEvent(k, b, dirBit, cookie)];
      && AllLegal(evs)
      && var end := Process(d, evs, env, 0);
         end.Alive? && !end.rebuilt && !PathInCache(end.d.slots, Path(a))
  {
    var arrival, leave := ArrivalEvent(k, a, false, cookie), LeaveEvent(k, b, dirBit, cookie);
    assert EventsOf(roots, k, Leave(b), dirBit, cookie) == [leave];
    assert !Paired(arrival, Some(leave)) && !(b <= Parent(a)) && Parent(a) in Left(k, b).dirs;
    hide Process, Step, EventsOf;
    ArrivalIgnored(roots, k, d, a, cookie, env(0));
    LeaveSettles(roots, k, d, b, dirBit, cookie, env);
    AloneThen(d, arrival, [leave], env, d);
    PathCachedIff(roots, Left(k, b), Process(d, [leave], env, 0).d.slots, a);
  }

  /** The same with the root moved second. */
  lemma {:induction false} RootSecondIsMissed(roots: set<string>, k: Kernel, d: Daemon, a: Loc, b: Loc, dirBit: bool,
      cookie: nat, order: seq<Loc>, env: nat -> Answers)
    requires InSync(roots, k, d) && Can(roots, k, Exchange(a, b)) && |a| > 1 && |b| == 1 && Steady(env)
    requires forall wd | wd in k.watches :: wd !in env(0).stale
    requires Lists(order, Swapped(k.dirs, a, b), a) && VisitsFaithful(Midway(k, a, b), order, env(0).visits)
    ensures AllLegal(EventsOf(roots, k, Exchange(a, b), dirBit, cookie))
    ensures var end := Process(d, EventsOf(roots, k, Exchange(a, b), dirBit, cookie), env, 0);
      end.Alive? && !end.rebuilt && !PathInCache(end.d.slots, Path(a))
  {
    hide Process, Step, EventsOf, InSync, InSyncKernel, VisitsFaithful, Lists, Swapped, AllLegal, Path, WellFormed;
    hide ValidLoc;
    KernelSettled(roots, k, d, a);
    assert b in Without(k.dirs, a);
    KernelLeft(roots, k, d, a, env(0));
    RootSecondEvents(roots, k, a, b, dirBit, cookie);
    var rest := [ArrivalEvent(Left(k, a), a, false, cookie + 1)] + [LeaveEvent(Left(k, a), b, dirBit, cookie + 1)];
    var e := LeaveThen(roots, k, d, a, dirBit, cookie, rest, env);
    MidwayKnown(roots, k, e, a, b, order, env(0));
    ArrivedAndLeft(roots, Left(k, a), e, a, b, dirBit, cookie + 1, env);
  }

  lemma {:induction false} RootsExchanged(roots: set<string>, k: Kernel, d: Daemon, a: Loc, b: Loc, dirBit: bool,
      cookie: nat, env: nat -> Answers)
    requires InSync(roots, k, d) && Can(roots, k, Exchange(a, b)) && |a| == 1 && |b| == 1 && Steady(env)
    requires forall wd | wd in k.watches :: wd !in env(0).stale
    ensures AllLegal(EventsOf(roots, k, Exchange(a, b), dirBit, cookie))
    ensures var end := Process(d, EventsOf(roots, k, Exchange(a, b), dirBit, cookie), env, 0);
      var k' := Exchanged(k, a, b);
      if k'.dirs == map[] then end == Gone else end.Alive? && !end.rebuilt && InSync(roots, k', end.d)
  {
    hide Process, Step, EventsOf, InSync, AllLegal, LeaveEvent;
    BothLeave(roots, k, d, a, b, dirBit, cookie, cookie + 1, env);
    RootsExchangedEvents(roots, k, a, b, dirBit, cookie);
  }

  lemma RootsExchangedEvents(roots: set<string>, k: Kernel, a: Loc, b: Loc, dirBit: bool, cookie: nat)
    requires InSyncKernel(roots, k) && Can(roots, k, Exchange(a, b)) && |a| == 1 && |b| == 1
    ensures EventsOf(roots, k, Exchange(a, b), dirBit, cookie)
         == [LeaveEvent(k, a, dirBit, cookie)] + [LeaveEvent(k, b, dirBit, cookie + 1)]
  {
    hide LeaveEvent;
  }

  // Inside the trees: the two renames are handled one after the other.

  lemma ParentSlotKept(roots: set<string>, k: Kernel, d: Daemon, a: Loc, newDir: string, l: Loc)
    requires InSync(roots, k, d) && |a| > 1 && ValidLoc(roots, a) && l in k.dirs && !(a <= l)
    ensures var e := d.(slots := Rewritten(d.slots, Path(a), newDir));
            FindWatch(e.slots, WdOf(k, l)) >= 0 && PathOf(e, WdOf(k, l)) == Path(l)
  {
    SlotOf(k, d, WdOf(k, l), l);
    BelowIffPrefix(roots, a, l);
    PathOfEntry(a);
    assert UniqueWds(d.slots);
    hide InSync, WellFormed, Below, Path, Rewritten, UniqueWds, ValidLoc;
    SlotElsewhere(d.slots, FindWatch(d.slots, WdOf(k, l)), Path(a), newDir);
  }

  /** After both rewrites nothing is left at or below b. */
  lemma NothingBelow(roots: set<string>, k: Kernel, d: Daemon, a: Loc, b: Loc)
    requires InSync(roots, k, d) && a in k.dirs && b in k.dirs && !(a <= b) && !(b <= a)
    ensures !PathInCache(Rewritten(Rewritten(d.slots, Path(a), Path(b)), Path(b), Path(a)), Path(b))
  {
    var s1 := Rewritten(d.slots, Path(a), Path(b));
    var s2 := Rewritten(s1, Path(b), Path(a));
    RewrittenMeans(d.slots, Path(a), Path(b));
    RewrittenMeans(s1, Path(b), Path(a));
    var j := PathSlot(s2, Path(b));
    if j >= 0 {
      var w := s2[j];
      assert w in LiveSet(s2) && w.path == Path(b);
      var v :| v in LiveSet(s1) && w == Watch(v.wd, Moved(v.path, Path(b), Path(a)));
      var u :| u in LiveSet(d.slots) && v == Watch(u.wd, Moved(u.path, Path(a), Path(b)));
      var l :| l in k.dirs && |l| > 0 && u.path == Path(l);
      MovedTwice(roots, l, a, b);
    }
  }

  lemma MovedTwice(roots: set<string>, l: Loc, a: Loc, b: Loc)
    requires NonNested(roots) && ValidLoc(roots, l) && ValidLoc(roots, a) && ValidLoc(roots, b)
    requires !(a <= b) && !(b <= a)
    ensures Moved(Moved(Path(l), Path(a), Path(b)), Path(b), Path(a)) != Path(b)
  {
    MovedMatchesRelocated(roots, l, a, b);
    var m := Relocated(l, a, b);
    MovedMatchesRelocated(roots, m, b, a);
    var n := Relocated(m, b, a);
    if Path(n) == Path(b) {
      PathInjective(roots, n, b);
    }
    assert b <= m ==> n[..|a|] == a;
  }

  /** An exchange inside the trees: the second rewriting takes back the first, and
      both directories end under one name. */
  lemma {:induction false} InnerExchangeIsMissed(roots: set<string>, k: Kernel, d: Daemon, a: Loc, b: Loc,
      dirBit: bool, cookie: nat, env: nat -> Answers)
    requires InSync(roots, k, d) && Can(roots, k, Exchange(a, b)) && |a| > 1 && |b| > 1
    ensures AllLegal(EventsOf(roots, k, Exchange(a, b), dirBit, cookie))
    ensures var end := Process(d, EventsOf(roots, k, Exchange(a, b), dirBit, cookie), env, 0);
      end.Alive? && !end.rebuilt && !PathInCache(end.d.slots, Path(b))
  {
    assert Parent(a) in k.dirs && Parent(b) in k.dirs && !(a <= Parent(a)) && !(a <= Parent(b));
    assert ValidLoc(roots, a) && InSyncKernel(roots, k);
    var mfa, mtb := LeaveEvent(k, a, dirBit, cookie), ArrivalEvent(k, b, false, cookie);
    var mfb, mta := LeaveEvent(k, b, dirBit, cookie + 1), ArrivalEvent(k, a, false, cookie + 1);
    assert EventsOf(roots, k, Exchange(a, b), dirBit, cookie) == [mfa, mtb] + [mfb, mta];
    var d1 := d.(slots := Rewritten(d.slots, Path(a), Path(b)));
    var d2 := d1.(slots := Rewritten(d1.slots, Path(b), Path(a)));
    RenameStep(roots, k, d, a, b, cookie, env(0));
    ParentSlotKept(roots, k, d, a, Path(b), Parent(b));
    ParentSlotKept(roots, k, d, a, Path(b), Parent(a));
    PathOfEntry(a);
    PathOfEntry(b);
    PairStep(d1, WdOf(k, Parent(b)), Last(b), WdOf(k, Parent(a)), Last(a), cookie + 1, env(2));
    NothingBelow(roots, k, d, a, b);
    hide Step, EventsOf, InSync, InSyncKernel, Pairs, Rewritten, Path;
    PairsProcess(d, d1, d2, mfa, mtb, mfb, mta, env);
  }

  lemma {:induction false} PairsProcess(d: Daemon, d1: Daemon, d2: Daemon, ev: Event, next: Event, ev2: Event,
      next2: Event, env: nat -> Answers)
    requires Pairs(d, ev, next, env(0), d1) && Pairs(d1, ev2, next2, env(2), d2)
    ensures AllLegal([ev, next] + [ev2, next2])
    ensures Process(d, [ev, next] + [ev2, next2], env, 0) == Alive(d2, false)
  {
    ProcessTwo(d1, ev2, next2, [], env, 2, d2);
    assert [ev2, next2] + [] == [ev2, next2];
    ProcessTwo(d, ev, next, [ev2, next2], env, 0, d1);
  }
}
