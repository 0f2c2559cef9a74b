/** The watches ask for every event that the program's runs rest on. */
module AskedEvents {
  import opened Paths
  import opened WatchSlots
  import opened DirEvents
  import opened DirTree
  import opened QuietOps
  import CreationRace

  /** The event is one that the watch it comes from was set to ask for; IN_IGNORED
      comes in any case. */
  ghost predicate Asked(k: Kernel, d: Daemon, ev: Event) {
    IN_IGNORED in ev.mask
    || exists l :: ev.wd >= 0 && l in k.dirs && |l| > 0 && Watches(k, ev.wd, l)
         && ev.mask - {IN_ISDIR} <= AskedFor(d, Path(l))
  }

  lemma EntryAsked(k: Kernel, d: Daemon, dir: Loc, ev: Event)
    requires dir in k.dirs && |dir| > 0 && IsWatched(k, dir) && ev.wd == WdOf(k, dir)
    requires exists f :: f in {IN_CREATE, IN_MOVED_FROM, IN_MOVED_TO, IN_DELETE_SELF} && ev.mask <= {f, IN_ISDIR}
    ensures Asked(k, d, ev)
  {
    assert Watches(k, ev.wd, dir);
    assert ev.mask - {IN_ISDIR} <= AskedFor(d, Path(dir));
  }

  lemma LeaveAsked(roots: set<string>, k: Kernel, d: Daemon, at: Loc, dirBit: bool, cookie: nat)
    requires InSync(roots, k, d) && at in k.dirs
    ensures Asked(k, d, LeaveEvent(k, at, dirBit, cookie))
  {
    var ev := LeaveEvent(k, at, dirBit, cookie);
    if |at| == 1 {
      OwnMovesAskedForRoots(roots, k, d, at);
      assert IsWatched(k, at) && Watches(k, ev.wd, at);
    } else {
      assert IsWatched(k, Parent(at)) && IN_MOVED_FROM in ev.mask;
      EntryAsked(k, d, Parent(at), ev);
    }
  }

  lemma ArrivalAsked(k: Kernel, d: Daemon, at: Loc, created: bool, cookie: nat)
    requires |at| > 1 && Parent(at) in k.dirs && IsWatched(k, Parent(at))
    ensures Asked(k, d, ArrivalEvent(k, at, created, cookie))
  {
    var ev := ArrivalEvent(k, at, created, cookie);
    var flag := if created then IN_CREATE else IN_MOVED_TO;
    assert ev.mask <= {flag, IN_ISDIR};
    EntryAsked(k, d, Parent(at), ev);
  }

  lemma DeletedAsked(roots: set<string>, k: Kernel, d: Daemon, l: Loc, dirBit: bool)
    requires InSync(roots, k, d) && |l| > 0
    ensures forall ev | ev in DeletedIfThere(k, l, dirBit) :: Asked(k, d, ev)
  {
    if l in k.dirs {
      var evs := Deleted(WdOf(k, l), dirBit);
      assert IsWatched(k, l) && evs[0].mask <= {IN_DELETE_SELF, IN_ISDIR};
      EntryAsked(k, d, l, evs[0]);
      assert forall ev | ev in evs :: ev == evs[0] || ev == evs[1];
    }
  }

  lemma HalfAsked(roots: set<string>, k: Kernel, d: Daemon, from: Loc, to: Loc, dirBit: bool, cookie: nat)
    requires InSync(roots, k, d) && from in k.dirs && to in k.dirs
    ensures forall ev | ev in HalfEvents(k, from, to, dirBit, cookie) :: Asked(k, d, ev)
  {
    LeaveAsked(roots, k, d, from, dirBit, cookie);
    if |to| > 1 {
      assert Parent(to) in k.dirs && IsWatched(k, Parent(to));
      ArrivalAsked(k, d, to, false, cookie);
    }
    hide Asked, InSync;
  }

  lemma OtherAsked(roots: set<string>, k: Kernel, d: Daemon, dir: Loc, flag: Flag, name: string, cookie: nat)
    requires InSync(roots, k, d) && dir in k.dirs && flag in {IN_CREATE, IN_MOVED_FROM, IN_MOVED_TO}
    ensures Asked(k, d, Event(WdOf(k, dir), {flag}, cookie, name, Padded(name)))
  {
    var ev := Event(WdOf(k, dir), {flag}, cookie, name, Padded(name));
    assert IsWatched(k, dir) && |dir| > 0 && ev.mask <= {flag, IN_ISDIR};
    EntryAsked(k, d, dir, ev);
  }

  lemma RenameAsked(roots: set<string>, k: Kernel, d: Daemon, from: Loc, to: Loc, dirBit: bool, cookie: nat)
    requires InSync(roots, k, d) && CanRename(roots, k, from, to)
    ensures Asked(k, d, EntryEvent(WdOf(k, Parent(from)), IN_MOVED_FROM, cookie, Last(from)))
    ensures Asked(k, d, EntryEvent(WdOf(k, Parent(to)), IN_MOVED_TO, cookie, Last(to)))
  {
    LeaveAsked(roots, k, d, from, dirBit, cookie);
    ArrivalAsked(k, d, to, false, cookie);
  }

  lemma ReplaceAsked(roots: set<string>, k: Kernel, d: Daemon, at: Loc, dirBit: bool, cookie: nat)
    requires InSync(roots, k, d) && at in k.dirs && |at| > 1
    ensures IsWatched(k, Parent(at))
    ensures Asked(k, d, LeaveEvent(k, at, dirBit, cookie)) && Asked(k, d, LeaveEvent(k, at, dirBit, cookie + 1))
    ensures Asked(k, d, ArrivalEvent(k, at, false, cookie)) && Asked(k, d, ArrivalEvent(k, at, false, cookie + 1))
  {
    LeaveAsked(roots, k, d, at, dirBit, cookie);
    LeaveAsked(roots, k, d, at, dirBit, cookie + 1);
    ArrivalAsked(k, d, at, false, cookie);
    ArrivalAsked(k, d, at, false, cookie + 1);
  }

  lemma MoveOutAsked(roots: set<string>, k: Kernel, d: Daemon, op: Op, dirBit: bool, cookie: nat)
    requires InSync(roots, k, d) && Can(roots, k, op) && (op.Leave? || op.OverRoot? || op.Replace?)
    ensures forall ev | ev in EventsOf(roots, k, op, dirBit, cookie) :: Asked(k, d, ev)
  {
    hide Asked, LeaveEvent, ArrivalEvent, DeletedIfThere;
    match op
    case Leave(at) => LeaveAsked(roots, k, d, at, dirBit, cookie);
    case OverRoot(from, to) =>
      LeaveAsked(roots, k, d, from, dirBit, cookie);
      DeletedAsked(roots, k, d, to, dirBit);
    case Replace(at, _, _) => ReplaceAsked(roots, k, d, at, dirBit, cookie);
  }

  lemma MoveInAsked(roots: set<string>, k: Kernel, d: Daemon, op: Op, dirBit: bool, cookie: nat)
    requires InSync(roots, k, d) && Can(roots, k, op) && (op.Arrive? || op.Rename? || op.RootIn?)
    ensures forall ev | ev in EventsOf(roots, k, op, dirBit, cookie) :: Asked(k, d, ev)
  {
    hide Asked, LeaveEvent, ArrivalEvent, DeletedIfThere, EntryEvent;
    match op
    case Arrive(at, _, created) =>
      ArrivalAsked(k, d, at, created, cookie);
      DeletedAsked(roots, k, d, at, dirBit);
    case Rename(from, to) =>
      RenameAsked(roots, k, d, from, to, dirBit, cookie);
      DeletedAsked(roots, k, d, to, dirBit);
    case RootIn(from, to) =>
      LeaveAsked(roots, k, d, from, dirBit, cookie);
      ArrivalAsked(k, d, to, false, cookie);
      DeletedAsked(roots, k, d, to, dirBit);
  }

  /** Every event that these operations rest on is one the program has asked for:
      nothing is relied on that would not be sent. */
  lemma EventsAreAskedFor(roots: set<string>, k: Kernel, d: Daemon, op: Op, dirBit: bool, cookie: nat)
    requires InSync(roots, k, d) && Can(roots, k, op)
    ensures forall ev | ev in EventsOf(roots, k, op, dirBit, cookie) :: Asked(k, d, ev)
  {
    hide Asked, LeaveEvent, ArrivalEvent, DeletedIfThere, HalfEvents;
    match op
    case Remove(at) => DeletedAsked(roots, k, d, at, dirBit);
    case Exchange(a, b) =>
      HalfAsked(roots, k, d, a, b, dirBit, cookie);
      HalfAsked(roots, k, d, b, a, dirBit, cookie + 1);
    case Other(dir, flag, name) => OtherAsked(roots, k, d, dir, flag, name, cookie);
    case Leave(_) => MoveOutAsked(roots, k, d, op, dirBit, cookie);
    case OverRoot(_, _) => MoveOutAsked(roots, k, d, op, dirBit, cookie);
    case Replace(_, _, _) => MoveOutAsked(roots, k, d, op, dirBit, cookie);
    case _ => MoveInAsked(roots, k, d, op, dirBit, cookie);
  }

  // ---------------------------------- the notes queued during a traversal

  /** The inotify event that a note stands for. */
  function EventOf(n: CreationRace.Note): Event {
    match n
    case Made(wd, name) => EntryEvent(wd, IN_CREATE, 0, name)
    case Deletion(wd) => Deleted(wd, false)[0]
  }

  /** Every queued event is one that its watch, set at the path in its slot, was
      asked for. */
  lemma NotesAreAskedFor(names: set<string>, roots: seq<string>, s: CreationRace.Sys, d: Daemon, n: CreationRace.Note)
    requires CreationRace.Inv(names, roots, s) && n in s.queue
    ensures exists w | w in LiveSet(s.slots) ::
              w.wd == n.wd && EventOf(n).mask - {IN_ISDIR} <= AskedFor(d, w.path)
  {
    var i :| 0 <= i < |s.queue| && s.queue[i] == n;
    assert CreationRace.Known(s, n.wd);
    var w :| w in LiveSet(s.slots) && w.wd == n.wd;
    assert EventOf(n).mask - {IN_ISDIR} <= {IN_CREATE, IN_DELETE_SELF};
  }
}
