/** One filesystem operation at a time: what it does to the trees, which events
    the kernel queues for it, and that handling those events brings the cache
    back into agreement with the trees. */
module QuietOps {
  import opened Options
  import opened Paths
  import opened WatchSlots
  import opened DirEvents
  import opened DirTree

  /** Arrive: mkdir (created) or a rename into the trees of a subtree, given by
      its relative locations. Remove: rmdir. Leave: a rename out of the trees.
      RootIn: a rename of a root into another root's tree. OverRoot: a rename over
      an empty root. Replace: an exchange with a directory elsewhere, which the call
      may name first or second. Exchange: an exchange of two directories of the
      trees. Other: an event about something that is not a directory. */
  datatype Op =
    | Arrive(at: Loc, tree: map<seq<string>, nat>, created: bool)
    | Remove(at: Loc)
    | Rename(from: Loc, to: Loc)
    | Leave(at: Loc)
    | RootIn(from: Loc, to: Loc)
    | OverRoot(from: Loc, to: Loc)
    | Replace(at: Loc, tree: map<seq<string>, nat>, outsideFirst: bool)
    | Exchange(a: Loc, b: Loc)
    | Other(dir: Loc, flag: Flag, name: string)

  // ------------------------------------------------------------- the trees

  /** No directory is strictly inside l. */
  ghost predicate IsEmptyAt(dirs: map<Loc, nat>, l: Loc) {
    forall m | m in dirs && l <= m :: m == l
  }

  function Without(dirs: map<Loc, nat>, at: Loc): map<Loc, nat> {
    map l | l in dirs && !(at <= l) :: dirs[l]
  }

  function RelocatedDirs(dirs: map<Loc, nat>, from: Loc, to: Loc): map<Loc, nat>
    requires forall l | l in dirs :: !(to <= l)
  {
    map m | m in (set l | l in dirs :: Relocated(l, from, to)) && Relocated(m, to, from) in dirs
      :: dirs[Relocated(m, to, from)]
  }

  function Grafted(dirs: map<Loc, nat>, at: Loc, tree: map<seq<string>, nat>): map<Loc, nat> {
    map m | m in dirs.Keys + (set s | s in tree :: at + s) && (if at <= m then m[|at|..] in tree else m in dirs)
      :: if at <= m then tree[m[|at|..]] else dirs[m]
  }

  function Outer(s: seq<string>): seq<string>
    requires s != []
  {
    s[..|s| - 1]
  }

  ghost predicate CanArrive(roots: set<string>, k: Kernel, at: Loc, tree: map<seq<string>, nat>, created: bool) {
    && |at| > 1 && ValidLoc(roots, at) && Parent(at) in k.dirs && IsEmptyAt(k.dirs, at)
    && [] in tree
    && (forall s | s in tree :: Names(s))
    && (forall s {:trigger Outer(s)} | s in tree && s != [] :: Outer(s) in tree)
    && (forall s, t | s in tree && t in tree && tree[s] == tree[t] :: s == t)
    && tree.Values !! k.dirs.Values && tree.Values !! k.watches.Values
    && (created ==> tree.Keys == {[]} && at !in k.dirs)
  }

  ghost predicate CanRename(roots: set<string>, k: Kernel, from: Loc, to: Loc) {
    && |from| > 1 && from in k.dirs
    && |to| > 1 && ValidLoc(roots, to) && Parent(to) in k.dirs && IsEmptyAt(k.dirs, to)
    && !(from <= to)
  }

  ghost predicate CanEnter(roots: set<string>, k: Kernel, from: Loc, to: Loc) {
    && |from| == 1 && from in k.dirs
    && |to| > 1 && ValidLoc(roots, to) && Parent(to) in k.dirs && IsEmptyAt(k.dirs, to)
    && !(from <= to)
  }

  /** The trees without a directory that has left. */
  function Left(k: Kernel, at: Loc): Kernel {
    Kept(k, Without(k.dirs, at))
  }

  ghost predicate Can(roots: set<string>, k: Kernel, op: Op) {
    match op
    case Arrive(at, tree, created) => CanArrive(roots, k, at, tree, created)
    case Remove(at) => at in k.dirs && IsEmptyAt(k.dirs, at)
    case Rename(from, to) => CanRename(roots, k, from, to)
    case Leave(at) => at in k.dirs
    case RootIn(from, to) => CanEnter(roots, k, from, to)
    case OverRoot(from, to) => from in k.dirs && |to| == 1 && to in k.dirs && IsEmptyAt(k.dirs, to) && from != to
    case Replace(at, tree, _) => |at| > 1 && at in k.dirs && CanArrive(roots, Left(k, at), at, tree, false)
    case Exchange(a, b) => a in k.dirs && b in k.dirs && !(a <= b) && !(b <= a)
    case Other(dir, flag, name) => dir in k.dirs && flag in {IN_CREATE, IN_MOVED_FROM, IN_MOVED_TO}
  }

  /** A directory that loses its place loses its watch when its inode goes. */
  function Kept(k: Kernel, dirs: map<Loc, nat>): Kernel {
    k.(dirs := dirs, watches := map wd | wd in k.watches && k.watches[wd] in dirs.Values :: k.watches[wd])
  }

  /** Trees and watch table once the operation and the deletion of a replaced
      empty directory are done, before the program reacts. */
  function Arrived(k: Kernel, at: Loc, tree: map<seq<string>, nat>): Kernel {
    Kept(k, Without(k.dirs, at)).(dirs := Grafted(k.dirs, at, tree))
  }

  function Renamed(k: Kernel, from: Loc, to: Loc): Kernel {
    var k0 := Kept(k, Without(k.dirs, to));
    k0.(dirs := RelocatedDirs(k0.dirs, from, to))
  }

  function Swap(l: Loc, a: Loc, b: Loc): Loc {
    if a <= l then b + l[|a|..] else if b <= l then a + l[|b|..] else l
  }

  function Swapped(dirs: map<Loc, nat>, a: Loc, b: Loc): map<Loc, nat> {
    map m | m in (set l | l in dirs :: Swap(l, a, b)) && Swap(m, a, b) in dirs :: dirs[Swap(m, a, b)]
  }

  // ------------------------------------------------------------ the events

  function Padded(name: string): nat {
    if |name| > NAME_MAX then NAME_MAX + 1 else (|name| + 16) / 16 * 16
  }

  /** Recent kernels add IN_ISDIR to the self events, older ones do not. */
  function SelfMask(flag: Flag, dirBit: bool): set<Flag> {
    if dirBit then {flag, IN_ISDIR} else {flag}
  }

  function EntryEvent(wd: nat, flag: Flag, cookie: nat, name: string): Event {
    Event(wd, {flag, IN_ISDIR}, cookie, name, Padded(name))
  }

  function Deleted(wd: nat, dirBit: bool): seq<Event> {
    [Event(wd, SelfMask(IN_DELETE_SELF, dirBit), 0, "", 0), Event(wd, {IN_IGNORED}, 0, "", 0)]
  }

  ghost function DeletedIfThere(k: Kernel, l: Loc, dirBit: bool): seq<Event>
    requires forall m {:trigger IsWatched(k, m)} | m in k.dirs :: IsWatched(k, m)
  {
    if l in k.dirs then Deleted(WdOf(k, l), dirBit) else []
  }

  /** The event of a directory that leaves its place. */
  ghost function LeaveEvent(k: Kernel, at: Loc, dirBit: bool, cookie: nat): Event
    requires |at| > 0 && if |at| == 1 then IsWatched(k, at) else IsWatched(k, Parent(at))
  {
    if |at| == 1 then Event(WdOf(k, at), SelfMask(IN_MOVE_SELF, dirBit), 0, "", 0)
    else EntryEvent(WdOf(k, Parent(at)), IN_MOVED_FROM, cookie, Last(at))
  }

  ghost function ArrivalEvent(k: Kernel, at: Loc, created: bool, cookie: nat): Event
    requires |at| > 1 && IsWatched(k, Parent(at))
  {
    EntryEvent(WdOf(k, Parent(at)), if created then IN_CREATE else IN_MOVED_TO, cookie, Last(at))
  }

  /** One half of an exchange: the directory at from has come to the place to. */
  ghost function HalfEvents(k: Kernel, from: Loc, to: Loc, dirBit: bool, cookie: nat): seq<Event>
    requires |from| > 0 && if |from| == 1 then IsWatched(k, from) else IsWatched(k, Parent(from))
    requires |to| > 1 ==> IsWatched(k, Parent(to))
  {
    (if |from| > 1 then [LeaveEvent(k, from, dirBit, cookie)] else [])
    + (if |to| > 1 then [ArrivalEvent(k, to, false, cookie)] else [])
    + (if |from| == 1 then [LeaveEvent(k, from, dirBit, cookie)] else [])
  }

  ghost function EventsOf(roots: set<string>, k: Kernel, op: Op, dirBit: bool, cookie: nat): seq<Event>
    requires WellFormed(roots, k) && Can(roots, k, op)
    requires forall m {:trigger IsWatched(k, m)} | m in k.dirs :: IsWatched(k, m)
  {
    match op
    case Arrive(at, _, created) => [ArrivalEvent(k, at, created, cookie)] + DeletedIfThere(k, at, dirBit)
    case Remove(at) => DeletedIfThere(k, at, dirBit)
    case Rename(from, to) =>
      [EntryEvent(WdOf(k, Parent(from)), IN_MOVED_FROM, cookie, Last(from)),
       EntryEvent(WdOf(k, Parent(to)), IN_MOVED_TO, cookie, Last(to))]
      + DeletedIfThere(k, to, dirBit)
    case Leave(at) => [LeaveEvent(k, at, dirBit, cookie)]
    case RootIn(from, to) =>
      [ArrivalEvent(k, to, false, cookie), LeaveEvent(k, from, dirBit, cookie)] + DeletedIfThere(k, to, dirBit)
    case OverRoot(from, to) => [LeaveEvent(k, from, dirBit, cookie)] + DeletedIfThere(k, to, dirBit)
    case Replace(at, _, outsideFirst) =>
      if outsideFirst then [ArrivalEvent(k, at, false, cookie), LeaveEvent(k, at, dirBit, cookie + 1)]
      else [LeaveEvent(k, at, dirBit, cookie), ArrivalEvent(k, at, false, cookie + 1)]
    case Exchange(a, b) => HalfEvents(k, a, b, dirBit, cookie) + HalfEvents(k, b, a, dirBit, cookie + 1)
    case Other(dir, flag, name) => [Event(WdOf(k, dir), {flag}, cookie, name, Padded(name))]
  }

  // ------------------------------------------------- trees stay well formed

  lemma WithoutWellFormed(roots: set<string>, dirs: map<Loc, nat>, at: Loc)
    requires WellFormedDirs(roots, dirs)
    ensures WellFormedDirs(roots, Without(dirs, at))
  {
  }

  lemma RelocateBack(l: Loc, from: Loc, to: Loc)
    requires !(to <= l)
    ensures Relocated(Relocated(l, from, to), to, from) == l
  {
    if from <= l {
      assert (to + l[|from|..])[|to|..] == l[|from|..];
      assert from + l[|from|..] == l;
    }
  }

  ghost predicate IsRelocated(dirs: map<Loc, nat>, from: Loc, to: Loc, moved: map<Loc, nat>) {
    && (forall l | l in dirs :: Relocated(l, from, to) in moved && moved[Relocated(l, from, to)] == dirs[l])
    && (forall m | m in moved :: exists l :: l in dirs && m == Relocated(l, from, to))
  }

  lemma RelocatedDirsAre(dirs: map<Loc, nat>, from: Loc, to: Loc)
    requires forall l | l in dirs :: !(to <= l)
    ensures IsRelocated(dirs, from, to, RelocatedDirs(dirs, from, to))
  {
    forall l | l in dirs
      ensures Relocated(Relocated(l, from, to), to, from) == l
    {
      RelocateBack(l, from, to);
    }
  }

  lemma RelocatedParent(dirs: map<Loc, nat>, from: Loc, to: Loc, l: Loc)
    requires l in dirs && |l| > 1 && Parent(l) in dirs
    requires |to| > 1 && Parent(to) in dirs && !(from <= to) && |from| > 1
    ensures var m := Relocated(l, from, to);
      |m| > 1 ==> exists p :: p in dirs && Parent(m) == Relocated(p, from, to)
  {
    var m := Relocated(l, from, to);
    if l == from {
      assert m == to;
      assert !(from <= Parent(to));
      assert Parent(m) == Relocated(Parent(to), from, to);
    } else if from <= l {
      assert from <= Parent(l);
      assert Parent(m) == Relocated(Parent(l), from, to);
    } else {
      assert Parent(m) == Relocated(Parent(l), from, to);
    }
  }

  lemma RelocatedWellFormed(roots: set<string>, dirs: map<Loc, nat>, from: Loc, to: Loc)
    requires WellFormedDirs(roots, dirs) && NonNested(roots)
    requires forall l | l in dirs :: !(to <= l)
    requires |from| > 1 && from in dirs && |to| > 1 && ValidLoc(roots, to) && Parent(to) in dirs && !(from <= to)
    ensures WellFormedDirs(roots, RelocatedDirs(dirs, from, to))
  {
    var moved := RelocatedDirs(dirs, from, to);
    RelocatedDirsAre(dirs, from, to);
    forall m | m in moved ensures ValidLoc(roots, m) && (|m| > 1 ==> Parent(m) in moved) {
      var l :| l in dirs && m == Relocated(l, from, to);
      MovedMatchesRelocated(roots, l, from, to);
      if |l| > 1 {
        RelocatedParent(dirs, from, to, l);
      }
    }
  }

  ghost predicate IsGraft(dirs: map<Loc, nat>, at: Loc, tree: map<seq<string>, nat>, g: map<Loc, nat>) {
    && (forall s | s in tree :: at + s in g && g[at + s] == tree[s])
    && (forall l | l in dirs && l != at :: l in g && g[l] == dirs[l])
    && (forall m | m in g ::
          if at <= m then m[|at|..] in tree && g[m] == tree[m[|at|..]] else m in dirs && g[m] == dirs[m])
  }

  lemma GraftedAre(dirs: map<Loc, nat>, at: Loc, tree: map<seq<string>, nat>)
    requires [] in tree && IsEmptyAt(dirs, at)
    ensures IsGraft(dirs, at, tree, Grafted(dirs, at, tree))
  {
    forall s | s in tree ensures (at + s)[|at|..] == s {
    }
  }

  lemma ValidAppend(roots: set<string>, at: Loc, s: seq<string>)
    requires ValidLoc(roots, at) && Names(s)
    ensures ValidLoc(roots, at + s)
  {
    assert (at + s)[1..] == at[1..] + s;
  }

  lemma GraftedPlaces(roots: set<string>, k: Kernel, at: Loc, tree: map<seq<string>, nat>, created: bool,
      g: map<Loc, nat>, m: Loc)
    requires WellFormedDirs(roots, k.dirs) && CanArrive(roots, k, at, tree, created)
    requires IsGraft(k.dirs, at, tree, g) && m in g
    ensures ValidLoc(roots, m) && (|m| > 1 ==> Parent(m) in g)
  {
    if at <= m {
      var s := m[|at|..];
      assert m == at + s;
      ValidAppend(roots, at, s);
      assert s != [] ==> Parent(m) == at + Outer(s);
      assert s == [] ==> Parent(m) == Parent(at) && Parent(at) != at;
    } else {
      assert |m| > 1 ==> Parent(m) in k.dirs && Parent(m) != at;
    }
  }

  lemma GraftedInjective(roots: set<string>, k: Kernel, at: Loc, tree: map<seq<string>, nat>, created: bool)
    requires WellFormedDirs(roots, k.dirs) && CanArrive(roots, k, at, tree, created)
    ensures var g := Grafted(k.dirs, at, tree);
      forall l, m | l in g && m in g && g[l] == g[m] :: l == m
  {
    GraftedAre(k.dirs, at, tree);
    var g := Grafted(k.dirs, at, tree);
    forall l, m | l in g && m in g && g[l] == g[m] ensures l == m {
      assert if at <= l then l == at + l[|at|..] && g[l] in tree.Values else g[l] in k.dirs.Values;
      assert if at <= m then m == at + m[|at|..] && g[m] in tree.Values else g[m] in k.dirs.Values;
    }
  }

  lemma GraftedWellFormed(roots: set<string>, k: Kernel, at: Loc, tree: map<seq<string>, nat>, created: bool)
    requires WellFormedDirs(roots, k.dirs) && CanArrive(roots, k, at, tree, created)
    ensures WellFormedDirs(roots, Grafted(k.dirs, at, tree))
  {
    var g := Grafted(k.dirs, at, tree);
    GraftedAre(k.dirs, at, tree);
    GraftedInjective(roots, k, at, tree, created);
    forall m | m in g ensures ValidLoc(roots, m) && (|m| > 1 ==> Parent(m) in g) {
      GraftedPlaces(roots, k, at, tree, created, g, m);
    }
  }

  // ----------------------------------------------------- losing directories

  lemma KeptWatches(k: Kernel, dirs: map<Loc, nat>, wd: nat, l: Loc)
    requires forall m | m in dirs :: m in k.dirs && k.dirs[m] == dirs[m]
    ensures Watches(Kept(k, dirs), wd, l) <==> l in dirs && Watches(k, wd, l)
  {
    if l in dirs && Watches(k, wd, l) {
      assert dirs[l] in dirs.Values;
    }
  }

  lemma KeptInSync(roots: set<string>, k: Kernel, at: Loc, d: Daemon, e: Daemon)
    requires InSync(roots, k, d)
    requires UniqueWds(e.slots) && RootsMatch(Kept(k, Without(k.dirs, at)), e)
    requires forall w :: w in LiveSet(e.slots) <==>
      w in LiveSet(d.slots) && exists l | l in Without(k.dirs, at) :: Watches(k, w.wd, l)
    ensures InSync(roots, Kept(k, Without(k.dirs, at)), e)
  {
    var dirs := Without(k.dirs, at);
    var k' := Kept(k, dirs);
    WithoutWellFormed(roots, k.dirs, at);
    forall wd: nat, l ensures Watches(k', wd, l) <==> l in dirs && Watches(k, wd, l) {
      KeptWatches(k, dirs, wd, l);
    }
    forall w ensures w in LiveSet(e.slots) <==> IsExpected(k', w) {
      if w in LiveSet(e.slots) {
        var l :| l in dirs && Watches(k, w.wd, l);
        var m :| m in k.dirs && |m| > 0 && Watches(k, w.wd, m) && w.path == Path(m);
        assert l == m;
      }
    }
    forall l | l in dirs ensures IsWatched(k', l) {
      assert Watches(k', WdOf(k, l), l);
    }
    forall wd | wd in k'.watches ensures IsPlaced(k', wd) {
      var l :| l in dirs && dirs[l] == k.watches[wd];
      assert Watches(k', wd, l);
    }
  }
}
