/** Once overlooked, a directory stays overlooked: which directories no later
    event, and no traversal that an event starts, will ever lead to. */
module Overlooked {
  import opened Paths
  import opened WatchSlots
  import opened DirTree
  import opened QuietOps
  import opened CreationRace

  /** The event leads to the pathname. */
  ghost predicate LeadsTo(s: Sys, n: Note, path: string) {
    n.Made? && exists u :: u in LiveSet(s.slots) && u.wd == n.wd && u.path + "/" + n.name == path
  }

  /** When the event at position p is handled, a slot still has the pathname. */
  ghost predicate Shielded(s: Sys, path: string, p: int) {
    exists w :: w in LiveSet(s.slots) && w.path == path && !DeletionBefore(s.queue, w.wd, p)
  }

  /** Every waiting event that leads to the pathname will be passed over. */
  ghost predicate PassedOver(s: Sys, path: string) {
    forall p | 0 <= p < |s.queue| && LeadsTo(s, s.queue[p], path) :: Shielded(s, path, p)
  }

  ghost predicate AncestorsWatched(k: Kernel, l: Loc) {
    forall m {:trigger IsWatched(k, m)} | m < l && m != [] :: IsWatched(k, m)
  }

  /** No traversal under way, or due, will list a directory above l. */
  ghost predicate Untraversed(s: Sys, l: Loc) {
    s.pending == [] && forall i | 0 <= i < |s.stack| :: !(s.stack[i].at < l)
  }

  ghost predicate Stuck(s: Sys, l: Loc) {
    && |l| > 1 && l in s.k.dirs && !IsWatched(s.k, l) && AncestorsWatched(s.k, l)
    && Untraversed(s, l) && PassedOver(s, Path(l))
  }

  // ------------------------------------------------------------ visits

  lemma EnteredWatches(names: set<string>, s: Sys, m: Loc, l: Loc)
    requires WellFormed(names, s.k) && m in s.k.dirs && |m| > 0 && l in s.k.dirs
    ensures IsWatched(s.k, l) ==> IsWatched(Entered(s, m).k, l)
    ensures !IsWatched(s.k, l) && l != m ==> !IsWatched(Entered(s, m).k, l)
  {
    var t := Entered(s, m);
    if IsWatched(s.k, l) {
      assert Watches(t.k, WdOf(s.k, l), l);
    } else if wd: nat :| l != m && Watches(t.k, wd, l) {
      assert Watches(s.k, wd, l);
    }
  }

  lemma EnteredPassesOver(names: set<string>, s: Sys, m: Loc, path: string)
    requires WellFormed(names, s.k) && SlotsRight(names, s) && QueueRight(s) && m in s.k.dirs && |m| > 0
    requires PassedOver(s, path)
    ensures PassedOver(Entered(s, m), path)
  {
    var t := Entered(s, m);
    EnteredSlots(names, s, m);
    forall p | 0 <= p < |t.queue| && LeadsTo(t, t.queue[p], path) ensures Shielded(t, path, p) {
      var n := t.queue[p];
      var u :| u in LiveSet(t.slots) && u.wd == n.wd && u.path + "/" + n.name == path;
      assert Known(s, n.wd);
      var v :| v in LiveSet(s.slots) && v.wd == n.wd;
      LiveBelowNext(names, s, v);
      assert LeadsTo(s, n, path) && Shielded(s, path, p);
    }
  }

  lemma EnteredAncestors(names: set<string>, s: Sys, m: Loc, l: Loc)
    requires WellFormed(names, s.k) && m in s.k.dirs && |m| > 0 && AncestorsWatched(s.k, l)
    ensures AncestorsWatched(Entered(s, m).k, l)
  {
    forall a | a < l && a != [] ensures IsWatched(Entered(s, m).k, a) {
      assert IsWatched(s.k, a);
      EnteredWatches(names, s, m, a);
    }
  }

  lemma EnteredUntraversed(s: Sys, m: Loc, l: Loc)
    requires m in s.k.dirs && |m| > 0 && Untraversed(s, l) && !(m < l)
    ensures Untraversed(Entered(s, m), l)
  {
  }

  /** A visit elsewhere changes nothing for l. */
  lemma VisitStays(names: set<string>, s: Sys, path: string, l: Loc)
    requires WellFormed(names, s.k) && SlotsRight(names, s) && QueueRight(s) && Stuck(s, l)
    requires forall m | m <= l && m != [] :: Path(m) != path
    ensures Stuck(VisitPath(s, path), l)
  {
    hide WellFormed, SlotsRight, QueueRight, VisitPath, AncestorsWatched, Untraversed, PassedOver, Path, IsWatched;
    VisitPathIs(names, s, path);
    if VisitPath(s, path) != s {
      var m :| m in s.k.dirs && |m| > 0 && Path(m) == path && VisitPath(s, path) == Entered(s, m);
      assert !(m <= l);
      EnteredPassesOver(names, s, m, Path(l));
      EnteredWatches(names, s, m, l);
      EnteredAncestors(names, s, m, l);
      EnteredUntraversed(s, m, l);
    }
  }

  // -------------------------------------------------------------- the steps

  /** The pathname a listed name leads to, when nothing above l is listed. */
  lemma MeetElsewhere(names: set<string>, s: Sys, name: string, l: Loc, m: Loc)
    requires s.stack != [] && ValidLoc(names, s.stack[|s.stack| - 1].at) && '/' !in name && NonNested(names)
    requires Untraversed(s, l) && ValidLoc(names, l) && m <= l && m != []
    ensures Path(m) != Path(s.stack[|s.stack| - 1].at) + "/" + name
  {
    var at := s.stack[|s.stack| - 1].at;
    PathSnoc(at, name);
    if Path(m) == Path(at + [name]) {
      assert m[1..] == l[1..|m|];
      PathInjective(names, m, at + [name]);
      assert false;
    }
  }

  lemma StuckIsValid(names: set<string>, s: Sys, l: Loc)
    requires WellFormed(names, s.k) && Stuck(s, l)
    ensures ValidLoc(names, l) && NonNested(names)
  {
  }

  lemma BookkeepingStays(s: Sys, t: Sys, l: Loc)
    requires Stuck(s, l) && t == s.(stack := t.stack, overlooked := t.overlooked)
    requires forall f | f in t.stack :: exists g :: g in s.stack && g.at == f.at
    ensures Stuck(t, l)
  {
    hide Path, IsWatched;
    forall p | 0 <= p < |t.queue| && LeadsTo(t, t.queue[p], Path(l)) ensures Shielded(t, Path(l), p) {
      assert LeadsTo(s, s.queue[p], Path(l)) && Shielded(s, Path(l), p);
    }
  }

  lemma MeetStays(names: set<string>, roots: seq<string>, s: Sys, name: string, l: Loc)
    requires Inv(names, roots, s) && Enabled(names, s, Meet(name)) && Stuck(s, l)
    ensures Stuck(Apply(names, roots, s, Meet(name)), l)
  {
    hide Path, VisitPath, SlotsRight, QueueRight, WellFormedDirs, NonNested, ValidLoc, PassedOver;
    var t := Crossed(s, name);
    var path := Path(s.stack[|s.stack| - 1].at) + "/" + name;
    assert VisitPath(t, path) == Apply(names, roots, s, Meet(name));
    assert ValidLoc(names, l) && NonNested(names) by {
      StuckIsValid(names, s, l);
    }
    hide Apply;
    BookkeepingKeeps(names, s, t);
    forall m | m <= l && m != [] ensures Path(m) != path {
      MeetElsewhere(names, s, name, l, m);
    }
    BookkeepingStays(s, t, l);
    hide Stuck, WellFormed, Crossed;
    VisitStays(names, t, path, l);
  }

  /** More is queued; the new events do not lead to path. */
  lemma QueuedStays(s: Sys, t: Sys, path: string)
    requires PassedOver(s, path) && t.slots == s.slots && |t.queue| >= |s.queue| && t.queue[..|s.queue|] == s.queue
    requires forall p | |s.queue| <= p < |t.queue| :: !LeadsTo(t, t.queue[p], path)
    ensures PassedOver(t, path)
  {
    forall p | 0 <= p < |t.queue| && LeadsTo(t, t.queue[p], path) ensures Shielded(t, path, p) {
      assert t.queue[p] == t.queue[..|s.queue|][p];
      assert LeadsTo(s, s.queue[p], path);
      StaysShielded(s, t, path, p);
    }
  }

  lemma StaysShielded(s: Sys, t: Sys, path: string, p: int)
    requires Shielded(s, path, p) && 0 <= p <= |s.queue|
    requires t.slots == s.slots && |t.queue| >= |s.queue| && t.queue[..|s.queue|] == s.queue
    ensures Shielded(t, path, p)
  {
    var w :| w in LiveSet(s.slots) && w.path == path && !DeletionBefore(s.queue, w.wd, p);
    if DeletionBefore(t.queue, w.wd, p) {
      DeletionWasThere(s.queue, t.queue, w.wd, p);
    }
  }

  lemma DeletionWasThere(queue: seq<Note>, longer: seq<Note>, wd: int, p: int)
    requires p <= |queue| <= |longer| && longer[..|queue|] == queue && DeletionBefore(longer, wd, p)
    ensures DeletionBefore(queue, wd, p)
  {
    var i :| 0 <= i < p && i < |longer| && longer[i].Deletion? && longer[i].wd == wd;
    assert queue[i] == longer[..|queue|][i];
  }

  /** The event of a directory leads to its own pathname only. */
  lemma MadeLeadsTo(names: set<string>, s: Sys, t: Sys, at: Loc, l: Loc)
    requires WellFormed(names, s.k) && SlotsRight(names, s) && t.slots == s.slots
    requires |at| > 1 && IsWatched(s.k, Parent(at)) && ValidLoc(names, at) && ValidLoc(names, l) && at != l
    ensures !LeadsTo(t, Made(WdOf(s.k, Parent(at)), Last(at)), Path(l))
  {
    var w := Watch(WdOf(s.k, Parent(at)), Path(Parent(at)));
    WatchedIsCached(names, s, Parent(at));
    PathSnoc(Parent(at), Last(at));
    assert Parent(at) + [Last(at)] == at;
    if u :| u in LiveSet(s.slots) && u.wd == w.wd && u.path + "/" + Last(at) == Path(l) {
      assert u == w;
      PathInjective(names, at, l);
    }
  }

  lemma MadeUnwatched(names: set<string>, roots: seq<string>, s: Sys, at: Loc, ino: nat)
    requires Inv(names, roots, s) && Enabled(names, s, Mkdir(at, ino))
    ensures var t := Apply(names, roots, s, Mkdir(at, ino));
            at !in s.k.dirs && !IsWatched(t.k, at) && forall m :: IsWatched(t.k, m) <==> IsWatched(s.k, m)
  {
    var t := Apply(names, roots, s, Mkdir(at, ino));
    forall wd: nat, m ensures Watches(t.k, wd, m) <==> Watches(s.k, wd, m) {
      MkdirWatches(s.k, at, ino, wd, m);
    }
  }

  lemma MkdirStays(names: set<string>, roots: seq<string>, s: Sys, at: Loc, ino: nat, l: Loc)
    requires Inv(names, roots, s) && Enabled(names, s, Mkdir(at, ino)) && Stuck(s, l)
    ensures Stuck(Apply(names, roots, s, Mkdir(at, ino)), l)
  {
    var t := Apply(names, roots, s, Mkdir(at, ino));
    MadeUnwatched(names, roots, s, at, ino);
    StuckIsValid(names, s, l);
    if IsWatched(s.k, Parent(at)) {
      MadeLeadsTo(names, s, t, at, l);
    }
    hide Path, ValidLoc, SlotsRight, QueueRight, WellFormed, Covered, Watches, WdOf;
    assert t.queue[..|s.queue|] == s.queue;
    QueuedStays(s, t, Path(l));
  }

  lemma RmdirStays(names: set<string>, roots: seq<string>, s: Sys, at: Loc, l: Loc)
    requires Inv(names, roots, s) && Enabled(names, s, Rmdir(at)) && Stuck(s, l) && at != l
    ensures Stuck(Apply(names, roots, s, Rmdir(at)), l)
  {
    hide Inv, Path, Apply, Removing, Stuck;
    var t := Apply(names, roots, s, Rmdir(at));
    RmdirIsRemoving(names, roots, s, at);
    RemovingStays(s, at, t, l);
  }

  lemma RemovingStays(s: Sys, at: Loc, t: Sys, l: Loc)
    requires Removing(s, at, t) && Stuck(s, l) && at != l
    ensures Stuck(t, l)
  {
    assert !(at <= l);
    hide Path, PassedOver, IsEmptyAt;
    RemovingAncestors(s, at, t, l);
    assert forall i | 0 <= i < |t.stack| :: t.stack[i].at == s.stack[i].at;
    assert t.queue[..|s.queue|] == s.queue;
    QueuedStays(s, t, Path(l));
  }

  lemma RemovingAncestors(s: Sys, at: Loc, t: Sys, l: Loc)
    requires Removing(s, at, t) && AncestorsWatched(s.k, l) && !(at <= l)
    ensures AncestorsWatched(t.k, l)
  {
    hide Delisted, IsEmptyAt;
    forall m | m < l && m != [] ensures IsWatched(t.k, m) {
      assert IsWatched(s.k, m) && m != at;
      assert Watches(t.k, WdOf(s.k, m), m);
    }
  }

  lemma ReleaseStays(names: set<string>, roots: seq<string>, s: Sys, wd: nat, l: Loc)
    requires Enabled(names, s, Release(wd)) && Stuck(s, l)
    ensures Stuck(Apply(names, roots, s, Release(wd)), l)
  {
    var t := Apply(names, roots, s, Release(wd));
    assert t.queue[..|s.queue|] == s.queue;
    QueuedStays(s, t, Path(l));
  }

  lemma DeletionWasLater(queue: seq<Note>, wd: int, p: int)
    requires queue != [] && DeletionBefore(queue[1..], wd, p)
    ensures DeletionBefore(queue, wd, p + 1)
  {
    var i :| 0 <= i < p && i < |queue[1..]| && queue[1..][i].Deletion? && queue[1..][i].wd == wd;
    assert queue[i + 1] == queue[1..][i];
  }

  /** The head of the queue is taken off; what it shields from comes later. */
  lemma PoppedStays(s: Sys, t: Sys, l: Loc)
    requires Popped(s, t) && Stuck(s, l)
    ensures Stuck(t, l)
  {
    hide Path, IsWatched, UniqueWds;
    forall p | 0 <= p < |t.queue| && LeadsTo(t, t.queue[p], Path(l)) ensures Shielded(t, Path(l), p) {
      assert t.queue[p] == s.queue[p + 1];
      assert LeadsTo(s, s.queue[p + 1], Path(l));
      var w :| w in LiveSet(s.slots) && w.path == Path(l) && !DeletionBefore(s.queue, w.wd, p + 1);
      assert w in LiveSet(t.slots);
      if DeletionBefore(t.queue, w.wd, p) {
        DeletionWasLater(s.queue, w.wd, p);
      }
    }
  }

  lemma HandleDeletionStays(names: set<string>, roots: seq<string>, s: Sys, l: Loc)
    requires Inv(names, roots, s) && Enabled(names, s, HandleEvent) && s.queue[0].Deletion? && Stuck(s, l)
    ensures Stuck(Handle(s, roots), l)
  {
    hide Stuck, Path, Inv, Handle, Popped;
    DeletionPops(names, roots, s);
    PoppedStays(s, Handle(s, roots), l);
  }

  /** An event that is not passed over leads neither to l nor above it. */
  lemma HeadElsewhere(names: set<string>, s: Sys, path: string, l: Loc, m: Loc)
    requires SlotsRight(names, s) && Stuck(s, l) && m <= l && m != []
    requires s.queue != [] && LeadsTo(s, s.queue[0], path) && !PathInCache(s.slots, path)
    ensures Path(m) != path
  {
    if m != l {
      assert IsWatched(s.k, m);
      WatchedIsCached(names, s, m);
      LiveIsInCache(s.slots, Watch(WdOf(s.k, m), Path(m)));
    } else if Path(l) == path {
      ShieldedIsInCache(s, path, 0);
    }
  }

  lemma ShieldedIsInCache(s: Sys, path: string, p: int)
    requires Shielded(s, path, p)
    ensures PathInCache(s.slots, path)
  {
    var w :| w in LiveSet(s.slots) && w.path == path && !DeletionBefore(s.queue, w.wd, p);
    LiveIsInCache(s.slots, w);
  }

  lemma HeadPops(names: set<string>, s: Sys)
    requires SlotsRight(names, s) && QueueRight(s) && s.queue != [] && s.queue[0].Made?
    ensures Popped(s, s.(queue := s.queue[1..])) && FindWatch(s.slots, s.queue[0].wd) >= 0
    ensures LeadsTo(s, s.queue[0], s.slots[FindWatch(s.slots, s.queue[0].wd)].path + "/" + s.queue[0].name)
  {
    hide FindWatch;
    KnownIsFound(s, s.queue[0].wd);
  }

  lemma HandleMadeStays(names: set<string>, roots: seq<string>, s: Sys, l: Loc)
    requires Inv(names, roots, s) && Enabled(names, s, HandleEvent) && s.queue[0].Made? && Stuck(s, l)
    ensures Stuck(Handle(s, roots), l)
  {
    hide Stuck, Path, SlotsRight, QueueRight, WellFormed, Covered, VisitPath, PathInCache, LeadsTo, FindWatch, Popped;
    var t := s.(queue := s.queue[1..]);
    HeadPops(names, s);
    var path := s.slots[FindWatch(s.slots, s.queue[0].wd)].path + "/" + s.queue[0].name;
    PoppedKeeps(names, s, t);
    PoppedStays(s, t, l);
    if !PathInCache(s.slots, path) {
      forall m | m <= l && m != [] ensures Path(m) != path {
        HeadElsewhere(names, s, path, l, m);
      }
      VisitStays(names, t, path, l);
    }
  }

  lemma StepStays(names: set<string>, roots: seq<string>, s: Sys, a: Action, l: Loc)
    requires Inv(names, roots, s) && Enabled(names, s, a) && Stuck(s, l) && !a.Rebuild? && a != Rmdir(l)
    ensures Stuck(Apply(names, roots, s, a), l)
  {
    match a
    case Mkdir(at, ino) => MkdirStays(names, roots, s, at, ino, l);
    case Rmdir(at) => RmdirStays(names, roots, s, at, l);
    case Release(wd) => ReleaseStays(names, roots, s, wd, l);
    case StartRoot =>
    case Meet(name) => MeetStays(names, roots, s, name, l);
    case ListingDone => BookkeepingStays(s, Apply(names, roots, s, a), l);
    case GiveUp => BookkeepingStays(s, Apply(names, roots, s, a), l);
    case HandleEvent =>
      if s.queue[0].Made? {
        HandleMadeStays(names, roots, s, l);
      } else {
        HandleDeletionStays(names, roots, s, l);
      }
  }

  lemma {:induction false} RunStays(names: set<string>, roots: seq<string>, s: Sys, actions: seq<Action>, end: Sys,
      l: Loc)
    requires Inv(names, roots, s) && Run(names, roots, s, actions, end) && Stuck(s, l)
    requires forall a | a in actions :: !a.Rebuild? && a != Rmdir(l)
    ensures Stuck(end, l)
    decreases actions
  {
    if actions != [] {
      StepKeeps(names, roots, s, actions[0]);
      StepStays(names, roots, s, actions[0], l);
      assert forall a | a in actions[1..] :: a in actions;
      RunStays(names, roots, Apply(names, roots, s, actions[0]), actions[1..], end, l);
    }
  }

  // ------------------------------------------------------------ the results

  /** A directory made under a held name, while no traversal is under way above it
      and with the directories above it watched, is neither watched nor cached
      in any state that follows, unless it is removed or the cache is rebuilt. */
  lemma {:induction false} MadeUnderHeldNameStaysMissed(names: set<string>, roots: seq<string>, s: Sys, l: Loc,
      ino: nat, actions: seq<Action>, end: Sys)
    requires Inv(names, roots, s) && Enabled(names, s, Mkdir(l, ino))
    requires l in s.held.Values && Untraversed(s, l) && AncestorsWatched(s.k, l)
    requires Run(names, roots, Apply(names, roots, s, Mkdir(l, ino)), actions, end)
    requires forall a | a in actions :: !a.Rebuild? && a != Rmdir(l)
    ensures l in end.k.dirs && !IsWatched(end.k, l) && l in end.overlooked
  {
    hide Inv, Apply, Enabled, Run;
    StepKeeps(names, roots, s, Mkdir(l, ino));
    MadeStuck(names, roots, s, l, ino);
    RunKeeps(names, roots, Apply(names, roots, s, Mkdir(l, ino)), actions, end);
    RunStays(names, roots, Apply(names, roots, s, Mkdir(l, ino)), actions, end, l);
    StuckIsOverlooked(names, roots, end, l);
  }

  lemma StuckIsOverlooked(names: set<string>, roots: seq<string>, s: Sys, l: Loc)
    requires Inv(names, roots, s) && Stuck(s, l)
    ensures l in s.overlooked
  {
    assert IsWatched(s.k, Parent(l)) && Due(s, l);
    if q :| AnnouncedAt(s, l, q) {
      AnnouncedLeadsTo(names, s, l, q);
      assert false;
    }
  }

  lemma AnnouncedLeadsTo(names: set<string>, s: Sys, l: Loc, q: int)
    requires SlotsRight(names, s) && |l| > 1 && AnnouncedAt(s, l, q)
    ensures LeadsTo(s, s.queue[q], Path(l)) && !Shielded(s, Path(l), q)
  {
    WatchedIsCached(names, s, Parent(l));
    PathSnoc(Parent(l), Last(l));
    assert Parent(l) + [Last(l)] == l;
  }

  lemma MadeStuck(names: set<string>, roots: seq<string>, s: Sys, l: Loc, ino: nat)
    requires Inv(names, roots, s) && Enabled(names, s, Mkdir(l, ino))
    requires l in s.held.Values && Untraversed(s, l) && AncestorsWatched(s.k, l)
    ensures Stuck(Apply(names, roots, s, Mkdir(l, ino)), l)
  {
    hide Path, Shape, SlotsRight, QueueRight, Covered, IsWatched, ValidLoc, LeadsTo, Shielded;
    var t := Apply(names, roots, s, Mkdir(l, ino));
    MadeUnwatched(names, roots, s, l, ino);
    var wd :| wd in s.held && s.held[wd] == l;
    forall p | 0 <= p < |t.queue| ensures Shielded(t, Path(l), p) {
      HeldShields(names, s, t, wd, p);
    }
  }

  lemma HeldShields(names: set<string>, s: Sys, t: Sys, wd: nat, p: int)
    requires SlotsRight(names, s) && QueueRight(s) && wd in s.held && t.slots == s.slots
    requires t.queue == s.queue || exists n: Note :: n.Made? && t.queue == s.queue + [n]
    ensures |s.held[wd]| > 0 && Shielded(t, Path(s.held[wd]), p)
  {
    assert HeldRight(names, s, wd);
    var w := Watch(wd, Path(s.held[wd]));
    assert w in LiveSet(t.slots) && w.wd == wd;
    assert !DeletionBefore(t.queue, w.wd, p);
  }

  /** The same of a directory that a traversal ending early was still to meet, with
      no event about its name waiting. */
  lemma {:induction false} GivenUpStaysMissed(names: set<string>, roots: seq<string>, s: Sys, l: Loc,
      actions: seq<Action>, end: Sys)
    requires Inv(names, roots, s) && Enabled(names, s, GiveUp) && s.pending == []
    requires l in Abandoned(s) && AncestorsWatched(s.k, l)
    requires forall n | n in s.queue && n.Made? :: n.name != Last(l)
    requires Run(names, roots, Apply(names, roots, s, GiveUp), actions, end)
    requires forall a | a in actions :: !a.Rebuild? && a != Rmdir(l)
    ensures l in end.k.dirs && !IsWatched(end.k, l) && l in end.overlooked
  {
    hide Inv, Apply, Enabled, Run, Stuck, Abandoned, AncestorsWatched, Path;
    var t := Apply(names, roots, s, GiveUp);
    GivenUpStuck(names, roots, s, l);
    StepKeeps(names, roots, s, GiveUp);
    RunKeeps(names, roots, t, actions, end);
    RunStays(names, roots, t, actions, end, l);
    StuckIsOverlooked(names, roots, end, l);
  }

  lemma GivenUpStuck(names: set<string>, roots: seq<string>, s: Sys, l: Loc)
    requires Inv(names, roots, s) && Enabled(names, s, GiveUp) && s.pending == []
    requires l in Abandoned(s) && AncestorsWatched(s.k, l)
    requires forall n | n in s.queue && n.Made? :: n.name != Last(l)
    ensures Stuck(Apply(names, roots, s, GiveUp), l)
  {
    hide Inv, Path, IsWatched, AncestorsWatched, Listed, LeadsTo, Shielded;
    var t := s.(stack := [], overlooked := s.overlooked + Abandoned(s));
    assert Apply(names, roots, s, GiveUp) == t;
    hide Apply, Enabled;
    forall n | n in t.queue ensures !LeadsTo(t, n, Path(l)) {
      NoneLeadsTo(names, roots, s, t, n, l);
    }
  }

  lemma NoneLeadsTo(names: set<string>, roots: seq<string>, s: Sys, t: Sys, n: Note, l: Loc)
    requires Inv(names, roots, s) && l in s.k.dirs && |l| > 1 && t.slots == s.slots
    requires n in s.queue && (n.Made? ==> n.name != Last(l))
    ensures !LeadsTo(t, n, Path(l))
  {
    assert ValidLoc(names, l);
    hide Inv, Path, ValidLoc;
    if LeadsTo(t, n, Path(l)) {
      LeadsToName(names, roots, s, n, l);
    }
  }

  lemma LeadsToName(names: set<string>, roots: seq<string>, s: Sys, n: Note, l: Loc)
    requires Inv(names, roots, s) && n in s.queue && ValidLoc(names, l) && |l| > 1
    requires exists u :: u in LiveSet(s.slots) && n.Made? && u.wd == n.wd && u.path + "/" + n.name == Path(l)
    ensures n.Made? && n.name == Last(l)
  {
    var i :| 0 <= i < |s.queue| && s.queue[i] == n;
    assert '/' !in n.name && NonNested(names);
    var u :| u in LiveSet(s.slots) && n.Made? && u.wd == n.wd && u.path + "/" + n.name == Path(l);
    var m := SlotPlace(names, s, u);
    NameIsLast(names, m, n.name, l);
  }

  lemma SlotPlace(names: set<string>, s: Sys, u: Watch) returns (m: Loc)
    requires WellFormed(names, s.k) && SlotsRight(names, s) && u in LiveSet(s.slots)
    ensures ValidLoc(names, m) && u.path == Path(m)
  {
    hide ValidLoc, NonNested, Path, UniqueWds;
    if IsExpected(s.k, u) {
      m :| m in s.k.dirs && |m| > 0 && Watches(s.k, u.wd, m) && u.path == Path(m);
    } else {
      m :| ValidLoc(names, m) && |m| > 1 && u.path == Path(m);
    }
  }

  lemma NameIsLast(names: set<string>, m: Loc, name: string, l: Loc)
    requires NonNested(names) && ValidLoc(names, m) && '/' !in name && ValidLoc(names, l) && |l| > 1
    requires Path(m) + "/" + name == Path(l)
    ensures name == Last(l)
  {
    PathSnoc(m, name);
    assert (m + [name])[1..] == m[1..] + [name];
    PathInjective(names, m + [name], l);
  }
}
