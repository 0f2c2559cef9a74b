/** Each operation that is a single change of the trees leaves the cache in agreement
    with the trees once its events have been handled, but for one. */
module QuietSteps {
  import opened Options
  import opened Paths
  import opened WatchSlots
  import opened DirEvents
  import opened DirTree
  import opened QuietOps

  // ------------------------------------------------------- handling events

  lemma {:induction false} ProcessOne(d: Daemon, ev: Event, rest: seq<Event>, env: nat -> Answers, pos: nat)
    requires Legal(ev) && AllLegal(rest)
    requires Step(d, ev, if rest == [] then None else Some(rest[0]), false, env(pos)).Took?
    requires Step(d, ev, if rest == [] then None else Some(rest[0]), false, env(pos)).events == 1
    ensures AllLegal([ev] + rest)
    ensures Process(d, [ev] + rest, env, pos)
         == Process(Step(d, ev, if rest == [] then None else Some(rest[0]), false, env(pos)).d, rest, env, pos + 1)
  {
    var evs := [ev] + rest;
    assert evs[1..] == rest;
    assert forall i | 0 < i < |evs| :: evs[i] == rest[i - 1];
  }

  lemma {:induction false} ProcessSingle(d: Daemon, ev: Event, env: nat -> Answers, pos: nat)
    requires Legal(ev)
    ensures AllLegal([ev])
    ensures Process(d, [ev], env, pos)
         == match Step(d, ev, None, false, env(pos))
            case Took(e, _) => Alive(e, false)
            case Rebuilt(e) => Alive(e, true)
            case Exited => Gone
  {
    assert [ev][1..] == [];
  }

  lemma {:induction false} StepMoveSelf(d: Daemon, wd: nat, dirBit: bool, a: Answers)
    requires FindWatch(d.slots, wd) >= 0 && IsRoot(d, PathOf(d, wd))
    ensures var ev := Event(wd, SelfMask(IN_MOVE_SELF, dirBit), 0, "", 0);
      Step(d, ev, None, false, a) == RootMoved(d, ev, a)
  {
  }

  lemma {:induction false} StepMovedFrom(d: Daemon, wd: nat, cookie: nat, name: string, next: Option<Event>, a: Answers)
    requires FindWatch(d.slots, wd) >= 0
    ensures var ev := EntryEvent(wd, IN_MOVED_FROM, cookie, name);
      Step(d, ev, next, false, a) == MovedAway(d, ev, next, false, a)
  {
  }

  lemma {:induction false} StepArrive(d: Daemon, wd: nat, created: bool, cookie: nat, name: string,
      next: Option<Event>, a: Answers)
    requires FindWatch(d.slots, wd) >= 0
    ensures var ev := EntryEvent(wd, if created then IN_CREATE else IN_MOVED_TO, cookie, name);
      Step(d, ev, next, false, a) == Appear(d, ev, a)
  {
  }

  lemma {:induction false} DeletedProcess(d: Daemon, wd: nat, dirBit: bool, env: nat -> Answers, pos: nat)
    requires FindWatch(d.slots, wd) >= 0
    ensures AllLegal(Deleted(wd, dirBit))
    ensures Process(d, Deleted(wd, dirBit), env, pos)
         == match SelfDeleted(d, Deleted(wd, dirBit)[0])
            case Took(e, _) => Alive(e, false)
            case _ => Gone
  {
    var ev, ignored := Deleted(wd, dirBit)[0], Deleted(wd, dirBit)[1];
    assert Deleted(wd, dirBit) == [ev] + [ignored];
    assert Step(d, ev, Some(ignored), false, env(pos)) == SelfDeleted(d, ev);
    if SelfDeleted(d, ev).Took? {
      ProcessOne(d, ev, [ignored], env, pos);
      ProcessSingle(SelfDeleted(d, ev).d, ignored, env, pos + 1);
    }
  }

  // --------------------------------------------------------------- removal

  /** Zapping a root leaves the list right about the trees that remain. */
  lemma RootZappedMatches(k: Kernel, d: Daemon, p: string)
    requires RootsMatch(k, d) && IsRoot(d, p)
    ensures RootsMatch(Kept(k, Without(k.dirs, [p])), RootZapped(d, p))
  {
    var j := FindRoot(d.roots, p);
    var e := RootZapped(d, p);
    ZeroesUpdate(d.roots, j);
    forall q ensures Some(q) in e.roots <==> [q] in Without(k.dirs, [p]) {
      assert Some(q) in d.roots <==> [q] in k.dirs;
      assert [p] <= [q] ==> [p][0] == [q][0];
      if Some(q) in d.roots && q != p {
        var i :| 0 <= i < |d.roots| && d.roots[i] == Some(q);
        assert e.roots[i] == Some(q);
      }
      if Some(q) in e.roots {
        var i :| 0 <= i < |e.roots| && e.roots[i] == Some(q);
        assert i != j && d.roots[i] == Some(q);
      }
    }
  }

  /** Zapping a root from the list, and when it was the last one. */
  lemma RootGone(roots: set<string>, k: Kernel, d: Daemon, l: Loc)
    requires InSync(roots, k, d) && l in k.dirs && |l| == 1
    ensures IsRoot(d, Path(l))
    ensures var e := RootZapped(d, Path(l));
      && RootsMatch(Kept(k, Without(k.dirs, l)), e)
      && (NoRootsLeft(e) <==> Without(k.dirs, l) == map[])
  {
    RootPathIff(roots, k, d, l);
    var p := l[0];
    assert l == [p] && Path(l) == p;
    var e := RootZapped(d, p);
    var dirs := Without(k.dirs, l);
    WithoutWellFormed(roots, k.dirs, l);
    RootZappedMatches(k, d, p);
    hide InSync, WellFormed, Cached, WellFormedDirs, Without, FindRoot;
    ZeroesAll(e.roots);
    if dirs != map[] {
      var m :| m in dirs;
      UnderItsRoot(roots, dirs, m);
    }
  }

  lemma RootsUntouched(k: Kernel, d: Daemon, slots: Slots, at: Loc)
    requires RootsMatch(k, d) && |at| > 1
    ensures RootsMatch(Kept(k, Without(k.dirs, at)), d.(slots := slots))
  {
  }

  /** Clearing the slot of an empty directory is what its removal calls for. */
  lemma ClearedInSync(roots: set<string>, k: Kernel, d: Daemon, at: Loc, e: Daemon)
    requires InSync(roots, k, d) && at in k.dirs && IsEmptyAt(k.dirs, at)
    requires FindWatch(d.slots, WdOf(k, at)) >= 0
    requires e.slots == Emptied(d.slots, FindWatch(d.slots, WdOf(k, at)))
    requires RootsMatch(Kept(k, Without(k.dirs, at)), e)
    ensures InSync(roots, Kept(k, Without(k.dirs, at)), e)
  {
    var wd := WdOf(k, at);
    SlotOf(k, d, wd, at);
    EmptiedMeans(d.slots, FindWatch(d.slots, wd));
    forall w ensures w in LiveSet(e.slots) <==>
      w in LiveSet(d.slots) && exists l | l in Without(k.dirs, at) :: Watches(k, w.wd, l)
    {
      if w in LiveSet(d.slots) {
        var m :| m in k.dirs && |m| > 0 && Watches(k, w.wd, m) && w.path == Path(m);
        if w != Watch(wd, Path(at)) {
          assert m != at;
          assert m in Without(k.dirs, at);
        }
      }
    }
    KeptInSync(roots, k, at, d, e);
  }

  /** rmdir, of a root or of another directory. */
  lemma {:induction false} RemoveSettles(roots: set<string>, k: Kernel, d: Daemon, at: Loc, dirBit: bool,
      env: nat -> Answers)
    requires InSync(roots, k, d) && Can(roots, k, Remove(at))
    ensures AllLegal(EventsOf(roots, k, Remove(at), dirBit, 0))
    ensures var evs := EventsOf(roots, k, Remove(at), dirBit, 0);
      var k' := Kept(k, Without(k.dirs, at));
      var end := Process(d, evs, env, 0);
      if k'.dirs == map[] then end == Gone
      else end.Alive? && !end.rebuilt && InSync(roots, k', end.d)
  {
    var wd := WdOf(k, at);
    SlotOf(k, d, wd, at);
    DeletedProcess(d, wd, dirBit, env, 0);
    RootPathIff(roots, k, d, at);
    if |at| == 1 {
      RootGone(roots, k, d, at);
      var e := RootZapped(d, Path(at));
      if !NoRootsLeft(e) {
        ClearedInSync(roots, k, d, at, Cleared(e, wd));
      }
    } else {
      RootsUntouched(k, d, Cleared(d, wd).slots, at);
      ClearedInSync(roots, k, d, at, Cleared(d, wd));
      UnderItsRoot(roots, k.dirs, at);
      assert [at[0]] in Without(k.dirs, at);
    }
  }

  // ------------------------------------------------------------ moving out

  /** Descriptors the program gave to inotify_rm_watch. */
  ghost function Unwatched(k: Kernel, before: Slots, after: Slots): map<nat, nat> {
    map wd | wd in k.watches && !(exists w :: w in LiveSet(before) && w !in LiveSet(after) && w.wd == wd)
      :: k.watches[wd]
  }

  lemma ZapMatches(roots: set<string>, k: Kernel, d: Daemon, at: Loc, w: Watch)
    requires InSync(roots, k, d) && at in k.dirs && w in LiveSet(d.slots)
    ensures w.wd in k.watches
    ensures Below(Path(at), w.path) <==> !exists l | l in Without(k.dirs, at) :: Watches(k, w.wd, l)
    ensures Below(Path(at), w.path) <==> k.watches[w.wd] !in Without(k.dirs, at).Values
  {
    var m :| m in k.dirs && |m| > 0 && Watches(k, w.wd, m) && w.path == Path(m);
    BelowIffPrefix(roots, at, m);
    assert forall l | Watches(k, w.wd, l) :: l == m;
    var dirs := Without(k.dirs, at);
    assert m in dirs ==> dirs[m] in dirs.Values;
    assert forall l | l in dirs && dirs[l] == k.watches[w.wd] :: Watches(k, w.wd, l);
  }

  lemma ZapInSync(roots: set<string>, k: Kernel, d: Daemon, at: Loc, stale: set<int>, e: Daemon)
    requires InSync(roots, k, d) && at in k.dirs
    requires forall wd | wd in k.watches :: wd !in stale
    requires e.slots == Zapped(d.slots, Path(at), stale).slots
    requires RootsMatch(Kept(k, Without(k.dirs, at)), e)
    ensures Zapped(d.slots, Path(at), stale).count >= 0
    ensures InSync(roots, Kept(k, Without(k.dirs, at)), e)
  {
    ZappedMeans(d.slots, Path(at), stale);
    forall w | w in LiveSet(d.slots)
      ensures w.wd in k.watches
      ensures Below(Path(at), w.path) <==> !exists l | l in Without(k.dirs, at) :: Watches(k, w.wd, l)
    {
      ZapMatches(roots, k, d, at, w);
    }
    KeptInSync(roots, k, at, d, e);
  }

  lemma ZapUnwatches(roots: set<string>, k: Kernel, d: Daemon, at: Loc, stale: set<int>)
    requires InSync(roots, k, d) && at in k.dirs
    requires forall wd | wd in k.watches :: wd !in stale
    ensures Unwatched(k, d.slots, Zapped(d.slots, Path(at), stale).slots) == Kept(k, Without(k.dirs, at)).watches
  {
    var after := Zapped(d.slots, Path(at), stale).slots;
    ZappedMeans(d.slots, Path(at), stale);
    forall w | w in LiveSet(d.slots) ensures w.wd in k.watches {
      ZapMatches(roots, k, d, at, w);
    }
    forall wd | wd in k.watches
      ensures k.watches[wd] in Without(k.dirs, at).Values <==>
        !(exists w :: w in LiveSet(d.slots) && w !in LiveSet(after) && w.wd == wd)
    {
      assert IsPlaced(k, wd);
      var l :| Watches(k, wd, l);
      SlotOf(k, d, wd, l);
      var w := Watch(wd, Path(l));
      assert w in LiveSet(d.slots);
      ZapMatches(roots, k, d, at, w);
      assert forall v | v in LiveSet(d.slots) && v.wd == wd :: v == w;
    }
  }

  lemma LeaveRoot(roots: set<string>, k: Kernel, d: Daemon, at: Loc, dirBit: bool, a: Answers)
    requires InSync(roots, k, d) && at in k.dirs && |at| == 1
    requires forall wd | wd in k.watches :: wd !in a.stale
    requires FindWatch(d.slots, WdOf(k, at)) >= 0 && PathOf(d, WdOf(k, at)) == Path(at)
    ensures IsRoot(d, Path(at))
    ensures var o := RootMoved(d, Event(WdOf(k, at), SelfMask(IN_MOVE_SELF, dirBit), 0, "", 0), a);
      && (Without(k.dirs, at) == map[] ==> o == Exited)
      && (Without(k.dirs, at) != map[] ==>
            && o.Took? && InSync(roots, Kept(k, Without(k.dirs, at)), o.d)
            && o.d.slots == Zapped(d.slots, Path(at), a.stale).slots)
  {
    RootGone(roots, k, d, at);
    var e := RootZapped(d, Path(at));
    if !NoRootsLeft(e) {
      ZapInSync(roots, k, d, at, a.stale, e.(slots := Zapped(d.slots, Path(at), a.stale).slots));
    }
  }

  lemma LeaveInner(roots: set<string>, k: Kernel, d: Daemon, at: Loc, cookie: nat, a: Answers)
    requires InSync(roots, k, d) && at in k.dirs && |at| > 1
    requires forall wd | wd in k.watches :: wd !in a.stale
    requires FindWatch(d.slots, WdOf(k, Parent(at))) >= 0
    requires PathOf(d, WdOf(k, Parent(at))) == Path(Parent(at))
    ensures var o := MovedAway(d, EntryEvent(WdOf(k, Parent(at)), IN_MOVED_FROM, cookie, Last(at)), None, false, a);
      && Without(k.dirs, at) != map[]
      && o.Took? && InSync(roots, Kept(k, Without(k.dirs, at)), o.d)
      && o.d.slots == Zapped(d.slots, Path(at), a.stale).slots
  {
    assert Parent(at) + [Last(at)] == at;
    PathSnoc(Parent(at), Last(at));
    var e := d.(slots := Zapped(d.slots, Path(at), a.stale).slots);
    RootsUntouched(k, d, e.slots, at);
    ZapInSync(roots, k, d, at, a.stale, e);
    UnderItsRoot(roots, k.dirs, at);
    assert [at[0]] in Without(k.dirs, at);
  }

  /** A rename out of the trees: the program gives up exactly the watches of the
      directories that left; it exits when the last root left. */
  lemma {:induction false} LeaveSettles(roots: set<string>, k: Kernel, d: Daemon, at: Loc, dirBit: bool, cookie: nat,
      env: nat -> Answers)
    requires InSync(roots, k, d) && Can(roots, k, Leave(at))
    requires forall wd | wd in k.watches :: wd !in env(0).stale
    ensures AllLegal(EventsOf(roots, k, Leave(at), dirBit, cookie))
    ensures var end := Process(d, EventsOf(roots, k, Leave(at), dirBit, cookie), env, 0);
      && (Without(k.dirs, at) == map[] ==> end == Gone)
      && (Without(k.dirs, at) != map[] ==>
            && end.Alive? && !end.rebuilt
            && InSync(roots, Kept(k, Without(k.dirs, at)), end.d)
            && Kept(k, Without(k.dirs, at)).watches == Unwatched(k, d.slots, end.d.slots))
  {
    var evs := EventsOf(roots, k, Leave(at), dirBit, cookie);
    ZapUnwatches(roots, k, d, at, env(0).stale);
    ProcessSingle(d, evs[0], env, 0);
    if |at| == 1 {
      SlotOf(k, d, WdOf(k, at), at);
      LeaveRoot(roots, k, d, at, dirBit, env(0));
      StepMoveSelf(d, WdOf(k, at), dirBit, env(0));
    } else {
      SlotOf(k, d, WdOf(k, Parent(at)), Parent(at));
      LeaveInner(roots, k, d, at, cookie, env(0));
      StepMovedFrom(d, WdOf(k, Parent(at)), cookie, Last(at), None, env(0));
    }
  }

  // -------------------------------------------------- renames in the trees

  lemma RewrittenEmptied(s: Slots, j: nat, oldDir: string, newDir: string)
    requires j < |s| && oldDir != ""
    ensures Emptied(Rewritten(s, oldDir, newDir), j) == Rewritten(Emptied(s, j), oldDir, newDir)
  {
  }

  /** A slot outside the renamed directory stays as it is. */
  lemma SlotElsewhere(s: Slots, j: nat, oldDir: string, newDir: string)
    requires UniqueWds(s) && j < |s| && s[j].wd >= 0 && !Below(oldDir, s[j].path) && oldDir != ""
    ensures FindWatch(Rewritten(s, oldDir, newDir), s[j].wd) == j && Rewritten(s, oldDir, newDir)[j] == s[j]
    ensures Emptied(Rewritten(s, oldDir, newDir), j) == Rewritten(Emptied(s, j), oldDir, newDir)
  {
    RewrittenMeans(s, oldDir, newDir);
    FindIsUnique(Rewritten(s, oldDir, newDir), j);
    RewrittenEmptied(s, j, oldDir, newDir);
  }

  /** k' is k after the directory from has become to. */
  ghost predicate Moves(k: Kernel, from: Loc, to: Loc, k': Kernel) {
    k' == k.(dirs := k'.dirs) && IsRelocated(k.dirs, from, to, k'.dirs)
  }

  lemma RelocatedExpectedOnly(roots: set<string>, k: Kernel, from: Loc, to: Loc, k': Kernel, w: Watch)
    requires WellFormed(roots, k) && ValidLoc(roots, from) && ValidLoc(roots, to)
    requires Moves(k, from, to, k') && IsExpected(k', w)
    ensures exists v :: IsExpected(k, v) && w == Watch(v.wd, Moved(v.path, Path(from), Path(to)))
  {
    var m :| m in k'.dirs && |m| > 0 && Watches(k', w.wd, m) && w.path == Path(m);
    var l :| l in k.dirs && m == Relocated(l, from, to);
    MovedMatchesRelocated(roots, l, from, to);
    assert Watches(k, w.wd, l);
    assert IsExpected(k, Watch(w.wd, Path(l)));
  }

  lemma RelocatedExpectedAll(roots: set<string>, k: Kernel, from: Loc, to: Loc, k': Kernel, v: Watch)
    requires WellFormed(roots, k) && ValidLoc(roots, from) && ValidLoc(roots, to)
    requires Moves(k, from, to, k') && IsExpected(k, v)
    ensures IsExpected(k', Watch(v.wd, Moved(v.path, Path(from), Path(to))))
  {
    var l :| l in k.dirs && |l| > 0 && Watches(k, v.wd, l) && v.path == Path(l);
    MovedMatchesRelocated(roots, l, from, to);
    assert Watches(k', v.wd, Relocated(l, from, to));
  }

  lemma RelocatedRoots(k: Kernel, d: Daemon, from: Loc, to: Loc, k': Kernel, slots: Slots)
    requires RootsMatch(k, d) && |from| > 1 && |to| > 1 && Moves(k, from, to, k')
    ensures RootsMatch(k', d.(slots := slots))
  {
    forall p ensures [p] in k'.dirs <==> [p] in k.dirs {
      assert Relocated([p], from, to) == [p];
    }
  }

  lemma RelocatedIsWatched(k: Kernel, from: Loc, to: Loc, k': Kernel, m: Loc)
    requires Moves(k, from, to, k') && m in k'.dirs
    requires forall l {:trigger IsWatched(k, l)} | l in k.dirs :: IsWatched(k, l)
    ensures IsWatched(k', m)
  {
    var l :| l in k.dirs && m == Relocated(l, from, to);
    assert Watches(k', WdOf(k, l), m);
  }

  lemma RelocatedIsPlaced(k: Kernel, from: Loc, to: Loc, k': Kernel, wd: nat)
    requires Moves(k, from, to, k')
    requires IsPlaced(k, wd)
    ensures IsPlaced(k', wd)
  {
    assert IsPlaced(k, wd);
    var l :| Watches(k, wd, l);
    assert Watches(k', wd, Relocated(l, from, to));
  }

  /** Rewriting the cached prefixes is exactly what a rename of a directory onto
      a free name calls for. */
  lemma RewrittenInSync(roots: set<string>, k: Kernel, d: Daemon, from: Loc, to: Loc)
    requires InSync(roots, k, d) && CanRename(roots, k, from, to)
    requires forall m | m in k.dirs :: !(to <= m)
    ensures InSync(roots, k.(dirs := RelocatedDirs(k.dirs, from, to)),
                   d.(slots := Rewritten(d.slots, Path(from), Path(to))))
  {
    var k' := k.(dirs := RelocatedDirs(k.dirs, from, to));
    var s := Rewritten(d.slots, Path(from), Path(to));
    RelocatedDirsAre(k.dirs, from, to);
    RelocatedWellFormed(roots, k.dirs, from, to);
    RelocatedRoots(k, d, from, to, k', s);
    forall m | m in k'.dirs ensures IsWatched(k', m) {
      RelocatedIsWatched(k, from, to, k', m);
    }
    forall wd | wd in k'.watches ensures IsPlaced(k', wd) {
      RelocatedIsPlaced(k, from, to, k', wd);
    }
    RewrittenMeans(d.slots, Path(from), Path(to));
    forall w | IsExpected(k', w) ensures w in LiveSet(s) {
      RelocatedExpectedOnly(roots, k, from, to, k', w);
    }
    forall w | w in LiveSet(s) ensures IsExpected(k', w) {
      var v :| v in LiveSet(d.slots) && w == Watch(v.wd, Moved(v.path, Path(from), Path(to)));
      RelocatedExpectedAll(roots, k, from, to, k', v);
    }
  }

  lemma NothingThere(roots: set<string>, k: Kernel, d: Daemon, at: Loc)
    requires InSync(roots, k, d) && at !in k.dirs && IsEmptyAt(k.dirs, at)
    ensures Without(k.dirs, at) == k.dirs && Kept(k, k.dirs) == k
  {
    forall wd | wd in k.watches ensures k.watches[wd] in k.dirs.Values {
      assert IsPlaced(k, wd);
      var l :| Watches(k, wd, l);
    }
  }

  lemma RenamedFree(roots: set<string>, k: Kernel, d: Daemon, from: Loc, to: Loc)
    requires InSync(roots, k, d) && CanRename(roots, k, from, to) && to !in k.dirs
    ensures InSync(roots, Renamed(k, from, to), d.(slots := Rewritten(d.slots, Path(from), Path(to))))
  {
    NothingThere(roots, k, d, to);
    RewrittenInSync(roots, k, d, from, to);
  }

  lemma VictimGone(roots: set<string>, k: Kernel, d: Daemon, from: Loc, to: Loc)
    requires InSync(roots, k, d) && CanRename(roots, k, from, to) && to in k.dirs
    requires FindWatch(d.slots, WdOf(k, to)) >= 0
    ensures var k0 := Kept(k, Without(k.dirs, to));
      && InSync(roots, k0, Cleared(d, WdOf(k, to)))
      && CanRename(roots, k0, from, to)
      && (forall m | m in k0.dirs :: !(to <= m))
  {
    RootsUntouched(k, d, Cleared(d, WdOf(k, to)).slots, to);
    ClearedInSync(roots, k, d, to, Cleared(d, WdOf(k, to)));
    assert !(to <= from) && !(to <= Parent(to));
  }

  lemma VictimSlot(roots: set<string>, k: Kernel, d: Daemon, from: Loc, to: Loc)
    requires InSync(roots, k, d) && CanRename(roots, k, from, to) && to in k.dirs
    ensures var e := d.(slots := Rewritten(d.slots, Path(from), Path(to)));
      var j := FindWatch(d.slots, WdOf(k, to));
      && j >= 0 && FindWatch(e.slots, WdOf(k, to)) == j
      && PathOf(e, WdOf(k, to)) == Path(to)
      && Cleared(e, WdOf(k, to)).slots == Rewritten(Emptied(d.slots, j), Path(from), Path(to))
  {
    var wd := WdOf(k, to);
    SlotOf(k, d, wd, to);
    var j := FindWatch(d.slots, wd);
    assert NonNested(roots) && ValidLoc(roots, from) && ValidLoc(roots, to) && from != to && !(from <= to);
    assert UniqueWds(d.slots);
    hide InSync, CanRename, WellFormed, Cached, RootsMatch, UniqueWds, Rewritten, Below, Path, ValidLoc, NonNested;
    BelowIffPrefix(roots, from, to);
    PathSnoc(Parent(from), Last(from));
    assert Parent(from) + [Last(from)] == from;
    SlotElsewhere(d.slots, j, Path(from), Path(to));
  }

  /** The same over an empty directory, whose own slot goes last. */
  lemma RenamedOver(roots: set<string>, k: Kernel, d: Daemon, from: Loc, to: Loc)
    requires InSync(roots, k, d) && CanRename(roots, k, from, to) && to in k.dirs
    ensures var e := d.(slots := Rewritten(d.slots, Path(from), Path(to)));
      && FindWatch(e.slots, WdOf(k, to)) >= 0
      && PathOf(e, WdOf(k, to)) == Path(to)
      && InSync(roots, Renamed(k, from, to), Cleared(e, WdOf(k, to)))
  {
    VictimSlot(roots, k, d, from, to);
    VictimGone(roots, k, d, from, to);
    RewrittenInSync(roots, Kept(k, Without(k.dirs, to)), Cleared(d, WdOf(k, to)), from, to);
  }

  /** The two halves of a rename are handled together and lead to e. */
  ghost predicate Pairs(d: Daemon, ev: Event, next: Event, a: Answers, e: Daemon) {
    Legal(ev) && Legal(next) && Step(d, ev, Some(next), false, a) == Took(e, 2)
  }

  ghost predicate Clearable(e: Daemon, wd: nat) {
    FindWatch(e.slots, wd) >= 0 && !IsRoot(e, PathOf(e, wd))
  }

  lemma {:induction false} PairStep(d: Daemon, from: nat, name: string, to: nat, newName: string, cookie: nat,
      a: Answers)
    requires FindWatch(d.slots, from) >= 0 && FindWatch(d.slots, to) >= 0
    ensures Pairs(d, EntryEvent(from, IN_MOVED_FROM, cookie, name), EntryEvent(to, IN_MOVED_TO, cookie, newName), a,
                  d.(slots := Rewritten(d.slots, PathOf(d, from) + "/" + name, PathOf(d, to) + "/" + newName)))
  {
    StepMovedFrom(d, from, cookie, name, Some(EntryEvent(to, IN_MOVED_TO, cookie, newName)), a);
  }

  lemma PathOfEntry(l: Loc)
    requires |l| > 1
    ensures Path(Parent(l)) + "/" + Last(l) == Path(l) && Path(l) != ""
  {
    PathSnoc(Parent(l), Last(l));
    assert Parent(l) + [Last(l)] == l;
  }

  lemma RenameStep(roots: set<string>, k: Kernel, d: Daemon, from: Loc, to: Loc, cookie: nat, a: Answers)
    requires InSync(roots, k, d) && |from| > 1 && Parent(from) in k.dirs && |to| > 1 && Parent(to) in k.dirs
    ensures var ev := EntryEvent(WdOf(k, Parent(from)), IN_MOVED_FROM, cookie, Last(from));
      var next := EntryEvent(WdOf(k, Parent(to)), IN_MOVED_TO, cookie, Last(to));
      Pairs(d, ev, next, a, d.(slots := Rewritten(d.slots, Path(from), Path(to))))
  {
    SlotOf(k, d, WdOf(k, Parent(from)), Parent(from));
    SlotOf(k, d, WdOf(k, Parent(to)), Parent(to));
    hide InSync, Pairs, Rewritten;
    PairStep(d, WdOf(k, Parent(from)), Last(from), WdOf(k, Parent(to)), Last(to), cookie, a);
    PathOfEntry(from);
    PathOfEntry(to);
  }

  lemma {:induction false} ProcessTwo(d: Daemon, ev: Event, next: Event, rest: seq<Event>, env: nat -> Answers,
      pos: nat, e: Daemon)
    requires Pairs(d, ev, next, env(pos), e) && AllLegal(rest)
    ensures AllLegal([ev, next] + rest)
    ensures Process(d, [ev, next] + rest, env, pos) == Process(e, rest, env, pos + 2)
  {
    var evs := [ev, next] + rest;
    assert evs[2..] == rest;
    assert forall i | 1 < i < |evs| :: evs[i] == rest[i - 2];
  }

  lemma {:induction false} RenameFreeProcess(roots: set<string>, k: Kernel, d: Daemon, from: Loc, to: Loc,
      cookie: nat, env: nat -> Answers)
    requires InSync(roots, k, d) && CanRename(roots, k, from, to)
    ensures var evs := [EntryEvent(WdOf(k, Parent(from)), IN_MOVED_FROM, cookie, Last(from)),
                        EntryEvent(WdOf(k, Parent(to)), IN_MOVED_TO, cookie, Last(to))];
      && AllLegal(evs)
      && Process(d, evs, env, 0) == Alive(d.(slots := Rewritten(d.slots, Path(from), Path(to))), false)
  {
    var ev := EntryEvent(WdOf(k, Parent(from)), IN_MOVED_FROM, cookie, Last(from));
    var next := EntryEvent(WdOf(k, Parent(to)), IN_MOVED_TO, cookie, Last(to));
    RenameStep(roots, k, d, from, to, cookie, env(0));
    ProcessTwo(d, ev, next, [], env, 0, d.(slots := Rewritten(d.slots, Path(from), Path(to))));
    assert [ev, next] + [] == [ev, next];
  }

  lemma {:induction false} OverProcess(d: Daemon, ev: Event, next: Event, e: Daemon, wd: nat, dirBit: bool,
      env: nat -> Answers)
    requires Pairs(d, ev, next, env(0), e) && Clearable(e, wd)
    ensures var evs := [ev, next] + Deleted(wd, dirBit);
      && AllLegal(evs)
      && Process(d, evs, env, 0) == Alive(Cleared(e, wd), false)
  {
    DeletedProcess(e, wd, dirBit, env, 2);
    ProcessTwo(d, ev, next, Deleted(wd, dirBit), env, 0, e);
  }

  lemma {:induction false} RenameOverProcess(roots: set<string>, k: Kernel, d: Daemon, from: Loc, to: Loc,
      dirBit: bool, cookie: nat, env: nat -> Answers)
    requires InSync(roots, k, d) && CanRename(roots, k, from, to) && to in k.dirs
    ensures var evs := [EntryEvent(WdOf(k, Parent(from)), IN_MOVED_FROM, cookie, Last(from)),
                        EntryEvent(WdOf(k, Parent(to)), IN_MOVED_TO, cookie, Last(to))]
                       + Deleted(WdOf(k, to), dirBit);
      var e := d.(slots := Rewritten(d.slots, Path(from), Path(to)));
      && AllLegal(evs)
      && FindWatch(e.slots, WdOf(k, to)) >= 0
      && Process(d, evs, env, 0) == Alive(Cleared(e, WdOf(k, to)), false)
  {
    var ev := EntryEvent(WdOf(k, Parent(from)), IN_MOVED_FROM, cookie, Last(from));
    var next := EntryEvent(WdOf(k, Parent(to)), IN_MOVED_TO, cookie, Last(to));
    var e := d.(slots := Rewritten(d.slots, Path(from), Path(to)));
    var wd := WdOf(k, to);
    assert Clearable(e, wd) by {
      VictimSlot(roots, k, d, from, to);
      RootPathIff(roots, k, d, to);
      assert IsRoot(e, Path(to)) == IsRoot(d, Path(to));
    }
    RenameStep(roots, k, d, from, to, cookie, env(0));
    OverProcess(d, ev, next, e, WdOf(k, to), dirBit, env);
  }

  /** A rename inside the trees, also over an empty directory. */
  lemma {:induction false} RenameSettles(roots: set<string>, k: Kernel, d: Daemon, from: Loc, to: Loc, dirBit: bool,
      cookie: nat, env: nat -> Answers)
    requires InSync(roots, k, d) && Can(roots, k, Rename(from, to))
    ensures AllLegal(EventsOf(roots, k, Rename(from, to), dirBit, cookie))
    ensures var end := Process(d, EventsOf(roots, k, Rename(from, to), dirBit, cookie), env, 0);
      end.Alive? && !end.rebuilt && InSync(roots, Renamed(k, from, to), end.d)
  {
    var evs := EventsOf(roots, k, Rename(from, to), dirBit, cookie);
    if to in k.dirs {
      RenamedOver(roots, k, d, from, to);
      RenameOverProcess(roots, k, d, from, to, dirBit, cookie, env);
    } else {
      RenamedFree(roots, k, d, from, to);
      RenameFreeProcess(roots, k, d, from, to, cookie, env);
      assert evs == [evs[0], evs[1]];
    }
  }

  // -------------------------------------------------------------- arrivals

  /** Grafting a subtree of unwatched inodes leaves the expected slots alone. */
  lemma GraftedExpected(k: Kernel, at: Loc, tree: map<seq<string>, nat>, g: map<Loc, nat>, w: Watch)
    requires IsGraft(k.dirs, at, tree, g) && at !in k.dirs && IsEmptyAt(k.dirs, at)
    requires tree.Values !! k.watches.Values
    ensures IsExpected(k.(dirs := g), w) <==> IsExpected(k, w)
  {
    var k' := k.(dirs := g);
    if IsExpected(k, w) {
      var l :| l in k.dirs && |l| > 0 && Watches(k, w.wd, l) && w.path == Path(l);
      assert Watches(k', w.wd, l);
    }
    assert forall l | l in g && at <= l :: g[l] in tree.Values;
    assert forall wd, l | Watches(k', wd, l) :: g[l] in k.watches.Values;
    if IsExpected(k', w) {
      var l :| l in g && |l| > 0 && Watches(k', w.wd, l) && w.path == Path(l);
      assert Watches(k, w.wd, l);
    }
  }

  lemma GraftedPlaced(k: Kernel, at: Loc, tree: map<seq<string>, nat>, g: map<Loc, nat>, wd: nat)
    requires IsGraft(k.dirs, at, tree, g) && at !in k.dirs && IsPlaced(k, wd)
    ensures IsPlaced(k.(dirs := g), wd)
  {
    var l :| Watches(k, wd, l);
    assert Watches(k.(dirs := g), wd, l);
  }

  lemma GraftedWatched(k: Kernel, at: Loc, tree: map<seq<string>, nat>, g: map<Loc, nat>, m: Loc)
    requires IsGraft(k.dirs, at, tree, g) && m in g && !(at <= m)
    requires IsWatched(k, m)
    ensures IsWatched(k.(dirs := g), m)
  {
    assert Watches(k.(dirs := g), WdOf(k, m), m);
  }

  lemma GraftedRoots(k: Kernel, d: Daemon, at: Loc, tree: map<seq<string>, nat>, g: map<Loc, nat>, slots: Slots)
    requires IsGraft(k.dirs, at, tree, g) && RootsMatch(k, d) && |at| > 1
    ensures RootsMatch(k.(dirs := g), d.(slots := slots))
  {
    forall p ensures [p] in g <==> [p] in k.dirs {
      assert !(at <= [p]);
    }
  }

  /** The traversal that follows an arrival under a free name covers it. */
  lemma {:induction false} ArriveFree(roots: set<string>, k: Kernel, d: Daemon, at: Loc, tree: map<seq<string>, nat>,
      created: bool, order: seq<Loc>)
    requires InSync(roots, k, d) && CanArrive(roots, k, at, tree, created) && at !in k.dirs
    requires Lists(order, Grafted(k.dirs, at, tree), at)
    ensures Arrived(k, at, tree).dirs == Grafted(k.dirs, at, tree)
    ensures WellFormed(roots, Arrived(k, at, tree))
    ensures var t := Traverse(d.slots, VisitsOf(Arrived(k, at, tree), order));
      !t.exited && InSync(roots, WatchAll(Arrived(k, at, tree), order), d.(slots := t.slots))
  {
    var g := Grafted(k.dirs, at, tree);
    var k1 := k.(dirs := g);
    NothingThere(roots, k, d, at);
    GraftedAre(k.dirs, at, tree);
    GraftedWellFormed(roots, k, at, tree, created);
    assert Cached(k1, d.slots) by {
      forall w ensures w in LiveSet(d.slots) <==> IsExpected(k1, w) {
        GraftedExpected(k, at, tree, g, w);
      }
    }
    var t := Traverse(d.slots, VisitsOf(k1, order));
    GraftedRoots(k, d, at, tree, g, t.slots);
    TraverseKeepsCached(roots, k1, d.slots, order);
    forall wd | wd in k1.watches ensures IsPlaced(k1, wd) {
      GraftedPlaced(k, at, tree, g, wd);
    }
    TraverseKeepsPlaced(k1, order);
    forall m | m in g ensures IsWatched(WatchAll(k1, order), m) {
      if !(at <= m) {
        GraftedWatched(k, at, tree, g, m);
      }
    }
  }

  lemma AppearStep(roots: set<string>, k: Kernel, d: Daemon, at: Loc, created: bool, cookie: nat,
      next: Option<Event>, a: Answers)
    requires InSync(roots, k, d) && |at| > 1 && ValidLoc(roots, at) && Parent(at) in k.dirs
    ensures var ev := EntryEvent(WdOf(k, Parent(at)), if created then IN_CREATE else IN_MOVED_TO, cookie, Last(at));
      var t := Traverse(d.slots, a.visits);
      Step(d, ev, next, false, a)
        == if at in k.dirs then Took(d, 1) else if t.exited then Exited else Took(d.(slots := t.slots), 1)
  {
    SlotOf(k, d, WdOf(k, Parent(at)), Parent(at));
    StepArrive(d, WdOf(k, Parent(at)), created, cookie, Last(at), next, a);
    assert Parent(at) + [Last(at)] == at;
    PathSnoc(Parent(at), Last(at));
    PathCachedIff(roots, k, d.slots, at);
    assert at in k.dirs ==> IsWatched(k, at);
  }

  /** nftw visited order with the answers of kernel k. */
  ghost predicate VisitsFaithful(k: Kernel, order: seq<Loc>, visits: seq<Visit>) {
    && (forall l | l in order :: l in k.dirs && |l| > 0)
    && visits == VisitsOf(k, order)
  }

  ghost predicate Reaches(d: Daemon, ev: Event, a: Answers, e: Daemon) {
    Legal(ev) && Step(d, ev, None, false, a) == Took(e, 1)
  }

  lemma {:induction false} ReachesProcess(d: Daemon, ev: Event, env: nat -> Answers, e: Daemon)
    requires Reaches(d, ev, env(0), e)
    ensures AllLegal([ev]) && Process(d, [ev], env, 0) == Alive(e, false)
  {
    ProcessSingle(d, ev, env, 0);
  }

  lemma ArriveStep(roots: set<string>, k: Kernel, d: Daemon, at: Loc, created: bool, cookie: nat, a: Answers)
    requires InSync(roots, k, d) && at !in k.dirs && |at| > 1 && ValidLoc(roots, at) && Parent(at) in k.dirs
    requires !Traverse(d.slots, a.visits).exited
    ensures Reaches(d, ArrivalEvent(k, at, created, cookie), a, d.(slots := Traverse(d.slots, a.visits).slots))
  {
    AppearStep(roots, k, d, at, created, cookie, None, a);
  }

  /** mkdir, or a rename into the trees under a free name. */
  lemma {:induction false} ArriveSettles(roots: set<string>, k: Kernel, d: Daemon, at: Loc,
      tree: map<seq<string>, nat>, created: bool, dirBit: bool, cookie: nat, order: seq<Loc>, env: nat -> Answers)
    requires InSync(roots, k, d) && Can(roots, k, Arrive(at, tree, created)) && at !in k.dirs
    requires Lists(order, Grafted(k.dirs, at, tree), at)
    requires VisitsFaithful(Arrived(k, at, tree), order, env(0).visits)
    ensures AllLegal(EventsOf(roots, k, Arrive(at, tree, created), dirBit, cookie))
    ensures var end := Process(d, EventsOf(roots, k, Arrive(at, tree, created), dirBit, cookie), env, 0);
      && end.Alive? && !end.rebuilt
      && InSync(roots, WatchAll(Arrived(k, at, tree), order), end.d)
  {
    var evs := EventsOf(roots, k, Arrive(at, tree, created), dirBit, cookie);
    var e := d.(slots := Traverse(d.slots, env(0).visits).slots);
    ArriveFree(roots, k, d, at, tree, created, order);
    ArriveStep(roots, k, d, at, created, cookie, env(0));
    ReachesProcess(d, ArrivalEvent(k, at, created, cookie), env, e);
    assert evs == [ArrivalEvent(k, at, created, cookie)];
  }

  lemma {:induction false} AppearOverProcess(d: Daemon, ev: Event, wd: nat, dirBit: bool, env: nat -> Answers)
    requires Legal(ev) && Clearable(d, wd)
    requires Step(d, ev, Some(Deleted(wd, dirBit)[0]), false, env(0)) == Took(d, 1)
    ensures AllLegal([ev] + Deleted(wd, dirBit))
    ensures Process(d, [ev] + Deleted(wd, dirBit), env, 0) == Alive(Cleared(d, wd), false)
  {
    DeletedProcess(d, wd, dirBit, env, 1);
    ProcessOne(d, ev, Deleted(wd, dirBit), env, 0);
  }

  /** A rename into the trees over an existing empty directory is missed. The
      name is still cached for the directory being replaced, so the new one is
      not watched, and then that slot is cleared: no cache and no watch remain,
      whatever the kernel answers and however the visits would have gone. */
  lemma {:induction false} MoveInOverEmptyIsMissed(roots: set<string>, k: Kernel, d: Daemon, at: Loc,
      tree: map<seq<string>, nat>, dirBit: bool, cookie: nat, env: nat -> Answers)
    requires InSync(roots, k, d) && Can(roots, k, Arrive(at, tree, false)) && at in k.dirs
    ensures AllLegal(EventsOf(roots, k, Arrive(at, tree, false), dirBit, cookie))
    ensures var end := Process(d, EventsOf(roots, k, Arrive(at, tree, false), dirBit, cookie), env, 0);
      && end.Alive? && !end.rebuilt
      && !PathInCache(end.d.slots, Path(at))
      && !InSync(roots, Arrived(k, at, tree), end.d)
  {
    var wd := WdOf(k, at);
    var ev := EntryEvent(WdOf(k, Parent(at)), IN_MOVED_TO, cookie, Last(at));
    AppearStep(roots, k, d, at, false, cookie, Some(Deleted(wd, dirBit)[0]), env(0));
    SlotOf(k, d, wd, at);
    RootPathIff(roots, k, d, at);
    AppearOverProcess(d, ev, wd, dirBit, env);
    var e := Cleared(d, wd);
    NameForgotten(roots, k, d, at);
    GraftedUnwatched(k, at, tree);
  }

  lemma NameForgotten(roots: set<string>, k: Kernel, d: Daemon, at: Loc)
    requires InSync(roots, k, d) && at in k.dirs && IsWatched(k, at) && ValidLoc(roots, at)
    requires FindWatch(d.slots, WdOf(k, at)) >= 0
    ensures !PathInCache(Cleared(d, WdOf(k, at)).slots, Path(at))
  {
    var wd := WdOf(k, at);
    SlotOf(k, d, wd, at);
    var j := FindWatch(d.slots, wd);
    EmptiedMeans(d.slots, j);
    var s := Emptied(d.slots, j);
    if PathInCache(s, Path(at)) {
      var w := s[PathSlot(s, Path(at))];
      assert w in LiveSet(s);
      var l :| l in k.dirs && |l| > 0 && Watches(k, w.wd, l) && w.path == Path(l);
      PathInjective(roots, at, l);
      assert false;
    }
  }

  lemma GraftedUnwatched(k: Kernel, at: Loc, tree: map<seq<string>, nat>)
    requires [] in tree && IsEmptyAt(k.dirs, at) && tree.Values !! k.watches.Values
    ensures at in Arrived(k, at, tree).dirs && !IsWatched(Arrived(k, at, tree), at)
  {
    var k1 := Arrived(k, at, tree);
    GraftedAre(k.dirs, at, tree);
    assert at + [] == at;
    assert k1.dirs[at] == tree[[]] && tree[[]] in tree.Values;
    forall wd: nat ensures !Watches(k1, wd, at) {
      assert wd in k1.watches ==> k1.watches[wd] in k.watches.Values;
    }
  }
}
