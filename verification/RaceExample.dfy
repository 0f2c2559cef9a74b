/** Three runs of the race. In the one the program's comments describe, a directory
    is made after its parent was watched and before the parent was listed, so that
    both the listing and an event lead to it; it is cached once. In the second a
    directory is replaced while nftw still has its stream open, and is missed. In
    the third nftw gives up because an entry it found is gone, and the entry after
    it is missed. */
module RaceExample {
  import opened Paths
  import opened WatchSlots
  import opened DirTree
  import opened CreationRace

  const NAMES := {"r"}
  const ROOTS := ["r"]
  const ROOT: Loc := ["r"]
  const CHILD: Loc := ["r", "a"]

  lemma Places()
    ensures Path(ROOT) == "r" && Path(CHILD) == "r/a" && Parent(CHILD) == ROOT && Last(CHILD) == "a"
    ensures ValidLoc(NAMES, ROOT) && ValidLoc(NAMES, CHILD) && NonNested(NAMES)
  {
    assert ROOT[1..] == [] && CHILD[1..] == ["a"] && ["a"][1..] == [] && CHILD[..1] == ROOT;
  }

  lemma EnteredAt(s: Sys, path: string, l: Loc)
    requires WellFormed(NAMES, s.k) && ValidLoc(NAMES, l) && l in s.k.dirs && Path(l) == path
    ensures VisitPath(s, path) == Entered(s, l)
  {
    VisitPathIs(NAMES, s, path);
    var m :| m in s.k.dirs && |m| > 0 && Path(m) == path && VisitPath(s, path) == Entered(s, m);
    PathInjective(NAMES, l, m);
  }

  ghost predicate One(a: Action, s: Sys, t: Sys) {
    Enabled(NAMES, s, a) && t == Apply(NAMES, ROOTS, s, a)
  }

  const EMPTY_ROOT := Kernel(map[ROOT := 1], map[], 1)
  const ROOT_WATCHED := Kernel(map[ROOT := 1], map[1 := 1], 2)
  const CHILD_MADE := Kernel(map[ROOT := 1, CHILD := 2], map[1 := 1], 2)
  const BOTH_WATCHED := Kernel(map[ROOT := 1, CHILD := 2], map[1 := 1, 2 := 2], 3)
  const CHILD_REMOVED := Kernel(map[ROOT := 1], map[1 := 1], 3)
  const CHILD_REPLACED := Kernel(map[ROOT := 1, CHILD := 3], map[1 := 1], 3)

  /** A state without roots to start. */
  function At(k: Kernel, queue: seq<Note>, slots: Slots, stack: seq<Frame>, held: map<nat, Loc>,
      overlooked: set<Loc>): Sys {
    Sys(k, queue, slots, [], stack, held, overlooked)
  }

  lemma KernelsWellFormed()
    ensures WellFormed(NAMES, EMPTY_ROOT) && WellFormed(NAMES, CHILD_MADE)
  {
    Places();
    hide ValidLoc, Path, NonNested;
  }

  // ------------------------------------------------------ the common start

  const START := Sys(EMPTY_ROOT, [], [], [ROOT], [], map[], {})

  /** The traversal enters the root, which is empty. */
  lemma RootEntered() returns (t: Sys)
    ensures One(StartRoot, START, t)
    ensures t == At(ROOT_WATCHED, [], t.slots, [Frame(ROOT, {})], map[], {})
  {
    Places();
    KernelsWellFormed();
    EnteredAt(START.(pending := []), "r", ROOT);
    t := Apply(NAMES, ROOTS, START, StartRoot);
    assert ChildNames(EMPTY_ROOT.dirs, ROOT) == {};
    assert START.pending[1..] == [];
  }

  /** A directory is made in it. */
  lemma ChildMade(s: Sys) returns (t: Sys)
    requires s == At(ROOT_WATCHED, [], s.slots, [Frame(ROOT, {})], map[], {})
    ensures One(Mkdir(CHILD, 2), s, t)
    ensures t == At(CHILD_MADE, [Made(1, "a")], s.slots, [Frame(ROOT, {})], map[], {})
  {
    Places();
    assert Watches(s.k, 1, ROOT);
    t := Apply(NAMES, ROOTS, s, Mkdir(CHILD, 2));
    assert s.queue + [Made(1, "a")] == [Made(1, "a")];
  }

  /** The traversal meets that directory when it lists the root. */
  lemma ChildMet(s: Sys) returns (t: Sys)
    requires s == At(CHILD_MADE, [Made(1, "a")], s.slots, [Frame(ROOT, {})], map[], {})
    ensures One(Meet("a"), s, t)
    ensures t == At(BOTH_WATCHED, [Made(1, "a")], t.slots, [Frame(ROOT, {}), Frame(CHILD, {})], map[], {})
  {
    Places();
    KernelsWellFormed();
    hide Path, WellFormed, ValidLoc, NonNested, TraverseOne;
    MeetEnters(s, ROOT, "a", CHILD);
    t := Entered(s, CHILD);
    assert ChildNames(s.k.dirs, CHILD) == {};
    assert !IsWatched(s.k, CHILD);
  }

  /** A name listed at the end, after the names seen before, leads to its directory. */
  lemma MeetEnters(s: Sys, at: Loc, name: string, l: Loc)
    requires s.stack == [Frame(at, {})] && |at| > 0 && '/' !in name && ValidLoc(NAMES, l) && l in s.k.dirs
    requires WellFormed(NAMES, s.k) && Path(at) + "/" + name == Path(l)
    ensures One(Meet(name), s, Entered(s, l))
  {
    hide Path, WellFormed, ValidLoc, VisitPath, Entered;
    var todo: set<string> := {};
    assert todo - {name} == todo;
    assert s.stack[..0] + [Frame(at, todo - {name})] == s.stack;
    EnteredAt(s, Path(at) + "/" + name, l);
  }

  /** Both are in the cache then. */
  ghost predicate BothIn(slots: Slots) {
    && FindWatch(slots, 1) >= 0 && slots[FindWatch(slots, 1)].path + "/" + "a" == "r/a"
    && FindWatch(slots, 2) >= 0 && PathInCache(slots, "r/a")
  }

  lemma BothCached(s: Sys)
    requires Inv(NAMES, ROOTS, s) && s.k == BOTH_WATCHED
    ensures BothIn(s.slots)
  {
    Places();
    hide Path, ValidLoc, Covered, Due, PathInCache, FindWatch, LiveSet, BOTH_WATCHED;
    BothWatched();
    WatchedIsCached(NAMES, s, ROOT);
    WatchedIsCached(NAMES, s, CHILD);
    LiveIsInCache(s.slots, Watch(2, "r/a"));
    LiveIsFound(s.slots, Watch(1, "r"));
  }

  lemma BothWatched()
    ensures IsWatched(BOTH_WATCHED, ROOT) && WdOf(BOTH_WATCHED, ROOT) == 1
    ensures IsWatched(BOTH_WATCHED, CHILD) && WdOf(BOTH_WATCHED, CHILD) == 2
  {
    assert Watches(BOTH_WATCHED, 1, ROOT) && Watches(BOTH_WATCHED, 2, CHILD);
  }

  lemma {:induction false} LiveIsFound(s: Slots, w: Watch)
    requires UniqueWds(s) && w in LiveSet(s)
    ensures FindWatch(s, w.wd) >= 0 && s[FindWatch(s, w.wd)] == w
  {
    var j :| 0 <= j < |s| && s[j] == w;
  }

  /** The event about the directory is passed over, for its name is cached. */
  lemma EventPassedOver(s: Sys, rest: seq<Note>)
    requires Idle(s) && s.queue == [Made(1, "a")] + rest && BothIn(s.slots)
    ensures One(HandleEvent, s, s.(queue := rest))
  {
    hide FindWatch, PathInCache;
    assert s.queue[1..] == rest;
    assert Handle(s, ROOTS) == s.(queue := rest);
  }

  lemma ListingEnds(s: Sys, at: Loc, rest: seq<Frame>)
    requires s.stack == rest + [Frame(at, {})]
    ensures One(ListingDone, s, s.(stack := rest))
  {
    assert s.stack[..|rest|] == rest;
  }

  lemma StepIsRight(a: Action, s: Sys, t: Sys)
    requires Inv(NAMES, ROOTS, s) && One(a, s, t)
    ensures Inv(NAMES, ROOTS, t)
  {
    StepKeeps(NAMES, ROOTS, s, a);
  }

  lemma StartIsRight()
    ensures Shape(NAMES, ROOTS, START) && Restart(START, ROOTS) == START && Inv(NAMES, ROOTS, START)
  {
    Places();
    KernelsWellFormed();
    hide WellFormed;
    assert Shape(NAMES, ROOTS, START) && Restart(START, ROOTS) == START;
    RestartKeeps(NAMES, ROOTS, START);
  }

  lemma {:induction false} RunGoesOn(a: Action, s: Sys, t: Sys, rest: seq<Action>, end: Sys)
    requires One(a, s, t) && Run(NAMES, ROOTS, t, rest, end)
    ensures Run(NAMES, ROOTS, s, [a] + rest, end)
  {
    hide Enabled, Apply;
    assert ([a] + rest)[1..] == rest;
  }

  lemma {:induction false} RunEnds(s: Sys)
    ensures Run(NAMES, ROOTS, s, [], s)
  {
  }

  /** Made, and met while its event waits. */
  lemma UntilMet() returns (t1: Sys, t2: Sys, t3: Sys)
    ensures One(StartRoot, START, t1) && One(Mkdir(CHILD, 2), t1, t2) && One(Meet("a"), t2, t3)
    ensures t3 == At(BOTH_WATCHED, [Made(1, "a")], t3.slots, [Frame(ROOT, {}), Frame(CHILD, {})], map[], {})
    ensures BothIn(t3.slots)
  {
    hide Apply, Enabled, Inv, Shape, Restart, One, BothIn;
    StartIsRight();
    t1 := RootEntered();
    t2 := ChildMade(t1);
    t3 := ChildMet(t2);
    StepIsRight(StartRoot, START, t1);
    StepIsRight(Mkdir(CHILD, 2), t1, t2);
    StepIsRight(Meet("a"), t2, t3);
    BothCached(t3);
  }

  lemma {:induction false} StartRuns(t1: Sys, t2: Sys, t3: Sys, rest: seq<Action>, end: Sys)
    requires One(StartRoot, START, t1) && One(Mkdir(CHILD, 2), t1, t2) && One(Meet("a"), t2, t3)
    requires Run(NAMES, ROOTS, t3, rest, end)
    ensures Shape(NAMES, ROOTS, START)
    ensures Run(NAMES, ROOTS, Restart(START, ROOTS), [StartRoot] + ([Mkdir(CHILD, 2)] + ([Meet("a")] + rest)), end)
  {
    hide Apply, Enabled, Inv, Shape, Run, Restart, One;
    StartIsRight();
    RunGoesOn(Meet("a"), t2, t3, rest, end);
    RunGoesOn(Mkdir(CHILD, 2), t1, t2, [Meet("a")] + rest, end);
    RunGoesOn(StartRoot, START, t1, [Mkdir(CHILD, 2)] + ([Meet("a")] + rest), end);
  }

  // ----------------------------------------------------- cached only once

  /** The race of the comments: met by the listing and announced by an event, the
      directory is cached once. */
  lemma TheRaceIsRun() returns (actions: seq<Action>, end: Sys)
    ensures Shape(NAMES, ROOTS, START) && Run(NAMES, ROOTS, Restart(START, ROOTS), actions, end)
    ensures actions == [StartRoot, Mkdir(CHILD, 2), Meet("a"), ListingDone, ListingDone, HandleEvent]
    ensures Idle(end) && end.queue == [] && CHILD in end.k.dirs
    ensures AllWatched(end) && Cached(end.k, end.slots)
  {
    hide Apply, Enabled, Shape, Run, Restart, One, BothIn, AllWatched, Cached;
    var t1, t2, t3 := UntilMet();
    var t4, t5 := t3.(stack := [Frame(ROOT, {})]), t3.(stack := []);
    end := t5.(queue := []);
    ListingEnds(t3, CHILD, [Frame(ROOT, {})]);
    ListingEnds(t4, ROOT, []);
    assert t5 == t4.(stack := []);
    EventPassedOver(t5, []);
    RunEnds(end);
    RunGoesOn(HandleEvent, t5, end, [], end);
    RunGoesOn(ListingDone, t4, t5, [HandleEvent] + [], end);
    actions := [ListingDone] + ([HandleEvent] + []);
    RunGoesOn(ListingDone, t3, t4, actions, end);
    actions := [ListingDone] + actions;
    StartRuns(t1, t2, t3, actions, end);
    actions := [StartRoot] + ([Mkdir(CHILD, 2)] + ([Meet("a")] + actions));
    CreationsAreNeverMissed(NAMES, ROOTS, START, actions, end);
  }

  // ------------------------------------------------- replaced while it is held

  /** The directory is removed while nftw lists it: the stream holds it. */
  lemma ChildRemoved(s: Sys) returns (t: Sys)
    requires s == At(BOTH_WATCHED, [Made(1, "a")], s.slots, [Frame(ROOT, {}), Frame(CHILD, {})], map[], {})
    ensures One(Rmdir(CHILD), s, t)
    ensures t == At(CHILD_REMOVED, [Made(1, "a")], s.slots, [Frame(ROOT, {}), Frame(CHILD, {})], map[2 := CHILD], {})
  {
    Places();
    assert Watches(s.k, 2, CHILD);
    assert WdOf(s.k, CHILD) == 2;
    t := Apply(NAMES, ROOTS, s, Rmdir(CHILD));
    assert t.k.dirs == map[ROOT := 1] && t.k.watches == map[1 := 1];
    assert t.held == map[2 := CHILD];
    assert Delisted(s.stack, CHILD) == s.stack by {
      var none: set<string> := {};
      assert none - {"a"} == none;
    }
  }

  /** Another one is made under the same name, and announced. */
  lemma ChildReplaced(s: Sys) returns (t: Sys)
    requires s == At(CHILD_REMOVED, [Made(1, "a")], s.slots, [Frame(ROOT, {}), Frame(CHILD, {})], map[2 := CHILD], {})
    ensures One(Mkdir(CHILD, 3), s, t)
    ensures t == At(CHILD_REPLACED, [Made(1, "a"), Made(1, "a")], s.slots, [Frame(ROOT, {}), Frame(CHILD, {})],
                    map[2 := CHILD], {CHILD})
  {
    Places();
    assert Watches(s.k, 1, ROOT);
    assert CHILD == s.held[2];
    assert CHILD in s.held.Values;
    t := Apply(NAMES, ROOTS, s, Mkdir(CHILD, 3));
    assert s.queue + [Made(1, "a")] == [Made(1, "a"), Made(1, "a")];
    assert t.overlooked == {CHILD};
  }

  /** nftw closes the stream, which releases the removed directory. */
  lemma ChildReleased(s: Sys) returns (t: Sys)
    requires s == At(CHILD_REPLACED, [Made(1, "a"), Made(1, "a")], s.slots, [Frame(ROOT, {})], map[2 := CHILD], {CHILD})
    ensures One(Release(2), s, t)
    ensures t == At(CHILD_REPLACED, [Made(1, "a"), Made(1, "a"), Deletion(2)], s.slots, [Frame(ROOT, {})],
                    map[], {CHILD})
  {
    t := Apply(NAMES, ROOTS, s, Release(2));
    assert t.queue == [Made(1, "a"), Made(1, "a"), Deletion(2)];
    assert t.held == map[];
  }

  lemma DeletionHandled(s: Sys) returns (t: Sys)
    requires s == At(CHILD_REPLACED, [Deletion(2)], s.slots, [], map[], {CHILD}) && BothIn(s.slots)
    ensures One(HandleEvent, s, t)
    ensures t == At(CHILD_REPLACED, [], t.slots, [], map[], {CHILD})
  {
    t := Apply(NAMES, ROOTS, s, HandleEvent);
    assert s.queue[1..] == [];
  }

  /** Both events about the name come while it is cached for the removed
      directory. Then that slot is cleared, and the directory there now is neither
      cached nor watched. */
  lemma ReplacedWhileHeldIsMissed() returns (actions: seq<Action>, end: Sys)
    ensures Shape(NAMES, ROOTS, START) && Run(NAMES, ROOTS, Restart(START, ROOTS), actions, end)
    ensures actions == [StartRoot, Mkdir(CHILD, 2), Meet("a"), Rmdir(CHILD), Mkdir(CHILD, 3), ListingDone, Release(2),
                        ListingDone, HandleEvent, HandleEvent, HandleEvent]
    ensures Idle(end) && end.queue == [] && end.held == map[] && CHILD in end.k.dirs
    ensures !AllWatched(end) && Cached(end.k, end.slots)
  {
    hide Apply, Enabled, Shape, Run, Restart, One, BothIn, AllWatched, Cached;
    var t1, t2, t3 := UntilMet();
    var t4 := ChildRemoved(t3);
    var t5 := ChildReplaced(t4);
    var t6 := t5.(stack := [Frame(ROOT, {})]);
    ListingEnds(t5, CHILD, [Frame(ROOT, {})]);
    var t7 := ChildReleased(t6);
    var t8 := t7.(stack := []);
    ListingEnds(t7, ROOT, []);
    var t9, t10 := t8.(queue := [Made(1, "a"), Deletion(2)]), t8.(queue := [Deletion(2)]);
    assert [Made(1, "a"), Made(1, "a"), Deletion(2)] == [Made(1, "a")] + [Made(1, "a"), Deletion(2)];
    assert [Made(1, "a"), Deletion(2)] == [Made(1, "a")] + [Deletion(2)];
    EventPassedOver(t8, [Made(1, "a"), Deletion(2)]);
    EventPassedOver(t9, [Deletion(2)]);
    assert t10 == t9.(queue := [Deletion(2)]);
    end := DeletionHandled(t10);
    RunEnds(end);
    RunGoesOn(HandleEvent, t10, end, [], end);
    RunGoesOn(HandleEvent, t9, t10, [HandleEvent] + [], end);
    actions := [HandleEvent] + ([HandleEvent] + []);
    RunGoesOn(HandleEvent, t8, t9, actions, end);
    actions := [HandleEvent] + actions;
    RunGoesOn(ListingDone, t7, t8, actions, end);
    actions := [ListingDone] + actions;
    RunGoesOn(Release(2), t6, t7, actions, end);
    actions := [Release(2)] + actions;
    RunGoesOn(ListingDone, t5, t6, actions, end);
    actions := [ListingDone] + actions;
    RunGoesOn(Mkdir(CHILD, 3), t4, t5, actions, end);
    actions := [Mkdir(CHILD, 3)] + actions;
    RunGoesOn(Rmdir(CHILD), t3, t4, actions, end);
    actions := [Rmdir(CHILD)] + actions;
    StartRuns(t1, t2, t3, actions, end);
    actions := [StartRoot] + ([Mkdir(CHILD, 2)] + ([Meet("a")] + actions));
    MissedIffOverlooked(NAMES, ROOTS, START, actions, end);
  }

  // --------------------------------------------- a traversal that ends early

  const SIBLING: Loc := ["r", "b"]
  const TWO_THERE := Kernel(map[ROOT := 1, CHILD := 2, SIBLING := 3], map[], 1)
  const ROOT_LISTED := Kernel(map[ROOT := 1, CHILD := 2, SIBLING := 3], map[1 := 1], 2)
  const ONE_LEFT := Kernel(map[ROOT := 1, SIBLING := 3], map[1 := 1], 2)
  const START_TWO := Sys(TWO_THERE, [], [], [ROOT], [], map[], {})

  lemma SiblingPlace()
    ensures ValidLoc(NAMES, SIBLING) && Parent(SIBLING) == ROOT && Last(SIBLING) == "b" && SIBLING != CHILD
  {
    assert SIBLING[1..] == ["b"] && SIBLING[..1] == ROOT && SIBLING[1] != CHILD[1];
  }

  lemma TwoWellFormed()
    ensures WellFormed(NAMES, TWO_THERE)
  {
    Places();
    SiblingPlace();
    hide ValidLoc, Path, NonNested;
  }

  lemma BothListed() returns (t: Sys)
    ensures One(StartRoot, START_TWO, t)
    ensures t == At(ROOT_LISTED, [], t.slots, [Frame(ROOT, {"a", "b"})], map[], {})
  {
    Places();
    SiblingPlace();
    TwoWellFormed();
    TwoNames();
    hide WellFormed, ValidLoc, NonNested, Path, ChildNames;
    EnteredAt(START_TWO.(pending := []), "r", ROOT);
    t := Apply(NAMES, ROOTS, START_TWO, StartRoot);
    assert START_TWO.pending[1..] == [];
  }

  lemma TwoNames()
    ensures ChildNames(TWO_THERE.dirs, ROOT) == {"a", "b"}
  {
    Places();
    SiblingPlace();
    hide ValidLoc, NonNested, Path;
    assert CHILD in TWO_THERE.dirs && SIBLING in TWO_THERE.dirs;
  }

  lemma FirstRemoved(s: Sys) returns (t: Sys)
    requires s == At(ROOT_LISTED, [], s.slots, [Frame(ROOT, {"a", "b"})], map[], {})
    ensures One(Rmdir(CHILD), s, t)
    ensures t == At(ONE_LEFT, [], s.slots, [Frame(ROOT, {"b"})], map[], {})
  {
    Places();
    SiblingPlace();
    assert !IsWatched(s.k, CHILD);
    t := Apply(NAMES, ROOTS, s, Rmdir(CHILD));
    assert t.k.dirs == map[ROOT := 1, SIBLING := 3];
    assert {"a", "b"} - {"a"} == {"b"};
    assert Delisted(s.stack, CHILD) == [Frame(ROOT, {"b"})];
  }

  lemma TraversalEnds(s: Sys) returns (t: Sys)
    requires s == At(ONE_LEFT, [], s.slots, [Frame(ROOT, {"b"})], map[], {})
    ensures One(GiveUp, s, t)
    ensures t == At(ONE_LEFT, [], s.slots, [], map[], {SIBLING})
  {
    SiblingPlace();
    assert s.stack[0].at == Parent(SIBLING) && Last(SIBLING) in s.stack[0].todo;
    assert Listed(s, SIBLING) && !IsWatched(s.k, SIBLING);
    assert Abandoned(s) == {SIBLING};
    t := Apply(NAMES, ROOTS, s, GiveUp);
  }

  lemma TwoIsRight()
    ensures Shape(NAMES, ROOTS, START_TWO) && Restart(START_TWO, ROOTS) == START_TWO
  {
    Places();
    SiblingPlace();
    TwoWellFormed();
    hide WellFormed;
  }

  /** nftw ends the traversal when an entry it has found is gone. The other entry
      was there before the watch, so no event tells of it. */
  lemma GivenUpIsMissed() returns (actions: seq<Action>, end: Sys)
    ensures Shape(NAMES, ROOTS, START_TWO) && Run(NAMES, ROOTS, Restart(START_TWO, ROOTS), actions, end)
    ensures actions == [StartRoot, Rmdir(CHILD), GiveUp]
    ensures Idle(end) && end.queue == [] && end.held == map[] && SIBLING in end.k.dirs
    ensures !AllWatched(end) && Cached(end.k, end.slots)
  {
    hide Apply, Enabled, Shape, Run, Restart, One, AllWatched, Cached;
    TwoIsRight();
    var t1 := BothListed();
    var t2 := FirstRemoved(t1);
    end := TraversalEnds(t2);
    RunEnds(end);
    RunGoesOn(GiveUp, t2, end, [], end);
    RunGoesOn(Rmdir(CHILD), t1, t2, [GiveUp] + [], end);
    actions := [Rmdir(CHILD)] + ([GiveUp] + []);
    RunGoesOn(StartRoot, START_TWO, t1, actions, end);
    actions := [StartRoot] + actions;
    MissedIffOverlooked(NAMES, ROOTS, START_TWO, actions, end);
  }
}
