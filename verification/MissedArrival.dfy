/** The least cases in which a directory is missed. */
module MissedArrival {
  import opened Options
  import opened Paths
  import opened WatchSlots
  import opened DirEvents
  import opened DirTree
  import opened QuietOps
  import opened QuietMoves
  import opened QuietSteps

  /** From agreement, the operation and its events leave the program without the
      directory at `at`. */
  ghost predicate MissedAfter(roots: set<string>, k: Kernel, d: Daemon, op: Op, at: Loc, env: nat -> Answers) {
    && InSync(roots, k, d) && Can(roots, k, op) && |at| > 0
    && (var evs := EventsOf(roots, k, op, false, 0);
        AllLegal(evs)
        && (var end := Process(d, evs, env, 0);
            end.Alive? && !PathInCache(end.d.slots, Path(at))))
  }

  /** The least case: a tree "r" with an empty directory "a", over which a
      directory is moved from elsewhere. */
  lemma MoveInOverEmptyExample(env: nat -> Answers)
    ensures var roots, tree: map<seq<string>, nat> := {"r"}, map[[] := 3];
      var k := Kernel(map[["r"] := 1, ["r", "a"] := 2], map[1 := 1, 2 := 2], 3);
      var d := Daemon([Watch(1, "r"), Watch(2, "r/a")], [Some("r")], 0);
      && Path(["r", "a"]) == "r/a" && ["r", "a"] in Arrived(k, ["r", "a"], tree).dirs
      && MissedAfter(roots, k, d, Arrive(["r", "a"], tree, false), ["r", "a"], env)
  {
    var tree: map<seq<string>, nat> := map[[] := 3];
    var k := Kernel(map[["r"] := 1, ["r", "a"] := 2], map[1 := 1, 2 := 2], 3);
    var d := Daemon([Watch(1, "r"), Watch(2, "r/a")], [Some("r")], 0);
    hide InSync, Can, Process, EventsOf, AllLegal, Path, PathInCache, Arrived;
    ExampleInSync(k, d);
    ExamplePaths();
    ExampleMayArrive(k, tree);
    MoveInOverEmptyIsMissed({"r"}, k, d, ["r", "a"], tree, false, 0, env);
  }

  /** The same directory is exchanged with one from elsewhere, named first. */
  lemma ReplaceFirstExample(env: nat -> Answers)
    requires Steady(env) && env(0).stale == {}
    ensures var roots, tree: map<seq<string>, nat> := {"r"}, map[[] := 3];
      var k := Kernel(map[["r"] := 1, ["r", "a"] := 2], map[1 := 1, 2 := 2], 3);
      var d := Daemon([Watch(1, "r"), Watch(2, "r/a")], [Some("r")], 0);
      && Path(["r", "a"]) == "r/a" && ["r", "a"] in Arrived(Left(k, ["r", "a"]), ["r", "a"], tree).dirs
      && MissedAfter(roots, k, d, Replace(["r", "a"], tree, true), ["r", "a"], env)
  {
    var tree: map<seq<string>, nat> := map[[] := 3];
    var k := Kernel(map[["r"] := 1, ["r", "a"] := 2], map[1 := 1, 2 := 2], 3);
    var d := Daemon([Watch(1, "r"), Watch(2, "r/a")], [Some("r")], 0);
    hide InSync, Can, Process, EventsOf, AllLegal, Path, PathInCache, Arrived;
    ExampleInSync(k, d);
    ExamplePaths();
    ExampleMayReplace(k, tree);
    ReplaceFirstIsMissed({"r"}, k, d, ["r", "a"], tree, false, 0, env);
  }

  lemma ExampleMayReplace(k: Kernel, tree: map<seq<string>, nat>)
    requires k == Kernel(map[["r"] := 1, ["r", "a"] := 2], map[1 := 1, 2 := 2], 3) && tree == map[[] := 3]
    ensures Can({"r"}, k, Replace(["r", "a"], tree, true))
    ensures ["r", "a"] in Arrived(Left(k, ["r", "a"]), ["r", "a"], tree).dirs
  {
    assert Parent(["r", "a"]) == ["r"];
    assert ["r", "a"] + [] == ["r", "a"] && ["r", "a"][2..] == [];
  }

  lemma ExampleMayArrive(k: Kernel, tree: map<seq<string>, nat>)
    requires k == Kernel(map[["r"] := 1, ["r", "a"] := 2], map[1 := 1, 2 := 2], 3) && tree == map[[] := 3]
    ensures Can({"r"}, k, Arrive(["r", "a"], tree, false))
    ensures ["r", "a"] in Arrived(k, ["r", "a"], tree).dirs
  {
    assert Parent(["r", "a"]) == ["r"];
    assert ["r", "a"] + [] == ["r", "a"] && ["r", "a"][2..] == [];
  }

  lemma ExamplePaths()
    ensures Path(["r"]) == "r" && Path(["r", "a"]) == "r/a"
  {
    assert ["r"][1..] == [] && ["r", "a"][1..] == ["a"] && ["a"][1..] == [];
  }

  lemma ExampleWellFormed(k: Kernel)
    requires k == Kernel(map[["r"] := 1, ["r", "a"] := 2], map[1 := 1, 2 := 2], 3)
    ensures WellFormed({"r"}, k)
  {
    assert ["r"][1..] == [] && ["r", "a"][1..] == ["a"];
    assert Parent(["r", "a"]) == ["r"];
    forall l | l in k.dirs ensures ValidLoc({"r"}, l) {
      assert l == ["r"] || l == ["r", "a"];
    }
  }

  lemma ExampleInSync(k: Kernel, d: Daemon)
    requires k == Kernel(map[["r"] := 1, ["r", "a"] := 2], map[1 := 1, 2 := 2], 3)
    requires d == Daemon([Watch(1, "r"), Watch(2, "r/a")], [Some("r")], 0)
    ensures InSync({"r"}, k, d)
  {
    ExampleWellFormed(k);
    ExamplePairing(k, d.slots);
    ExampleListed(k, d);
    hide InSync, WellFormed, Pairing, UniqueWds, RootsMatch, Path;
    PairingIsRight({"r"}, k, d, [["r"], ["r", "a"]]);
  }

  lemma ExamplePairing(k: Kernel, s: Slots)
    requires k == Kernel(map[["r"] := 1, ["r", "a"] := 2], map[1 := 1, 2 := 2], 3)
    requires s == [Watch(1, "r"), Watch(2, "r/a")]
    ensures Pairing(k, s, [["r"], ["r", "a"]]) && UniqueWds(s)
  {
    ExamplePaths();
    hide Path;
    assert Watches(k, 1, ["r"]) && Watches(k, 2, ["r", "a"]);
    assert s[0].wd == 1 && s[1].wd == 2;
  }

  lemma ExampleListed(k: Kernel, d: Daemon)
    requires k.dirs == map[["r"] := 1, ["r", "a"] := 2] && d.roots == [Some("r")] && d.ignored == 0
    ensures RootsMatch(k, d)
  {
    assert Zeroes([Some("r")]) == 0 by { assert [Some("r")][1..] == []; }
    forall p ensures Some(p) in d.roots <==> [p] in k.dirs {
      assert Some(p) in d.roots <==> p == "r";
      assert [p] == ["r"] <==> p == "r";
    }
  }

  /** The same events as those of a directory replaced while it is held: the name
      is announced again and then the deletion comes. */
  lemma ReplacedWhileHeldExample(env: nat -> Answers)
    ensures var evs := [EntryEvent(1, IN_CREATE, 0, "a")] + Deleted(2, false);
            && AllLegal(evs)
            && Process(Daemon([Watch(1, "r"), Watch(2, "r/a")], [Some("r")], 0), evs, env, 0)
               == Alive(Daemon([Watch(1, "r"), EMPTY], [Some("r")], 0), false)
  {
    var d := Daemon([Watch(1, "r"), Watch(2, "r/a")], [Some("r")], 0);
    var next := Some(Deleted(2, false)[0]);
    assert FindWatch(d.slots, 1) == 0 && FindWatch(d.slots, 2) == 1;
    assert "r" + "/" + "a" == "r/a" && HasPath(d.slots[1], "r/a");
    assert FindRoot(d.roots, "r/a") == -1;
    StepArrive(d, 1, true, 0, "a", next, env(0));
    AppearOverProcess(d, EntryEvent(1, IN_CREATE, 0, "a"), 2, false, env);
    assert Cleared(d, 2).slots == [Watch(1, "r"), EMPTY];
  }

  // ------------------------------------------------ roots and exchanges

  const R: Loc := ["r"]
  const S: Loc := ["s"]
  const R_S: Loc := ["r", "s"]
  const R_A: Loc := ["r", "a"]
  const R_B: Loc := ["r", "b"]

  const TWO_ROOTS := Kernel(map[R := 1, S := 2], map[1 := 1, 2 := 2], 3)
  const ROOTS_CACHED := Daemon([Watch(1, "r"), Watch(2, "s")], [Some("r"), Some("s")], 0)
  const TWO_CHILDREN := Kernel(map[R := 1, R_A := 2, R_B := 3], map[1 := 1, 2 := 2, 3 := 3], 4)
  const CHILDREN_CACHED := Daemon([Watch(1, "r"), Watch(2, "r/a"), Watch(3, "r/b")], [Some("r")], 0)

  /** Slots that pair each directory's watch with its path are a right cache. */
  ghost predicate Pairing(k: Kernel, s: Slots, places: seq<Loc>) {
    && |s| == |places|
    && (forall l :: l in k.dirs <==> l in places)
    && (forall i | 0 <= i < |s| :: s[i].wd >= 0 && |places[i]| > 0 && s[i].path == Path(places[i]))
    && (forall i | 0 <= i < |s| :: Watches(k, s[i].wd, places[i]))
    && (forall wd | wd in k.watches :: exists i :: 0 <= i < |s| && s[i].wd == wd)
  }

  lemma PairingIsCached(roots: set<string>, k: Kernel, s: Slots, places: seq<Loc>)
    requires WellFormed(roots, k) && Pairing(k, s, places) && UniqueWds(s)
    ensures Cached(k, s)
  {
    hide WellFormedDirs, NonNested, Path, UniqueWds;
    forall w | w in LiveSet(s) ensures IsExpected(k, w) {
      var i :| 0 <= i < |s| && s[i] == w;
      assert Watches(k, w.wd, places[i]);
    }
    forall w | IsExpected(k, w) ensures w in LiveSet(s) {
      var l :| l in k.dirs && |l| > 0 && Watches(k, w.wd, l) && w.path == Path(l);
      var i :| 0 <= i < |places| && places[i] == l;
      assert Watches(k, s[i].wd, l);
      assert s[i] == w;
    }
  }

  lemma PairingIsRight(roots: set<string>, k: Kernel, d: Daemon, places: seq<Loc>)
    requires WellFormed(roots, k) && Pairing(k, d.slots, places) && UniqueWds(d.slots) && RootsMatch(k, d)
    ensures InSync(roots, k, d)
  {
    var s := d.slots;
    assert Cached(k, s) by { PairingIsCached(roots, k, s, places); }
    hide WellFormed, RootsMatch, UniqueWds, Path, Cached;
    forall l | l in k.dirs ensures IsWatched(k, l) {
      var i :| 0 <= i < |places| && places[i] == l;
      assert Watches(k, s[i].wd, l);
    }
    forall wd | wd in k.watches ensures IsPlaced(k, wd) {
      var i :| 0 <= i < |s| && s[i].wd == wd;
      assert Watches(k, wd, places[i]);
    }
  }

  lemma LocFacts()
    ensures Path(R) == "r" && Path(S) == "s" && Path(R_S) == "r/s" && Path(R_A) == "r/a" && Path(R_B) == "r/b"
    ensures Parent(R_S) == R && Parent(R_A) == R && Parent(R_B) == R
    ensures R[1..] == [] && S[1..] == [] && R_S[1..] == ["s"] && R_A[1..] == ["a"] && R_B[1..] == ["b"]
  {
    assert forall x: string :: [x][1..] == [];
    assert R_S[1..] == ["s"] && R_A[1..] == ["a"] && R_B[1..] == ["b"];
  }

  lemma RootsWellFormed()
    ensures WellFormed({"r", "s"}, TWO_ROOTS) && ValidLoc({"r", "s"}, R_S)
  {
    LocFacts();
    hide Path;
    forall l | l in TWO_ROOTS.dirs ensures ValidLoc({"r", "s"}, l) {
      assert l == R || l == S;
    }
  }

  lemma RootsPairing()
    ensures Pairing(TWO_ROOTS, ROOTS_CACHED.slots, [R, S]) && UniqueWds(ROOTS_CACHED.slots)
  {
    LocFacts();
    hide Path;
    var s := ROOTS_CACHED.slots;
    assert s[0].wd == 1 && s[1].wd == 2;
  }

  lemma RootsListed()
    ensures RootsMatch(TWO_ROOTS, ROOTS_CACHED)
  {
    var d := ROOTS_CACHED;
    assert d.roots[1..] == [Some("s")] && [Some("s")][1..] == [];
    assert Zeroes(d.roots) == Zeroes([Some("s")]) == Zeroes([]) == 0;
    forall p ensures Some(p) in d.roots <==> [p] in TWO_ROOTS.dirs {
      assert Some(p) in d.roots <==> p == "r" || p == "s";
      assert [p] == R <==> p == "r";
      assert [p] == S <==> p == "s";
    }
  }

  lemma RootsExampleInSync()
    ensures InSync({"r", "s"}, TWO_ROOTS, ROOTS_CACHED) && CanEnter({"r", "s"}, TWO_ROOTS, S, R_S)
  {
    RootsWellFormed();
    RootsPairing();
    RootsListed();
    LocFacts();
    assert R_S[0] == "r" && S[0] == "s" && "r"[0] != "s"[0] && !(S <= R_S);
    assert IsEmptyAt(TWO_ROOTS.dirs, R_S);
    hide InSync, WellFormed, Pairing, UniqueWds, RootsMatch, ValidLoc, Path, IsEmptyAt;
    PairingIsRight({"r", "s"}, TWO_ROOTS, ROOTS_CACHED, [R, S]);
  }

  /** Two empty roots, and the second is renamed into the first. */
  lemma RootInExample(env: nat -> Answers)
    requires Steady(env) && env(0).stale == {}
    requires VisitsFaithful(Renamed(TWO_ROOTS, S, R_S), [R_S], env(0).visits)
    ensures Path(R_S) == "r/s" && R_S in MovedIn(TWO_ROOTS, S, R_S).dirs
    ensures MissedAfter({"r", "s"}, TWO_ROOTS, ROOTS_CACHED, RootIn(S, R_S), R_S, env)
  {
    RootsExampleInSync();
    LocFacts();
    hide InSync, Process, Step, EventsOf, CanEnter, Path, Renamed, MovedIn, VisitsFaithful, PathInCache, AllLegal;
    RootInIsMissed({"r", "s"}, TWO_ROOTS, ROOTS_CACHED, S, R_S, false, 0, [R_S], env);
  }

  lemma ChildrenWellFormed()
    ensures WellFormed({"r"}, TWO_CHILDREN)
  {
    LocFacts();
    hide Path;
    forall l | l in TWO_CHILDREN.dirs ensures ValidLoc({"r"}, l) {
      assert l == R || l == R_A || l == R_B;
    }
    hide ValidLoc;
    assert R_A[1] != R_B[1];
    assert WellFormedDirs({"r"}, TWO_CHILDREN.dirs);
  }

  lemma ChildrenWatched()
    ensures Watches(TWO_CHILDREN, 1, R) && Watches(TWO_CHILDREN, 2, R_A) && Watches(TWO_CHILDREN, 3, R_B)
  {
  }

  lemma ChildrenPairing()
    ensures Pairing(TWO_CHILDREN, CHILDREN_CACHED.slots, [R, R_A, R_B]) && UniqueWds(CHILDREN_CACHED.slots)
  {
    LocFacts();
    hide Path;
    var s := CHILDREN_CACHED.slots;
    assert s[0].wd == 1 && s[1].wd == 2 && s[2].wd == 3;
    ChildrenWatched();
    hide Watches;
  }

  lemma ChildrenListed()
    ensures RootsMatch(TWO_CHILDREN, CHILDREN_CACHED)
  {
    var d := CHILDREN_CACHED;
    assert [Some("r")][1..] == [];
    assert Zeroes(d.roots) == Zeroes([]) == 0;
    forall p ensures Some(p) in d.roots <==> [p] in TWO_CHILDREN.dirs {
      assert Some(p) in d.roots <==> p == "r";
      assert [p] == R <==> p == "r";
    }
  }

  lemma ChildrenMayExchange()
    ensures Can({"r"}, TWO_CHILDREN, Exchange(R_A, R_B))
  {
    assert R_A[1] != R_B[1];
  }

  lemma ChildrenExampleInSync()
    ensures InSync({"r"}, TWO_CHILDREN, CHILDREN_CACHED) && Can({"r"}, TWO_CHILDREN, Exchange(R_A, R_B))
  {
    hide InSync, WellFormed, Pairing, UniqueWds, RootsMatch, Path, Can;
    ChildrenWellFormed();
    ChildrenPairing();
    ChildrenListed();
    ChildrenMayExchange();
    PairingIsRight({"r"}, TWO_CHILDREN, CHILDREN_CACHED, [R, R_A, R_B]);
  }

  /** Two empty directories of one root are exchanged. */
  lemma ExchangeExample(env: nat -> Answers)
    ensures Path(R_B) == "r/b" && R_B in Exchanged(TWO_CHILDREN, R_A, R_B).dirs
    ensures MissedAfter({"r"}, TWO_CHILDREN, CHILDREN_CACHED, Exchange(R_A, R_B), R_B, env)
  {
    ChildrenExampleInSync();
    LocFacts();
    SwapThere(TWO_CHILDREN.dirs, R_A, R_B);
    hide InSync, Process, Step, EventsOf, Path, Swapped, PathInCache, AllLegal, Can;
    InnerExchangeIsMissed({"r"}, TWO_CHILDREN, CHILDREN_CACHED, R_A, R_B, false, 0, env);
  }
}
