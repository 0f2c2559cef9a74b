/** The cache contents as a value: what each helper of the cache does to the
    array of slots, and what that means for the set of live watches. */
module WatchSlots {
  import opened Paths

  /** One slot: watch descriptor (-1 when unused) and cached pathname. */
  datatype Watch = Watch(wd: int, path: string)

  type Slots = seq<Watch>

  const EMPTY := Watch(-1, "")
  const ALLOC_INCR: nat := 200

  /** What inotify_add_watch answers for one directory met by nftw. */
  datatype AddAnswer = Granted(wd: nat) | NoEntry | Refused

  /** One call that nftw makes to traverseTree. */
  datatype Visit = Visit(path: string, isDir: bool, answer: AddAnswer)

  datatype Traversal = Traversal(slots: Slots, exited: bool)

  datatype ZapResult = ZapResult(slots: Slots, count: int)

  // ---------------------------------------------------------------- views

  ghost function LiveSet(s: Slots): set<Watch> {
    set w | w in s && w.wd >= 0
  }

  /** No two live slots share a watch descriptor. */
  ghost predicate UniqueWds(s: Slots) {
    forall i, j | 0 <= i < j < |s| && s[i].wd >= 0 && s[j].wd >= 0 :: s[i].wd != s[j].wd
  }

  ghost predicate DistinctPaths(s: Slots) {
    forall i, j | 0 <= i < j < |s| && s[i].wd >= 0 && s[j].wd >= 0 :: s[i].path != s[j].path
  }

  // ------------------------------------------------------------- searches

  /** First slot holding wd, or -1. A free slot is the first one holding -1. */
  function FindWatch(s: Slots, wd: int): (slot: int)
    ensures -1 <= slot < |s|
    ensures slot >= 0 ==> s[slot].wd == wd && forall j | 0 <= j < slot :: s[j].wd != wd
    ensures slot == -1 ==> forall j | 0 <= j < |s| :: s[j].wd != wd
  {
    if s == [] then -1
    else if s[0].wd == wd then 0
    else
      var rest := FindWatch(s[1..], wd);
      assert forall j | 0 < j < |s| :: s[j] == s[1..][j - 1];
      if rest == -1 then -1 else rest + 1
  }

  predicate HasPath(w: Watch, path: string) {
    w.wd >= 0 && w.path == path
  }

  /** First live slot caching this pathname, or -1. */
  function PathSlot(s: Slots, path: string): (slot: int)
    ensures -1 <= slot < |s|
    ensures slot >= 0 ==> HasPath(s[slot], path) && forall j | 0 <= j < slot :: !HasPath(s[j], path)
    ensures slot == -1 ==> forall j | 0 <= j < |s| :: !HasPath(s[j], path)
  {
    if s == [] then -1
    else if HasPath(s[0], path) then 0
    else
      var rest := PathSlot(s[1..], path);
      assert forall j | 0 < j < |s| :: s[j] == s[1..][j - 1];
      if rest == -1 then -1 else rest + 1
  }

  predicate PathInCache(s: Slots, path: string) {
    PathSlot(s, path) >= 0
  }

  lemma {:induction false} FindIsUnique(s: Slots, j: nat)
    requires UniqueWds(s) && j < |s| && s[j].wd >= 0
    ensures FindWatch(s, s[j].wd) == j
  {
  }

  // -------------------------------------------------------------- updates

  function Emptied(s: Slots, j: nat): Slots
    requires j < |s|
  {
    s[j := EMPTY]
  }

  /** The array after findEmptyCacheSlot: unchanged, or ALLOC_INCR slots longer. */
  function WithFreeSlot(s: Slots): Slots {
    if FindWatch(s, -1) >= 0 then s else s + seq(ALLOC_INCR, _ => EMPTY)
  }

  function FreeSlot(s: Slots): (slot: nat)
    ensures slot < |WithFreeSlot(s)| && WithFreeSlot(s)[slot].wd == -1
  {
    if FindWatch(s, -1) >= 0 then FindWatch(s, -1) else |s|
  }

  function Added(s: Slots, wd: int, path: string): Slots {
    WithFreeSlot(s)[FreeSlot(s) := Watch(wd, path)]
  }

  function Rewritten(s: Slots, oldDir: string, newDir: string): Slots {
    seq(|s|, i requires 0 <= i < |s| => s[i].(path := Moved(s[i].path, oldDir, newDir)))
  }

  /** Slot j is one that a zap of path removes. */
  predicate Hit(s: Slots, j: nat, path: string)
    requires j < |s|
  {
    s[j].wd >= 0 && Below(path, s[j].path)
  }

  /** The scan of zapSubtree from slot j on, when the descriptors in stale are
      the ones inotify_rm_watch refuses. */
  function ZappedFrom(s: Slots, path: string, stale: set<int>, j: nat, count: nat): ZapResult
    requires j <= |s|
    decreases |s| - j
  {
    if j == |s| then ZapResult(s, count)
    else if Hit(s, j, path) then
      if s[j].wd in stale then ZapResult(s, -1)
      else ZappedFrom(Emptied(s, j), path, stale, j + 1, count + 1)
    else ZappedFrom(s, path, stale, j + 1, count)
  }

  function Zapped(s: Slots, path: string, stale: set<int>): ZapResult {
    ZappedFrom(s, path, stale, 0, 0)
  }

  /** One call of traverseTree; it exits the program on an unexpected error. */
  function TraverseOne(s: Slots, v: Visit): Traversal {
    if !v.isDir then Traversal(s, false)
    else match v.answer
      case NoEntry => Traversal(s, false)
      case Refused => Traversal(s, true)
      case Granted(wd) =>
        Traversal(if FindWatch(s, wd) >= 0 then s else Added(s, wd, v.path), false)
  }

  function Traverse(s: Slots, visits: seq<Visit>): Traversal
    decreases visits
  {
    if visits == [] then Traversal(s, false)
    else
      var first := TraverseOne(s, visits[0]);
      if first.exited then first else Traverse(first.slots, visits[1..])
  }

  // ------------------------------------------- what the updates mean

  lemma WithFreeSlotMeans(s: Slots)
    ensures s <= WithFreeSlot(s)
    ensures forall i | |s| <= i < |WithFreeSlot(s)| :: WithFreeSlot(s)[i].wd == -1
    ensures LiveSet(WithFreeSlot(s)) == LiveSet(s)
  {
    var t := WithFreeSlot(s);
    assert forall i | 0 <= i < |s| :: t[i] == s[i];
    assert forall i | |s| <= i < |t| :: t[i] == EMPTY;
    forall w ensures w in LiveSet(t) <==> w in LiveSet(s) {
      if w in LiveSet(s) {
        var i :| 0 <= i < |s| && s[i] == w;
        assert t[i] == w;
      }
    }
  }

  /** It is the first free one; the array grows only if there is none, by 200. */
  lemma {:induction false} FreeSlotMeans(s: Slots)
    ensures forall j | 0 <= j < FreeSlot(s) :: WithFreeSlot(s)[j].wd != -1
    ensures |WithFreeSlot(s)| == if exists w :: w in s && w.wd == -1 then |s| else |s| + 200
  {
    if w :| w in s && w.wd == -1 {
      var i :| 0 <= i < |s| && s[i] == w;
      assert s[i].wd == -1;
    }
    var j := FindWatch(s, -1);
    if j >= 0 {
      assert s[j] in s;
    }
  }

  lemma FilledMeans(s: Slots, j: nat, w: Watch)
    requires UniqueWds(s) && j < |s| && s[j].wd < 0 && w.wd >= 0
    requires forall v | v in LiveSet(s) :: v.wd != w.wd
    ensures UniqueWds(s[j := w])
    ensures LiveSet(s[j := w]) == LiveSet(s) + {w}
  {
    var t := s[j := w];
    forall i | 0 <= i < |s| && s[i].wd >= 0 ensures s[i].wd != w.wd {
      assert s[i] in LiveSet(s);
    }
    forall v ensures v in LiveSet(t) <==> v in LiveSet(s) || v == w {
      if v in LiveSet(s) {
        var i :| 0 <= i < |s| && s[i] == v;
        assert t[i] == v;
      }
      assert t[j] == w;
    }
  }

  lemma {:induction false} AddedMeans(s: Slots, wd: int, path: string)
    requires UniqueWds(s) && wd >= 0 && FindWatch(s, wd) == -1
    ensures UniqueWds(Added(s, wd, path))
    ensures LiveSet(Added(s, wd, path)) == LiveSet(s) + {Watch(wd, path)}
  {
    WithFreeSlotMeans(s);
    var wide := WithFreeSlot(s);
    assert forall i | 0 <= i < |s| :: wide[i] == s[i];
    FilledMeans(wide, FreeSlot(s), Watch(wd, path));
  }

  lemma EmptiedMeans(s: Slots, j: nat)
    requires UniqueWds(s) && j < |s| && s[j].wd >= 0
    ensures UniqueWds(Emptied(s, j))
    ensures LiveSet(Emptied(s, j)) == LiveSet(s) - {s[j]}
  {
    var t := Emptied(s, j);
    forall w ensures w in LiveSet(t) <==> w in LiveSet(s) && w != s[j] {
      if w in LiveSet(s) && w != s[j] {
        var i :| 0 <= i < |s| && s[i] == w;
        assert t[i] == w;
      }
      if w in LiveSet(t) {
        var i :| 0 <= i < |t| && t[i] == w;
        assert s[i] == w;
      }
    }
  }

  lemma RewrittenMeans(s: Slots, oldDir: string, newDir: string)
    ensures UniqueWds(s) ==> UniqueWds(Rewritten(s, oldDir, newDir))
    ensures LiveSet(Rewritten(s, oldDir, newDir))
         == set w | w in LiveSet(s) :: Watch(w.wd, Moved(w.path, oldDir, newDir))
  {
    var t := Rewritten(s, oldDir, newDir);
    forall w | w in LiveSet(s) ensures Watch(w.wd, Moved(w.path, oldDir, newDir)) in t {
      var i :| 0 <= i < |s| && s[i] == w;
      assert t[i] == Watch(w.wd, Moved(w.path, oldDir, newDir));
    }
    forall v | v in LiveSet(t)
      ensures exists w | w in LiveSet(s) :: v == Watch(w.wd, Moved(w.path, oldDir, newDir))
    {
      var i :| 0 <= i < |t| && t[i] == v;
      assert s[i] in LiveSet(s);
    }
  }

  lemma {:induction false} ZappedFromKeepsUnique(s: Slots, path: string, stale: set<int>, j: nat, count: nat)
    requires UniqueWds(s) && j <= |s|
    ensures var z := ZappedFrom(s, path, stale, j, count);
      UniqueWds(z.slots) && z.count >= -1 && LiveSet(z.slots) <= LiveSet(s)
    decreases |s| - j
  {
    if j == |s| {
    } else if Hit(s, j, path) {
      if s[j].wd !in stale {
        EmptiedMeans(s, j);
        ZappedFromKeepsUnique(Emptied(s, j), path, stale, j + 1, count + 1);
      }
    } else {
      ZappedFromKeepsUnique(s, path, stale, j + 1, count);
    }
  }

  lemma {:induction false} ZappedFromFails(s: Slots, path: string, stale: set<int>, j: nat, count: nat)
    requires j <= |s|
    ensures ZappedFrom(s, path, stale, j, count).count == -1
       <==> exists i | j <= i < |s| :: Hit(s, i, path) && s[i].wd in stale
    decreases |s| - j
  {
    if j == |s| {
    } else if Hit(s, j, path) {
      var t := Emptied(s, j);
      assert forall i | j < i < |s| :: t[i] == s[i];
      assert forall i | j < i < |s| :: Hit(t, i, path) == Hit(s, i, path);
      ZappedFromFails(t, path, stale, j + 1, count + 1);
    } else {
      ZappedFromFails(s, path, stale, j + 1, count);
    }
  }

  lemma {:induction false} ZappedFromRemoves(s: Slots, path: string, stale: set<int>, j: nat, count: nat)
    requires UniqueWds(s) && j <= |s|
    requires forall i | 0 <= i < j :: !Hit(s, i, path)
    requires ZappedFrom(s, path, stale, j, count).count >= 0
    ensures LiveSet(ZappedFrom(s, path, stale, j, count).slots)
         == set w | w in LiveSet(s) && !Below(path, w.path)
    decreases |s| - j
  {
    if j == |s| {
      forall w | w in LiveSet(s) ensures !Below(path, w.path) {
        var i :| 0 <= i < |s| && s[i] == w;
        assert !Hit(s, i, path);
      }
    } else if Hit(s, j, path) {
      var t := Emptied(s, j);
      EmptiedMeans(s, j);
      assert forall i | 0 <= i < j :: Hit(t, i, path) == Hit(s, i, path);
      ZappedFromRemoves(t, path, stale, j + 1, count + 1);
    } else {
      ZappedFromRemoves(s, path, stale, j + 1, count);
    }
  }

  /** A zap keeps descriptors unique whatever the kernel answers; it fails just
      when a descriptor at or below the path is refused, and otherwise removes
      exactly the watches at or below the path. */
  lemma ZappedMeans(s: Slots, path: string, stale: set<int>)
    requires UniqueWds(s)
    ensures var z := Zapped(s, path, stale);
      && UniqueWds(z.slots) && z.count >= -1 && LiveSet(z.slots) <= LiveSet(s)
      && (z.count == -1 <==> exists w | w in LiveSet(s) :: w.wd in stale && Below(path, w.path))
      && (z.count >= 0 ==> LiveSet(z.slots) == set w | w in LiveSet(s) && !Below(path, w.path))
  {
    ZappedFromKeepsUnique(s, path, stale, 0, 0);
    ZappedFromFails(s, path, stale, 0, 0);
    if i :| 0 <= i < |s| && Hit(s, i, path) && s[i].wd in stale {
      assert s[i] in LiveSet(s);
    }
    if w :| w in LiveSet(s) && w.wd in stale && Below(path, w.path) {
      var i :| 0 <= i < |s| && s[i] == w;
      assert Hit(s, i, path);
    }
    if Zapped(s, path, stale).count >= 0 {
      ZappedFromRemoves(s, path, stale, 0, 0);
    }
  }

  /** The count a zap returns is the number of watches it has removed. */
  lemma {:induction false} ZappedFromCount(s: Slots, path: string, stale: set<int>, j: nat, count: nat)
    requires UniqueWds(s) && j <= |s|
    ensures var z := ZappedFrom(s, path, stale, j, count);
      z.count >= 0 ==> z.count == count + |LiveSet(s)| - |LiveSet(z.slots)|
    decreases |s| - j
  {
    if j == |s| {
    } else if Hit(s, j, path) {
      if s[j].wd !in stale {
        EmptiedMeans(s, j);
        assert s[j] in LiveSet(s);
        ZappedFromCount(Emptied(s, j), path, stale, j + 1, count + 1);
      }
    } else {
      ZappedFromCount(s, path, stale, j + 1, count);
    }
  }

  lemma ZappedCount(s: Slots, path: string, stale: set<int>)
    requires UniqueWds(s)
    ensures var z := Zapped(s, path, stale);
      z.count >= 0 ==> z.count == |set w | w in LiveSet(s) && Below(path, w.path)|
  {
    ZappedFromCount(s, path, stale, 0, 0);
    ZappedMeans(s, path, stale);
    var hit, left := set w | w in LiveSet(s) && Below(path, w.path), set w | w in LiveSet(s) && !Below(path, w.path);
    assert LiveSet(s) == hit + left && hit !! left;
  }

  // ------------------------------------------------- what a traversal means

  ghost predicate NoSlotHas(s: Slots, wd: int) {
    forall w | w in LiveSet(s) :: w.wd != wd
  }

  lemma {:induction false} FindWatchMeans(s: Slots, wd: int)
    requires wd >= 0
    ensures FindWatch(s, wd) == -1 <==> NoSlotHas(s, wd)
  {
    var j := FindWatch(s, wd);
    if j >= 0 {
      assert s[j] in LiveSet(s);
    }
  }

  predicate GrantsWd(v: Visit, wd: int) {
    v.isDir && v.answer.Granted? && v.answer.wd == wd
  }

  /** The first visit for which the descriptor was granted is at the path. */
  ghost predicate FirstGrant(visits: seq<Visit>, w: Watch) {
    exists i :: 0 <= i < |visits| && GrantsWd(visits[i], w.wd) && visits[i].path == w.path
      && forall j | 0 <= j < i :: !GrantsWd(visits[j], w.wd)
  }

  lemma {:induction false} FirstGrantCons(visits: seq<Visit>, w: Watch)
    requires visits != []
    ensures FirstGrant(visits, w)
       <==> if GrantsWd(visits[0], w.wd) then visits[0].path == w.path else FirstGrant(visits[1..], w)
  {
    if i :| 0 <= i < |visits| && GrantsWd(visits[i], w.wd) && visits[i].path == w.path
            && forall j | 0 <= j < i :: !GrantsWd(visits[j], w.wd) {
      assert i > 0 ==> visits[1..][i - 1] == visits[i];
    }
    if i :| 0 <= i < |visits[1..]| && GrantsWd(visits[1..][i], w.wd) && visits[1..][i].path == w.path
            && forall j | 0 <= j < i :: !GrantsWd(visits[1..][j], w.wd) {
      assert visits[i + 1] == visits[1..][i];
      forall j | 0 < j < i + 1 ensures !GrantsWd(visits[j], w.wd) {
        assert visits[1..][j - 1] == visits[j];
      }
    }
  }

  ghost predicate SomeRefused(visits: seq<Visit>) {
    exists v | v in visits :: v.isDir && v.answer.Refused?
  }

  lemma TraverseOneMeans(s: Slots, v: Visit)
    requires UniqueWds(s)
    ensures var t := TraverseOne(s, v);
      && UniqueWds(t.slots) && (t.exited <==> v.isDir && v.answer.Refused?)
      && forall w :: w in LiveSet(t.slots) <==>
           w in LiveSet(s) || (NoSlotHas(s, w.wd) && GrantsWd(v, w.wd) && v.path == w.path)
  {
    TraverseOneKeepsUnique(s, v);
    if v.isDir && v.answer.Granted? {
      FindWatchMeans(s, v.answer.wd);
      if FindWatch(s, v.answer.wd) == -1 {
        AddedMeans(s, v.answer.wd, v.path);
      }
    }
  }

  /** A traversal ends the program exactly if adding a watch is refused, other than
      for a directory that is gone. Otherwise the entries there were stay, and each
      descriptor that is new is entered with the path it was first granted for. */
  lemma {:induction false} TraverseMeans(s: Slots, visits: seq<Visit>)
    requires UniqueWds(s)
    ensures var t := Traverse(s, visits);
      && (t.exited <==> SomeRefused(visits))
      && (!t.exited ==> forall w :: w in LiveSet(t.slots) <==>
            w in LiveSet(s) || (NoSlotHas(s, w.wd) && FirstGrant(visits, w)))
    decreases visits
  {
    if visits != [] {
      var first, rest := TraverseOne(s, visits[0]), visits[1..];
      assert visits == [visits[0]] + rest;
      TraverseOneMeans(s, visits[0]);
      if !first.exited {
        TraverseMeans(first.slots, rest);
        hide TraverseOne, FirstGrant, UniqueWds;
        forall w
          ensures w in LiveSet(first.slots) || (NoSlotHas(first.slots, w.wd) && FirstGrant(rest, w))
             <==> w in LiveSet(s) || (NoSlotHas(s, w.wd) && FirstGrant(visits, w))
        {
          OneVisitMore(s, first.slots, visits, w);
        }
      }
    }
  }

  lemma {:induction false} OneVisitMore(s: Slots, t: Slots, visits: seq<Visit>, w: Watch)
    requires visits != []
    requires forall u :: u in LiveSet(t) <==>
               u in LiveSet(s) || (NoSlotHas(s, u.wd) && GrantsWd(visits[0], u.wd) && visits[0].path == u.path)
    ensures w in LiveSet(t) || (NoSlotHas(t, w.wd) && FirstGrant(visits[1..], w))
       <==> w in LiveSet(s) || (NoSlotHas(s, w.wd) && FirstGrant(visits, w))
  {
    FirstGrantCons(visits, w);
    hide FirstGrant;
    var granted := Watch(w.wd, visits[0].path);
    assert granted in LiveSet(t) <==> granted in LiveSet(s) || (NoSlotHas(s, w.wd) && GrantsWd(visits[0], w.wd));
    assert NoSlotHas(t, w.wd) <==> NoSlotHas(s, w.wd) && !GrantsWd(visits[0], w.wd);
  }

  lemma TraverseOneKeepsUnique(s: Slots, v: Visit)
    requires UniqueWds(s)
    ensures UniqueWds(TraverseOne(s, v).slots)
  {
    if v.isDir && v.answer.Granted? && FindWatch(s, v.answer.wd) == -1 {
      AddedMeans(s, v.answer.wd, v.path);
    }
  }

  lemma {:induction false} TraverseKeepsUnique(s: Slots, visits: seq<Visit>)
    requires UniqueWds(s)
    ensures UniqueWds(Traverse(s, visits).slots)
    decreases visits
  {
    if visits != [] {
      TraverseOneKeepsUnique(s, visits[0]);
      TraverseKeepsUnique(TraverseOne(s, visits[0]).slots, visits[1..]);
    }
  }

  // --------------------------------------------------- renaming and back

  lemma MovedBack(p: string, oldDir: string, newDir: string)
    ensures Moved(Moved(p, oldDir, newDir), newDir, oldDir) == p
       <==> (Below(newDir, p) ==> Below(oldDir, p))
  {
    var q := Moved(p, oldDir, newDir);
    if Below(oldDir, p) {
      assert q[|newDir|..] == p[|oldDir|..];
      assert Below(newDir, q);
    } else if Below(newDir, p) {
      var back := oldDir + p[|newDir|..];
      assert Moved(q, newDir, oldDir) == back;
      assert Below(oldDir, back);
    }
  }

  /** Renaming a directory and renaming it back restores the cache exactly when
      no cached pathname was already at or below the new name. */
  lemma RewriteBackRestores(s: Slots, oldDir: string, newDir: string)
    ensures Rewritten(Rewritten(s, oldDir, newDir), newDir, oldDir) == s
       <==> forall w | w in s :: Below(newDir, w.path) ==> Below(oldDir, w.path)
  {
    var t := Rewritten(s, oldDir, newDir);
    var u := Rewritten(t, newDir, oldDir);
    forall i | 0 <= i < |s|
      ensures u[i] == s[i] <==> (Below(newDir, s[i].path) ==> Below(oldDir, s[i].path))
    {
      MovedBack(s[i].path, oldDir, newDir);
    }
    if u != s {
      var i :| 0 <= i < |s| && u[i] != s[i];
      assert s[i] in s;
    }
  }

  lemma RewriteKeepsDistinct(s: Slots, oldDir: string, newDir: string)
    requires DistinctPaths(s)
    requires forall w | w in LiveSet(s) :: Below(newDir, w.path) ==> Below(oldDir, w.path)
    ensures DistinctPaths(Rewritten(s, oldDir, newDir))
  {
    var t := Rewritten(s, oldDir, newDir);
    forall i, j | 0 <= i < j < |t| && t[i].wd >= 0 && t[j].wd >= 0
      ensures t[i].path != t[j].path
    {
      assert s[i] in LiveSet(s) && s[j] in LiveSet(s);
      MovedBack(s[i].path, oldDir, newDir);
      MovedBack(s[j].path, oldDir, newDir);
    }
  }
}
