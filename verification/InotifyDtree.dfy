/** The program itself: the cache array and the root list updated in place, each
    method proved against the function of the same step. */
module InotifyDtree {
  import opened Options
  import opened Paths
  import opened WatchSlots
  import opened DirEvents

  /** One byte of the read buffer: the first byte of an event carries it. */
  type Cell = Option<Event>

  function Lay(evs: seq<Event>): seq<Cell> {
    if evs == [] then [] else [Some(evs[0])] + seq(Size(evs[0]) - 1, _ => None) + Lay(evs[1..])
  }

  lemma {:induction false} LayAppend(a: seq<Event>, b: seq<Event>)
    ensures Lay(a + b) == Lay(a) + Lay(b)
  {
    if a == [] {
      assert a + b == b;
    } else {
      assert (a + b)[1..] == a[1..] + b;
      LayAppend(a[1..], b);
    }
  }

  lemma {:induction false} LayEmpty(evs: seq<Event>)
    ensures |Lay(evs)| <= 1 ==> evs == []
  {
    if evs != [] {
      LayHead(evs);
    }
  }

  lemma {:induction false} LayHead(evs: seq<Event>)
    requires evs != []
    ensures |Lay(evs)| == Size(evs[0]) + |Lay(evs[1..])|
    ensures Lay(evs)[0] == Some(evs[0])
    ensures Lay(evs)[Size(evs[0])..] == Lay(evs[1..])
  {
  }

  lemma LegalParts(a: seq<Event>, b: seq<Event>)
    requires AllLegal(a + b)
    ensures AllLegal(a) && AllLegal(b)
  {
    assert forall i | 0 <= i < |a| :: a[i] == (a + b)[i];
    assert forall i | 0 <= i < |b| :: b[i] == (a + b)[|a| + i];
  }

  lemma LegalJoin(a: seq<Event>, b: seq<Event>)
    requires AllLegal(a) && AllLegal(b)
    ensures AllLegal(a + b)
  {
    hide Legal;
  }

  lemma LegalRest(evs: seq<Event>, n: nat)
    requires AllLegal(evs) && n <= |evs|
    ensures AllLegal(evs[n..])
  {
    hide Legal;
  }

  lemma {:induction false} LaySecond(evs: seq<Event>)
    requires evs != []
    ensures |evs| == 1 ==> |Lay(evs)| == Size(evs[0])
    ensures |evs| >= 2 ==> |Lay(evs)| >= Size(evs[0]) + HEADER
  {
    LayHead(evs);
    if |evs| >= 2 {
      LayHead(evs[1..]);
    }
  }

  /** One or two events are consumed as whole events and stay far below BUF_LEN. */
  lemma {:induction false} LayTake(evs: seq<Event>, n: nat)
    requires AllLegal(evs) && 1 <= n <= 2 && n <= |evs|
    ensures |Lay(evs)| == |Lay(evs[..n])| + |Lay(evs[n..])|
    ensures Lay(evs)[|Lay(evs[..n])|..] == Lay(evs[n..])
    ensures 0 < |Lay(evs[..n])| < BUF_LEN
  {
    assert evs == evs[..n] + evs[n..];
    LayAppend(evs[..n], evs[n..]);
    LayHead(evs[..n]);
    if n == 2 {
      LayHead(evs[..2][1..]);
      assert evs[..2][1..][1..] == [];
    } else {
      assert evs[..1][1..] == [];
    }
  }

  /** The step taken with what the buffer shows is the step of the stream,
      unless it hangs. */
  lemma LookAheadSettles(d: Daemon, cur: seq<Event>, rest: seq<Event>, firstTry: bool, a: Answers)
    requires cur != [] && AllLegal(cur)
    requires !firstTry ==> |cur| >= 2 || rest == []
    ensures var seen := if |cur| > 1 then Some(cur[1]) else None;
      var next := if |cur + rest| > 1 then Some((cur + rest)[1]) else None;
      || Step(d, cur[0], seen, firstTry, a).Hanging?
      || Step(d, cur[0], seen, firstTry, a) == Step(d, cur[0], next, false, a)
  {
    var seen := if |cur| > 1 then Some(cur[1]) else None;
    var next := if |cur + rest| > 1 then Some((cur + rest)[1]) else None;
    if seen.Some? {
      SeenSuccessorSettles(d, cur[0], seen, firstTry, a);
    } else if !Step(d, cur[0], None, firstTry, a).Hanging? {
      OnlyHangingLooksAhead(d, cur[0], next, firstTry, a);
    }
  }

  /** read(): some of the waiting events, whole, at least one, as many as fit;
      which of them is up to the kernel. */
  method Read(buf: array<Cell>, off: nat, room: nat, stream: seq<Event>)
      returns (nr: nat, rest: seq<Event>, ghost got: seq<Event>)
    requires stream != [] && Size(stream[0]) <= room && off + room <= buf.Length
    modifies buf
    ensures got != [] && got + rest == stream
    ensures nr == |Lay(got)| <= room
    ensures buf[off..off + nr] == Lay(got)
    ensures forall i | 0 <= i < off :: buf[i] == old(buf[i])
  {
    assert |Lay(stream[..1])| <= room by {
      LaySecond(stream[..1]);
    }
    var n :| 1 <= n <= |stream| && |Lay(stream[..n])| <= room;
    var cells := Lay(stream[..n]);
    got, rest, nr := stream[..n], stream[n..], |cells|;
    for i := 0 to nr
      invariant forall j | 0 <= j < i :: buf[off + j] == cells[j]
      invariant forall j | 0 <= j < off :: buf[j] == old(buf[j])
    {
      buf[off + i] := cells[i];
    }
  }

  /** How one call of processInotifyEvents ends. */
  datatype Close = Drained | Discarded | Quit | ReadFailed

  /** What handling one event came to. */
  datatype Verdict = Consumed(events: nat) | Discard | Hang | Exit

  ghost predicate Agrees(v: Verdict, o: Outcome, before: Daemon, now: Daemon) {
    match o
    case Took(d, n) => v == Consumed(n) && now == d
    case Rebuilt(d) => v == Discard && now == d
    case Hanging => v == Hang && now == before
    case Exited => v == Exit
  }

  class Program {
    var wlCache: array<Watch>
    const rootDirPaths: array<Option<string>>
    var ignoreRootDirs: nat

    ghost function State(): Daemon
      reads this, wlCache, rootDirPaths
    {
      Daemon(wlCache[..], rootDirPaths[..], ignoreRootDirs)
    }

    constructor (roots: array<Option<string>>)
      ensures rootDirPaths == roots && fresh(wlCache)
      ensures State() == Daemon([], roots[..], 0)
    {
      wlCache := new Watch[0];
      rootDirPaths := roots;
      ignoreRootDirs := 0;
    }

    // ---------------------------------------------------------- the cache

    method FindWatchSlot(wd: int) returns (slot: int)
      ensures slot == FindWatch(wlCache[..], wd)
    {
      for j := 0 to wlCache.Length
        invariant forall i | 0 <= i < j :: wlCache[i].wd != wd
      {
        if wlCache[j].wd == wd {
          return j;
        }
      }
      return -1;
    }

    method PathnameToCacheSlot(pathname: string) returns (slot: int)
      ensures slot == PathSlot(wlCache[..], pathname)
    {
      for j := 0 to wlCache.Length
        invariant forall i | 0 <= i < j :: !HasPath(wlCache[..][i], pathname)
      {
        if wlCache[j].wd >= 0 && wlCache[j].path == pathname {
          assert HasPath(wlCache[..][j], pathname);
          return j;
        }
      }
      return -1;
    }

    method MarkCacheSlotEmpty(slot: nat)
      requires slot < wlCache.Length
      modifies wlCache
      ensures wlCache[..] == Emptied(old(wlCache[..]), slot)
    {
      wlCache[slot] := EMPTY;
    }

    method FindEmptyCacheSlot() returns (slot: nat)
      modifies this`wlCache
      ensures wlCache == old(wlCache) || fresh(wlCache)
      ensures wlCache[..] == WithFreeSlot(old(wlCache[..])) && slot == FreeSlot(old(wlCache[..]))
    {
      var j := FindWatchSlot(-1);
      if j >= 0 {
        return j;
      }
      var size := wlCache.Length;
      var wider := new Watch[size + ALLOC_INCR](_ => EMPTY);
      for i := 0 to size
        invariant wlCache == old(wlCache) && wlCache[..] == old(wlCache[..])
        invariant forall m | 0 <= m < i :: wider[m] == wlCache[m]
        invariant forall m | size <= m < wider.Length :: wider[m] == EMPTY
      {
        wider[i] := wlCache[i];
      }
      assert wider[..] == wlCache[..] + seq(ALLOC_INCR, _ => EMPTY);
      wlCache := wider;
      return size;
    }

    method AddWatchToCache(wd: int, pathname: string)
      modifies this`wlCache, wlCache
      ensures wlCache == old(wlCache) || fresh(wlCache)
      ensures wlCache[..] == Added(old(wlCache[..]), wd, pathname)
    {
      var slot := FindEmptyCacheSlot();
      wlCache[slot] := Watch(wd, pathname);
    }

    // ---------------------------------------------------------- the roots

    method FindRootDirPath(path: string) returns (j: int)
      ensures j == FindRoot(rootDirPaths[..], path)
    {
      j := 0;
      while j < rootDirPaths.Length
        invariant 0 <= j <= rootDirPaths.Length
        invariant forall i | 0 <= i < j :: rootDirPaths[i] != Some(path)
      {
        if rootDirPaths[j] == Some(path) {
          FirstRoot(rootDirPaths[..], path, j);
          return;
        }
        j := j + 1;
      }
      assert Some(path) !in rootDirPaths[..];
      return -1;
    }

    method ZapRootDirPath(path: string) returns (exit: bool)
      requires IsRoot(State(), path)
      modifies this`ignoreRootDirs, rootDirPaths
      ensures State() == RootZapped(old(State()), path)
      ensures exit == NoRootsLeft(State())
    {
      var j := FindRootDirPath(path);
      rootDirPaths[j] := None;
      ignoreRootDirs := ignoreRootDirs + 1;
      exit := ignoreRootDirs == rootDirPaths.Length;
    }

    // ------------------------------------------------------- the traversal

    method TraverseTree(v: Visit) returns (exit: bool, asked: set<Flag>)
      modifies this`wlCache, wlCache
      ensures wlCache == old(wlCache) || fresh(wlCache)
      ensures asked == if v.isDir then AskedFor(old(State()), v.path) else {}
      ensures Traversal(wlCache[..], exit) == TraverseOne(old(wlCache[..]), v)
    {
      exit, asked := false, {};
      if !v.isDir {
        return;
      }
      asked := {IN_CREATE, IN_MOVED_FROM, IN_MOVED_TO, IN_DELETE_SELF};
      var root := FindRootDirPath(v.path);
      if root >= 0 {
        asked := asked + {IN_MOVE_SELF};
      }
      if v.answer.NoEntry? {
        return;
      }
      if v.answer.Refused? {
        exit := true;
        return;
      }
      var slot := FindWatchSlot(v.answer.wd);
      if slot < 0 {
        AddWatchToCache(v.answer.wd, v.path);
      }
    }

    method WatchSubtree(visits: seq<Visit>) returns (exit: bool)
      modifies this`wlCache, wlCache
      ensures wlCache == old(wlCache) || fresh(wlCache)
      ensures Traversal(wlCache[..], exit) == Traverse(old(wlCache[..]), visits)
    {
      exit := false;
      var j := 0;
      while j < |visits| && !exit
        invariant 0 <= j <= |visits|
        invariant wlCache == old(wlCache) || fresh(wlCache)
        invariant Traverse(old(wlCache[..]), visits)
               == if exit then Traversal(wlCache[..], true) else Traverse(wlCache[..], visits[j..])
      {
        assert visits[j..][1..] == visits[j + 1..];
        var asked;
        exit, asked := TraverseTree(visits[j]);
        j := j + 1;
      }
    }

    method Reinitialize(visits: nat -> seq<Visit>) returns (exit: bool)
      modifies this`wlCache
      ensures fresh(wlCache)
      ensures if exit then Rebuild(old(State()), visits).Exited?
              else Rebuild(old(State()), visits) == Rebuilt(State())
    {
      wlCache := new Watch[0];
      exit := false;
      var j := 0;
      while j < rootDirPaths.Length && !exit
        invariant 0 <= j <= rootDirPaths.Length
        invariant fresh(wlCache)
        invariant WatchRoots([], rootDirPaths[..], visits, 0)
               == if exit then Traversal(wlCache[..], true) else WatchRoots(wlCache[..], rootDirPaths[..], visits, j)
      {
        if rootDirPaths[j].Some? {
          exit := WatchSubtree(visits(j));
        }
        j := j + 1;
      }
    }

    // ------------------------------------------------ rewriting and zapping

    method RewriteCachedPaths(fullPath: string, newPrefix: string)
      modifies wlCache
      ensures wlCache[..] == Rewritten(old(wlCache[..]), fullPath, newPrefix)
    {
      for j := 0 to wlCache.Length
        invariant forall i | 0 <= i < j :: wlCache[i] == Rewritten(old(wlCache[..]), fullPath, newPrefix)[i]
        invariant forall i | j <= i < wlCache.Length :: wlCache[i] == old(wlCache[i])
      {
        var p := wlCache[j].path;
        if fullPath <= p && (|p| == |fullPath| || p[|fullPath|] == '/') {
          wlCache[j] := wlCache[j].(path := newPrefix + p[|fullPath|..]);
        }
      }
    }

    method ZapSubtree(path: string, stale: set<int>) returns (cnt: int)
      modifies wlCache
      ensures ZapResult(wlCache[..], cnt) == Zapped(old(wlCache[..]), path, stale)
    {
      cnt := 0;
      var j := 0;
      while j < wlCache.Length
        invariant 0 <= j <= wlCache.Length && cnt >= 0
        invariant ZappedFrom(wlCache[..], path, stale, j, cnt) == Zapped(old(wlCache[..]), path, stale)
      {
        if wlCache[j].wd >= 0 && Below(path, wlCache[j].path) {
          if wlCache[j].wd in stale {
            return -1;
          }
          ghost var before := wlCache[..];
          MarkCacheSlotEmpty(j);
          assert wlCache[..] == Emptied(before, j);
          cnt := cnt + 1;
        }
        j := j + 1;
      }
    }

    // --------------------------------------------------------- one event

    method RebuildAll(visits: nat -> seq<Visit>) returns (v: Verdict)
      modifies this`wlCache
      ensures fresh(wlCache)
      ensures Agrees(v, Rebuild(old(State()), visits), old(State()), State())
    {
      var exit := Reinitialize(visits);
      v := if exit then Exit else Discard;
    }

    method ZapAndCheck(path: string, a: Answers) returns (v: Verdict)
      modifies this`wlCache, wlCache
      ensures wlCache == old(wlCache) || fresh(wlCache)
      ensures Agrees(v, ZapOrRebuild(old(State()), path, a), old(State()), State())
    {
      var cnt := ZapSubtree(path, a.stale);
      if cnt == -1 {
        v := RebuildAll(a.rebuild);
      } else {
        v := Consumed(1);
      }
    }

    method DirectoryAppeared(slot: int, ev: Event, a: Answers) returns (v: Verdict)
      requires slot == FindWatch(wlCache[..], ev.wd) && slot >= 0
      modifies this`wlCache, wlCache
      ensures wlCache == old(wlCache) || fresh(wlCache)
      ensures Agrees(v, Appear(old(State()), ev, a), old(State()), State())
    {
      var found := PathnameToCacheSlot(wlCache[slot].path + "/" + ev.name);
      var exit := false;
      if found < 0 {
        exit := WatchSubtree(a.visits);
      }
      v := if exit then Exit else Consumed(1);
    }

    method DirectoryDeleted(slot: int, ev: Event) returns (v: Verdict)
      requires slot == FindWatch(wlCache[..], ev.wd) && slot >= 0
      modifies this`ignoreRootDirs, wlCache, rootDirPaths
      ensures Agrees(v, SelfDeleted(old(State()), ev), old(State()), State())
    {
      var path := wlCache[slot].path;
      var j := FindRootDirPath(path);
      if j >= 0 {
        var exit := ZapRootDirPath(path);
        if exit {
          return Exit;
        }
      }
      MarkCacheSlotEmpty(slot);
      v := Consumed(1);
    }

    method DirectoryMovedFrom(slot: int, ev: Event, next: Option<Event>, firstTry: bool, a: Answers)
        returns (v: Verdict)
      requires slot == FindWatch(wlCache[..], ev.wd) && slot >= 0
      modifies this`wlCache, wlCache
      ensures wlCache == old(wlCache) || fresh(wlCache)
      ensures Agrees(v, MovedAway(old(State()), ev, next, firstTry, a), old(State()), State())
    {
      var fullPath := wlCache[slot].path + "/" + ev.name;
      if next.Some? && IN_MOVED_TO in next.value.mask && next.value.cookie == ev.cookie {
        var nextSlot := FindWatchSlot(next.value.wd);
        if nextSlot == -1 {
          v := RebuildAll(a.rebuild);
        } else {
          RewriteCachedPaths(fullPath, wlCache[nextSlot].path + "/" + next.value.name);
          v := Consumed(2);
        }
      } else if next.Some? || !firstTry {
        v := ZapAndCheck(fullPath, a);
      } else {
        v := Hang;
      }
    }

    method RootPathMoved(slot: int, ev: Event, a: Answers) returns (v: Verdict)
      requires slot == FindWatch(wlCache[..], ev.wd) && slot >= 0 && IsRoot(State(), wlCache[slot].path)
      modifies this, wlCache, rootDirPaths
      ensures wlCache == old(wlCache) || fresh(wlCache)
      ensures Agrees(v, RootMoved(old(State()), ev, a), old(State()), State())
    {
      var path := wlCache[slot].path;
      var exit := ZapRootDirPath(path);
      if exit {
        v := Exit;
      } else {
        v := ZapAndCheck(path, a);
      }
    }

    /** The dispatch on the event mask. */
    method HandleEvent(ev: Event, next: Option<Event>, firstTry: bool, a: Answers) returns (v: Verdict)
      requires Legal(ev)
      modifies this, wlCache, rootDirPaths
      ensures wlCache == old(wlCache) || fresh(wlCache)
      ensures Agrees(v, Step(old(State()), ev, next, firstTry, a), old(State()), State())
    {
      var slot := -1;
      if ev.wd != -1 && IN_IGNORED !in ev.mask {
        slot := FindWatchSlot(ev.wd);
        if slot == -1 {
          v := RebuildAll(a.rebuild);
          return;
        }
      }
      if IN_ISDIR in ev.mask && (IN_CREATE in ev.mask || IN_MOVED_TO in ev.mask) {
        v := DirectoryAppeared(slot, ev, a);
      } else if IN_DELETE_SELF in ev.mask {
        v := DirectoryDeleted(slot, ev);
      } else if IN_MOVED_FROM in ev.mask && IN_ISDIR in ev.mask {
        v := DirectoryMovedFrom(slot, ev, next, firstTry, a);
      } else if IN_Q_OVERFLOW in ev.mask {
        v := RebuildAll(a.rebuild);
      } else if IN_UNMOUNT in ev.mask {
        MarkCacheSlotEmpty(slot);
        v := Consumed(1);
      } else {
        v := Consumed(1);
        if IN_MOVE_SELF in ev.mask {
          var j := FindRootDirPath(wlCache[slot].path);
          if j >= 0 {
            v := RootPathMoved(slot, ev, a);
          }
        }
      }
    }

    /** The event at buf[at] with size bytes left from there; its successor is
        looked at only when it starts within them. evs is what the buffer holds
        from there on. Returns the bytes consumed, BUF_LEN to discard the buffer,
        or -1 for a hanging IN_MOVED_FROM; taken counts the events consumed. */
    method ProcessNextInotifyEvent(buf: array<Cell>, at: nat, size: int, firstTry: bool, a: Answers,
        ghost evs: seq<Event>)
        returns (evLen: int, taken: nat, exit: bool)
      requires evs != [] && Legal(evs[0])
      requires at + |Lay(evs)| <= buf.Length && buf[at..at + |Lay(evs)|] == Lay(evs)
      requires Size(evs[0]) < size ==> |evs| > 1
      modifies this, wlCache, rootDirPaths
      ensures wlCache == old(wlCache) || fresh(wlCache)
      ensures var next := if Size(evs[0]) < size then Some(evs[1]) else None;
        match Step(old(State()), evs[0], next, firstTry, a)
        case Took(d, n) => !exit && State() == d && taken == n <= |evs| && evLen == |Lay(evs[..n])| > 0
        case Rebuilt(d) => !exit && State() == d && taken == 0 && evLen == BUF_LEN
        case Hanging => !exit && State() == old(State()) && evLen == -1
        case Exited => exit
    {
      LayHead(evs);
      assert buf[at] == buf[at..at + |Lay(evs)|][0];
      var ev := buf[at].value;
      var next := None;
      assert [ev][1..] == [] && evs[..1] == [ev];
      if Size(ev) < size {
        LayHead(evs[1..]);
        assert Lay(evs)[Size(ev)] == Lay(evs)[Size(ev)..][0];
        assert buf[at + Size(ev)] == buf[at..at + |Lay(evs)|][Size(ev)];
        next := buf[at + Size(ev)];
        assert evs[..2] == [ev] + [evs[1]] && [evs[1]][1..] == [];
        LayAppend([ev], [evs[1]]);
      }
      var v := HandleEvent(ev, next, firstTry, a);
      match v
      case Consumed(n) =>
        evLen := Size(ev) + if n == 2 then Size(next.value) else 0;
        taken, exit := n, false;
      case Discard => evLen, taken, exit := BUF_LEN, 0, false;
      case Hang => evLen, taken, exit := -1, 0, false;
      case Exit => evLen, taken, exit := 0, 0, true;
    }

    // -------------------------------------------------------- the read loop

    /** One call: a read of at most cnt bytes, then every event of the buffer,
        with a further read behind a hanging IN_MOVED_FROM at its end. stream is
        what the inotify instance will deliver; where read() cuts it is open.
        The further read times out only if nothing is left to deliver. */
    method ProcessInotifyEvents(stream: seq<Event>, cnt: nat, env: nat -> Answers, pos: nat)
        returns (how: Close, rest: seq<Event>, next: nat)
      requires stream != [] && AllLegal(stream) && cnt <= BUF_LEN
      modifies this, wlCache, rootDirPaths
      ensures wlCache == old(wlCache) || fresh(wlCache)
      ensures how == ReadFailed <==> Size(stream[0]) > cnt
      ensures how == ReadFailed ==> State() == old(State())
      ensures AllLegal(rest) && (how == Drained ==> IsSuffix(rest, stream))
      ensures how == Drained ==>
        |rest| < |stream| && Process(old(State()), stream, env, pos) == Process(State(), rest, env, next)
      ensures how == Discarded ==> Process(old(State()), stream, env, pos) == Alive(State(), true)
      ensures how == Quit ==> Process(old(State()), stream, env, pos) == Gone
    {
      WholeIsSuffix(stream);
      hide Process, Step, Lay, Legal, InBuffer, IsSuffix;
      var buf := new Cell[BUF_LEN](_ => None);
      rest, next := stream, pos;
      if Size(stream[0]) > cnt {
        return ReadFailed, rest, next;
      }
      var numRead: int;
      ghost var cur;
      numRead, rest, cur := FirstRead(buf, cnt, stream);
      var firstTry, evp := true, 0;
      ghost var slip, was := 0, State();
      ghost var goal := Process(was, stream, env, pos);
      ghost var left := stream;
      while evp < numRead
        invariant InBuffer(buf, evp, numRead, cur, slip) && 0 <= slip <= 1
        invariant slip == 1 ==> rest == [] && (cur == [] || (|cur| == 1 && !firstTry))
        invariant !firstTry ==> |cur| >= 2 || (|cur| == 1 && rest == [])
        invariant wlCache == old(wlCache) || fresh(wlCache)
        invariant fresh(buf) && AllLegal(cur) && AllLegal(rest)
        invariant left == cur + rest && AllLegal(left) && IsSuffix(left, stream) && |rest| < |stream|
        invariant was == State() && goal == Process(was, left, env, next)
        decreases |cur| + |rest|, firstTry
      {
        NonEmptyBuffer(buf, evp, numRead, cur, slip);
        ghost var seen := if |cur| > 1 then Some(cur[1]) else None;
        var evLen, taken, exit := ProcessNextInotifyEvent(buf, evp, numRead - evp, firstTry, env(next), cur);
        ghost var o := Step(was, cur[0], seen, firstTry, env(next));
        StreamAdvance(was, cur, rest, stream, env, next, firstTry, o);
        if exit {
          return Quit, rest, next;
        }
        if evLen > 0 {
          if taken == 0 {
            assert evp + evLen >= numRead;
            return Discarded, rest, next;
          }
          Advance(buf, evp, numRead, cur, slip, taken);
          next, was, left := next + taken, State(), left[taken..];
          cur := cur[taken..];
          evp := evp + evLen;
          firstTry := true;
        } else {
          firstTry := false;
          numRead, rest, cur, slip := ReadMore(buf, evp, numRead, rest, cur);
          evp := 0;
        }
      }
      EmptyBuffer(buf, evp, numRead, cur, slip);
      assert left == rest;
      how := Drained;
    }

    /** The main loop over one inotify instance: call after call until everything
        delivered has been handled. Where the reads cut the stream, and how often
        an event had to wait for a further read, leaves no trace in the result. */
    method HandleStream(stream: seq<Event>, cnt: nat, env: nat -> Answers) returns (how: Close)
      requires AllLegal(stream) && HEADER + NAME_MAX + 1 <= cnt <= BUF_LEN
      modifies this, wlCache, rootDirPaths
      ensures wlCache == old(wlCache) || fresh(wlCache)
      ensures match Process(old(State()), stream, env, 0)
              case Alive(d, rebuilt) => how == (if rebuilt then Discarded else Drained) && State() == d
              case Gone => how == Quit
    {
      var rest, pos := stream, 0;
      while rest != []
        invariant wlCache == old(wlCache) || fresh(wlCache)
        invariant AllLegal(rest)
        invariant Process(old(State()), stream, env, 0) == Process(State(), rest, env, pos)
        decreases |rest|
      {
        how, rest, pos := ProcessInotifyEvents(rest, cnt, env, pos);
        if how != Drained {
          return;
        }
      }
      how := Drained;
    }
  }

  ghost predicate IsSuffix(a: seq<Event>, b: seq<Event>) {
    |a| <= |b| && a == b[|b| - |a|..]
  }

  lemma WholeIsSuffix(a: seq<Event>)
    ensures IsSuffix(a, a)
  {
  }

  lemma DropFront(a: seq<Event>, b: seq<Event>, n: nat)
    requires n <= |a|
    ensures a[n..] + b == (a + b)[n..]
  {
  }

  lemma SuffixOfSuffix(a: seq<Event>, b: seq<Event>, n: nat)
    requires IsSuffix(a, b) && n <= |a|
    ensures IsSuffix(a[n..], b)
  {
  }

  /** The bytes evp..numRead of the buffer hold the events cur. After a timed-out
      second read, which adds -1 to numRead, the last byte falls outside. */
  ghost predicate InBuffer(buf: array<Cell>, evp: int, numRead: int, cur: seq<Event>, slip: int)
    reads buf
  {
    && buf.Length == BUF_LEN && 0 <= evp && 0 <= slip <= 1
    && numRead == evp + |Lay(cur)| - slip
    && evp + |Lay(cur)| <= BUF_LEN
    && buf[evp..evp + |Lay(cur)|] == Lay(cur)
  }

  lemma {:induction false} NonEmptyBuffer(buf: array<Cell>, evp: int, numRead: int, cur: seq<Event>, slip: int)
    requires InBuffer(buf, evp, numRead, cur, slip) && evp < numRead
    ensures cur != [] && evp + |Lay(cur)| <= buf.Length && buf[evp..evp + |Lay(cur)|] == Lay(cur)
    ensures 0 <= evp && numRead - evp <= BUF_LEN
    ensures |cur| == 1 ==> Size(cur[0]) == numRead - evp + slip
    ensures |cur| >= 2 ==> Size(cur[0]) < numRead - evp
  {
    LaySecond(cur);
  }

  lemma EmptyBuffer(buf: array<Cell>, evp: int, numRead: int, cur: seq<Event>, slip: int)
    requires InBuffer(buf, evp, numRead, cur, slip) && evp >= numRead
    ensures cur == []
  {
    LayEmpty(cur);
  }

  lemma Advance(buf: array<Cell>, evp: int, numRead: int, cur: seq<Event>, slip: int, n: nat)
    requires InBuffer(buf, evp, numRead, cur, slip) && AllLegal(cur) && 1 <= n <= 2 && n <= |cur|
    ensures InBuffer(buf, evp + |Lay(cur[..n])|, numRead, cur[n..], slip)
  {
    LayTake(cur, n);
    var held := buf[evp..evp + |Lay(cur)|];
    assert held[|Lay(cur[..n])|..] == buf[evp + |Lay(cur[..n])|..evp + |Lay(cur)|];
  }

  lemma ProcessFirst(d: Daemon, evs: seq<Event>, env: nat -> Answers, pos: nat)
    requires evs != [] && AllLegal(evs)
    ensures var o := Step(d, evs[0], if |evs| > 1 then Some(evs[1]) else None, false, env(pos));
      && !o.Hanging?
      && (o.Rebuilt? ==> Process(d, evs, env, pos) == Alive(o.d, true))
      && (o.Exited? ==> Process(d, evs, env, pos) == Gone)
      && (o.Took? ==> 1 <= o.events <= 2 && o.events <= |evs| && AllLegal(evs[o.events..])
                      && Process(d, evs, env, pos) == Process(o.d, evs[o.events..], env, pos + o.events))
  {
    hide Legal, Unknown, Appear, SelfDeleted, MovedAway, RootMoved;
  }

  /** Handling the first event with what the buffer shows of its successor moves
      the stream one step on, or ends it, as Process does. */
  lemma {:induction false} StreamAdvance(d: Daemon, cur: seq<Event>, rest: seq<Event>, stream: seq<Event>,
      env: nat -> Answers, pos: nat, firstTry: bool, o: Outcome)
    requires cur != [] && AllLegal(cur) && AllLegal(rest) && IsSuffix(cur + rest, stream)
    requires !firstTry ==> |cur| >= 2 || rest == []
    requires o == Step(d, cur[0], if |cur| > 1 then Some(cur[1]) else None, firstTry, env(pos))
    ensures AllLegal(cur + rest)
    ensures o.Rebuilt? ==> Process(d, cur + rest, env, pos) == Alive(o.d, true)
    ensures o.Exited? ==> Process(d, cur + rest, env, pos) == Gone
    ensures o.Took? ==>
      && 1 <= o.events <= 2 && o.events <= |cur|
      && cur[o.events..] + rest == (cur + rest)[o.events..]
      && AllLegal(cur[o.events..]) && AllLegal((cur + rest)[o.events..])
      && IsSuffix((cur + rest)[o.events..], stream)
      && Process(d, cur + rest, env, pos) == Process(o.d, (cur + rest)[o.events..], env, pos + o.events)
    ensures o.Hanging? ==> firstTry && |cur| == 1
  {
    hide Step, Legal, Process, IsSuffix, AllLegal;
    LegalJoin(cur, rest);
    var all := cur + rest;
    assert all[0] == cur[0] && (|cur| > 1 ==> all[1] == cur[1]);
    LookAheadSettles(d, cur, rest, firstTry, env(pos));
    ProcessFirst(d, all, env, pos);
    if o.Took? {
      StepBounds(d, cur, firstTry, env(pos), o);
      LegalRest(cur, o.events);
      DropFront(cur, rest, o.events);
      SuffixOfSuffix(all, stream, o.events);
    } else if o.Hanging? {
      StepBounds(d, cur, firstTry, env(pos), o);
    }
  }

  lemma StepBounds(d: Daemon, cur: seq<Event>, firstTry: bool, a: Answers, o: Outcome)
    requires cur != [] && AllLegal(cur)
    requires o == Step(d, cur[0], if |cur| > 1 then Some(cur[1]) else None, firstTry, a)
    ensures o.Took? ==> 1 <= o.events <= 2 && o.events <= |cur|
    ensures o.Hanging? ==> firstTry && |cur| == 1
  {
    hide Step, Legal;
  }

  method FirstRead(buf: array<Cell>, cnt: nat, stream: seq<Event>)
      returns (numRead: int, rest: seq<Event>, ghost cur: seq<Event>)
    requires buf.Length == BUF_LEN && stream != [] && AllLegal(stream) && Size(stream[0]) <= cnt <= BUF_LEN
    modifies buf
    ensures InBuffer(buf, 0, numRead, cur, 0)
    ensures cur + rest == stream && AllLegal(cur) && AllLegal(rest) && |rest| < |stream|
  {
    numRead, rest, cur := Read(buf, 0, cnt, stream);
    LegalParts(cur, rest);
  }

  /** The shuffle: the bytes from evp on come to the start of the buffer. */
  method MoveToFront(buf: array<Cell>, evp: nat, total: nat)
    requires evp + total <= buf.Length
    modifies buf
    ensures buf[..total] == old(buf[evp..evp + total])
  {
    ghost var held := buf[evp..evp + total];
    for j := 0 to total
      invariant forall i | 0 <= i < j :: buf[i] == held[i]
      invariant forall i | j <= i < total :: buf[evp + i] == held[i]
    {
      buf[j] := buf[evp + j];
    }
    assert buf[..total] == held;
  }

  lemma {:induction false} BehindTheHanging(buf: array<Cell>, cur: seq<Event>, more: seq<Event>, rest: seq<Event>,
      stream: seq<Event>)
    requires buf.Length == BUF_LEN && |cur| == 1 && more != [] && AllLegal(cur) && AllLegal(stream)
    requires more + rest == stream && |Lay(cur)| + |Lay(more)| <= BUF_LEN
    requires buf[..|Lay(cur)|] == Lay(cur) && buf[|Lay(cur)|..|Lay(cur)| + |Lay(more)|] == Lay(more)
    ensures InBuffer(buf, 0, |Lay(cur)| + |Lay(more)|, cur + more, 0)
    ensures cur + more + rest == cur + stream && |cur + more| >= 2 && AllLegal(cur + more) && AllLegal(rest)
  {
    LegalParts(more, rest);
    LegalJoin(cur, more);
    LayAppend(cur, more);
    hide Lay, Legal, AllLegal;
    var n, m := |Lay(cur)|, |Lay(more)|;
    assert buf[0..n + m] == buf[..n] + buf[n..n + m];
    assert cur + more + rest == cur + (more + rest);
  }

  /** Moves the hanging event to the start of the buffer and reads behind it. */
  method ReadMore(buf: array<Cell>, evp: nat, numRead: int, stream: seq<Event>, ghost cur: seq<Event>)
      returns (total: int, rest: seq<Event>, ghost now: seq<Event>, ghost slip: int)
    requires InBuffer(buf, evp, numRead, cur, 0) && |cur| == 1 && AllLegal(cur) && AllLegal(stream)
    modifies buf
    ensures InBuffer(buf, 0, total, now, slip)
    ensures now + rest == cur + stream && |rest| <= |stream| && AllLegal(now) && AllLegal(rest)
    ensures stream == [] ==> now == cur && rest == [] && slip == 1
    ensures stream != [] ==> |now| >= 2 && slip == 0
  {
    hide Lay, Legal, AllLegal;
    total := numRead - evp;
    MoveToFront(buf, evp, total);
    rest, now, slip := stream, cur, 0;
    if stream == [] {
      // The read timed out and returned -1, which is added all the same.
      total := total - 1;
      slip := 1;
    } else {
      RoomForMore(cur, stream);
      ghost var more;
      var nr;
      nr, rest, more := Read(buf, total, BUF_LEN - total, stream);
      assert buf[..total] == Lay(cur);
      BehindTheHanging(buf, cur, more, rest, stream);
      now := cur + more;
      total := total + nr;
    }
  }

  lemma {:induction false} RoomForMore(cur: seq<Event>, stream: seq<Event>)
    requires |cur| == 1 && stream != [] && AllLegal(cur) && AllLegal(stream)
    ensures |Lay(cur)| + Size(stream[0]) <= BUF_LEN
  {
    LaySecond(cur);
    assert Legal(cur[0]) && Legal(stream[0]);
  }

  lemma {:induction false} FirstRoot(roots: seq<Option<string>>, path: string, j: nat)
    requires j < |roots| && roots[j] == Some(path)
    requires forall i | 0 <= i < j :: roots[i] != Some(path)
    ensures FindRoot(roots, path) == j
    decreases j
  {
    if j > 0 {
      assert roots[0] != Some(path);
      FirstRoot(roots[1..], path, j - 1);
    }
  }
}
