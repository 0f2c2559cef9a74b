/** Every sequence of operations, each with its events handled before the next:
    cache and trees stay in agreement exactly as long as no operation is one of
    those that leave a directory uncached. */
module QuietRuns {
  import opened Options
  import opened Paths
  import opened WatchSlots
  import opened DirEvents
  import opened DirTree
  import opened QuietOps
  import opened QuietSteps
  import opened QuietMoves

  // ------------------------------------------------------- one operation

  /** One operation, with the kernel's choices while its events are handled:
      the order nftw lists an arrived subtree in, and the answers given. */
  datatype Turn = Turn(op: Op, dirBit: bool, cookie: nat, order: seq<Loc>, a: Answers)

  /** The directories nftw finds when it is sent to a place, and the kernel that
      answers; None if it is sent nowhere. */
  ghost predicate Traverses(k: Kernel, t: Turn) {
    match t.op
    case Arrive(at, tree, _) =>
      at !in k.dirs ==>
        && Lists(t.order, Grafted(k.dirs, at, tree), at)
        && VisitsFaithful(Arrived(k, at, tree), t.order, t.a.visits)
    case Replace(at, tree, outsideFirst) =>
      !outsideFirst ==>
        && Lists(t.order, Grafted(Left(k, at).dirs, at, tree), at)
        && VisitsFaithful(Arrived(Left(k, at), at, tree), t.order, t.a.visits)
    case RootIn(from, to) =>
      to !in k.dirs ==>
        && Lists(t.order, Renamed(k, from, to).dirs, to)
        && VisitsFaithful(Renamed(k, from, to), t.order, t.a.visits)
    case Exchange(a, b) =>
      |a| > 1 && |b| == 1 ==>
        && Lists(t.order, Swapped(k.dirs, a, b), a)
        && VisitsFaithful(Midway(k, a, b), t.order, t.a.visits)
    case _ => true
  }

  ghost predicate Proper(roots: set<string>, k: Kernel, t: Turn) {
    && Can(roots, k, t.op)
    && (forall wd | wd in k.watches :: wd !in t.a.stale)
    && Traverses(k, t)
  }

  /** The operations the program gets wrong: a rename from outside over an empty
      directory it has cached, an exchange with a directory outside that is named
      first, a root renamed into another root's tree, and an exchange of two
      directories of which at least one is not a root. */
  predicate Fails(k: Kernel, op: Op) {
    match op
    case Arrive(at, _, _) => at in k.dirs
    case Replace(_, _, outsideFirst) => outsideFirst
    case RootIn(_, _) => true
    case Exchange(a, b) => |a| > 1 || |b| > 1
    case _ => false
  }

  ghost function KernelAfter(roots: set<string>, k: Kernel, t: Turn): Kernel
    requires Proper(roots, k, t)
  {
    match t.op
    case Arrive(at, tree, _) =>
      if at in k.dirs then Arrived(k, at, tree) else WatchAll(Arrived(k, at, tree), t.order)
    case Remove(at) => Left(k, at)
    case Rename(from, to) => Renamed(k, from, to)
    case Leave(at) => Left(k, at)
    case RootIn(from, to) => MovedIn(k, from, to)
    case OverRoot(from, to) => Left(Left(k, from), to)
    case Replace(at, tree, outsideFirst) =>
      var k' := Arrived(Left(k, at), at, tree);
      if outsideFirst then k' else WatchAll(k', t.order)
    case Exchange(a, b) => Exchanged(k, a, b)
    case Other(_, _, _) => k
  }

  ghost function Constant(a: Answers): nat -> Answers {
    _ => a
  }

  lemma {:induction false} OtherSettles(roots: set<string>, k: Kernel, d: Daemon, dir: Loc, flag: Flag, name: string,
      cookie: nat, env: nat -> Answers)
    requires InSync(roots, k, d) && Can(roots, k, Other(dir, flag, name))
    ensures AllLegal(EventsOf(roots, k, Other(dir, flag, name), false, cookie))
    ensures Process(d, EventsOf(roots, k, Other(dir, flag, name), false, cookie), env, 0) == Alive(d, false)
  {
    SlotOf(k, d, WdOf(k, dir), dir);
    ProcessSingle(d, EventsOf(roots, k, Other(dir, flag, name), false, cookie)[0], env, 0);
  }

  ghost function Handled(roots: set<string>, k: Kernel, d: Daemon, t: Turn): End
    requires InSync(roots, k, d) && Proper(roots, k, t)
    requires AllLegal(EventsOf(roots, k, t.op, t.dirBit, t.cookie))
  {
    Process(d, EventsOf(roots, k, t.op, t.dirBit, t.cookie), Constant(t.a), 0)
  }

  /** Agreement after the turn, or exit because no tree is left. */
  ghost predicate Settled(roots: set<string>, k: Kernel, end: End) {
    if k.dirs == map[] then end == Gone else end.Alive? && !end.rebuilt && InSync(roots, k, end.d)
  }

  /** A directory of the trees is not in the cache after the turn. */
  ghost predicate Missed(k: Kernel, end: End) {
    k.dirs != map[] && end.Alive? && !end.rebuilt && Misses(k, end.d)
  }

  lemma ArriveTurn(roots: set<string>, k: Kernel, d: Daemon, t: Turn)
    requires InSync(roots, k, d) && Proper(roots, k, t) && t.op.Arrive?
    ensures AllLegal(EventsOf(roots, k, t.op, t.dirBit, t.cookie))
    ensures var end, k' := Handled(roots, k, d, t), KernelAfter(roots, k, t);
      if Fails(k, t.op) then Missed(k', end) else Settled(roots, k', end)
  {
    var at, tree := t.op.at, t.op.tree;
    GraftedAre(k.dirs, at, tree);
    assert at + [] in Grafted(k.dirs, at, tree) && at + [] == at;
    if at in k.dirs {
      MoveInOverEmptyIsMissed(roots, k, d, at, tree, t.dirBit, t.cookie, Constant(t.a));
    } else {
      ArriveSettles(roots, k, d, at, tree, t.op.created, t.dirBit, t.cookie, t.order, Constant(t.a));
    }
  }

  lemma RenameTurn(roots: set<string>, k: Kernel, d: Daemon, t: Turn)
    requires InSync(roots, k, d) && Proper(roots, k, t) && t.op.Rename?
    ensures AllLegal(EventsOf(roots, k, t.op, t.dirBit, t.cookie))
    ensures Settled(roots, KernelAfter(roots, k, t), Handled(roots, k, d, t))
  {
    var from, to := t.op.from, t.op.to;
    RenameSettles(roots, k, d, from, to, t.dirBit, t.cookie, Constant(t.a));
    RootThere(k, from, to);
  }

  lemma ReplaceTurn(roots: set<string>, k: Kernel, d: Daemon, t: Turn)
    requires InSync(roots, k, d) && Proper(roots, k, t) && t.op.Replace?
    ensures AllLegal(EventsOf(roots, k, t.op, t.dirBit, t.cookie))
    ensures var end, k' := Handled(roots, k, d, t), KernelAfter(roots, k, t);
      if Fails(k, t.op) then Missed(k', end) else Settled(roots, k', end)
  {
    var at, tree, k1 := t.op.at, t.op.tree, Left(k, t.op.at);
    ReplacedThere(k, at, tree);
    hide InSync, Process, EventsOf, AllLegal, Lists, VisitsFaithful, Missed, Arrived, Left;
    if t.op.outsideFirst {
      ReplaceFirstIsMissed(roots, k, d, at, tree, t.dirBit, t.cookie, Constant(t.a));
      MissedAt(Arrived(k1, at, tree), Handled(roots, k, d, t), at);
    } else {
      ReplaceSettles(roots, k, d, at, tree, t.dirBit, t.cookie, t.order, Constant(t.a));
    }
  }

  lemma ReplacedThere(k: Kernel, at: Loc, tree: map<seq<string>, nat>)
    requires [] in tree
    ensures at in Arrived(Left(k, at), at, tree).dirs
  {
    var k1 := Left(k, at);
    assert Without(k1.dirs, at) == k1.dirs && Arrived(k1, at, tree).dirs == Grafted(k1.dirs, at, tree);
    GraftedAre(k1.dirs, at, tree);
    assert at + [] == at && at + [] in Grafted(k1.dirs, at, tree);
  }

  lemma RootInTurn(roots: set<string>, k: Kernel, d: Daemon, t: Turn)
    requires InSync(roots, k, d) && Proper(roots, k, t) && t.op.RootIn?
    ensures AllLegal(EventsOf(roots, k, t.op, t.dirBit, t.cookie))
    ensures Missed(KernelAfter(roots, k, t), Handled(roots, k, d, t))
  {
    RootInIsMissed(roots, k, d, t.op.from, t.op.to, t.dirBit, t.cookie, t.order, Constant(t.a));
  }

  /** What the lemmas about the failing operations leave to say. */
  lemma MissedAt(k: Kernel, end: End, l: Loc)
    requires l in k.dirs && |l| > 0 && end.Alive? && !end.rebuilt && !PathInCache(end.d.slots, Path(l))
    ensures Missed(k, end)
  {
  }

  lemma ExchangedThere(k: Kernel, a: Loc, b: Loc)
    requires a in k.dirs && b in k.dirs && !(a <= b) && !(b <= a)
    ensures |a| > 1 ==> a in Exchanged(k, a, b).dirs
    ensures |b| > 1 ==> b in Exchanged(k, a, b).dirs
  {
    SwapThere(k.dirs, a, b);
    hide Swapped;
  }

  lemma ExchangeTurn(roots: set<string>, k: Kernel, d: Daemon, t: Turn)
    requires InSync(roots, k, d) && Proper(roots, k, t) && t.op.Exchange?
    ensures AllLegal(EventsOf(roots, k, t.op, t.dirBit, t.cookie))
    ensures var end, k' := Handled(roots, k, d, t), KernelAfter(roots, k, t);
      if Fails(k, t.op) then Missed(k', end) else Settled(roots, k', end)
  {
    var a, b, env := t.op.a, t.op.b, Constant(t.a);
    ExchangedThere(k, a, b);
    hide InSync, Process, EventsOf, AllLegal, Exchanged, Lists, VisitsFaithful, Missed, Swapped;
    if |a| > 1 && |b| > 1 {
      InnerExchangeIsMissed(roots, k, d, a, b, t.dirBit, t.cookie, env);
      MissedAt(Exchanged(k, a, b), Handled(roots, k, d, t), b);
    } else if |a| > 1 {
      RootSecondIsMissed(roots, k, d, a, b, t.dirBit, t.cookie, t.order, env);
      MissedAt(Exchanged(k, a, b), Handled(roots, k, d, t), a);
    } else if |b| > 1 {
      RootFirstIsMissed(roots, k, d, a, b, t.dirBit, t.cookie, env);
      MissedAt(Exchanged(k, a, b), Handled(roots, k, d, t), b);
    } else {
      RootsExchanged(roots, k, d, a, b, t.dirBit, t.cookie, env);
    }
  }

  /** After one operation and its events, cache and kernel agree again if and only
      if the operation is not one of those that fail; if it is, a directory of the
      trees is not in the cache. The program has exited if and only if no tree is
      left. */
  lemma TurnSettles(roots: set<string>, k: Kernel, d: Daemon, t: Turn)
    requires InSync(roots, k, d) && Proper(roots, k, t)
    ensures AllLegal(EventsOf(roots, k, t.op, t.dirBit, t.cookie))
    ensures var end, k' := Handled(roots, k, d, t), KernelAfter(roots, k, t);
      && (end == Gone <==> k'.dirs == map[])
      && (end.Alive? ==> !end.rebuilt && (InSync(roots, k', end.d) <==> !Fails(k, t.op)))
      && (Fails(k, t.op) ==> end.Alive? && Misses(k', end.d))
  {
    TurnEnds(roots, k, d, t);
    var end, k' := Handled(roots, k, d, t), KernelAfter(roots, k, t);
    hide InSync, Handled, KernelAfter, Misses, Proper;
    if Fails(k, t.op) {
      MissesMeansNotInSync(roots, k', end.d);
    }
  }

  lemma TurnEnds(roots: set<string>, k: Kernel, d: Daemon, t: Turn)
    requires InSync(roots, k, d) && Proper(roots, k, t)
    ensures AllLegal(EventsOf(roots, k, t.op, t.dirBit, t.cookie))
    ensures var end, k' := Handled(roots, k, d, t), KernelAfter(roots, k, t);
      if Fails(k, t.op) then Missed(k', end) else Settled(roots, k', end)
  {
    var env := Constant(t.a);
    hide InSync, Process, EventsOf, Traverses, AllLegal;
    match t.op
    case Arrive(_, _, _) => ArriveTurn(roots, k, d, t);
    case Remove(_) => RemoveTurn(roots, k, d, t);
    case Rename(_, _) => RenameTurn(roots, k, d, t);
    case Leave(at) => LeaveSettles(roots, k, d, at, t.dirBit, t.cookie, env);
    case RootIn(_, _) => RootInTurn(roots, k, d, t);
    case OverRoot(from, to) => OverRootSettles(roots, k, d, from, to, t.dirBit, t.cookie, env);
    case Replace(_, _, _) => ReplaceTurn(roots, k, d, t);
    case Exchange(_, _) => ExchangeTurn(roots, k, d, t);
    case Other(dir, flag, name) => OtherTurn(roots, k, d, t);
  }

  lemma RemoveTurn(roots: set<string>, k: Kernel, d: Daemon, t: Turn)
    requires InSync(roots, k, d) && Proper(roots, k, t) && t.op.Remove?
    ensures AllLegal(EventsOf(roots, k, t.op, t.dirBit, t.cookie))
    ensures Settled(roots, KernelAfter(roots, k, t), Handled(roots, k, d, t))
  {
    RemoveSettles(roots, k, d, t.op.at, t.dirBit, Constant(t.a));
  }

  lemma OtherTurn(roots: set<string>, k: Kernel, d: Daemon, t: Turn)
    requires InSync(roots, k, d) && Proper(roots, k, t) && t.op.Other?
    ensures AllLegal(EventsOf(roots, k, t.op, t.dirBit, t.cookie))
    ensures Settled(roots, KernelAfter(roots, k, t), Handled(roots, k, d, t))
  {
    OtherSettles(roots, k, d, t.op.dir, t.op.flag, t.op.name, t.cookie, Constant(t.a));
  }

  // ----------------------------------------------------------- every run

  /** Every operation is possible where it comes. */
  ghost predicate ProperRun(roots: set<string>, k: Kernel, turns: seq<Turn>)
    decreases turns
  {
    turns == [] || (Proper(roots, k, turns[0]) && ProperRun(roots, KernelAfter(roots, k, turns[0]), turns[1..]))
  }

  /** None of them is one of those that fail. */
  ghost predicate Harmless(roots: set<string>, k: Kernel, turns: seq<Turn>)
    requires ProperRun(roots, k, turns)
    decreases turns
  {
    turns == [] ||
    (!Fails(k, turns[0].op) && Harmless(roots, KernelAfter(roots, k, turns[0]), turns[1..]))
  }

  /** Cache and trees agree at the start and whenever the events of an operation
      have been handled, to the end of the run or until the program exits. */
  ghost predicate StaysInSync(roots: set<string>, k: Kernel, d: Daemon, turns: seq<Turn>)
    requires ProperRun(roots, k, turns)
    decreases turns
  {
    InSync(roots, k, d) &&
    (turns == [] ||
     (AllLegal(EventsOf(roots, k, turns[0].op, turns[0].dirBit, turns[0].cookie)) &&
      match Handled(roots, k, d, turns[0])
      case Gone => true
      case Alive(e, _) => StaysInSync(roots, KernelAfter(roots, k, turns[0]), e, turns[1..])))
  }

  lemma {:induction false} NothingLeftToFail(roots: set<string>, k: Kernel, turns: seq<Turn>)
    requires k.dirs == map[] && ProperRun(roots, k, turns)
    ensures turns == []
  {
  }

  /** Over every sequence of operations: agreement is kept all along if and only if
      no operation is one of those that fail. */
  lemma {:induction false} QuietRunStaysInSync(roots: set<string>, k: Kernel, d: Daemon, turns: seq<Turn>)
    requires InSync(roots, k, d) && ProperRun(roots, k, turns)
    ensures StaysInSync(roots, k, d, turns) <==> Harmless(roots, k, turns)
    decreases turns
  {
    if turns != [] {
      var t := turns[0];
      TurnSettles(roots, k, d, t);
      var k' := KernelAfter(roots, k, t);
      match Handled(roots, k, d, t)
      case Gone =>
        NothingLeftToFail(roots, k', turns[1..]);
      case Alive(e, _) =>
        if !Fails(k, t.op) {
          QuietRunStaysInSync(roots, k', e, turns[1..]);
        }
    }
  }
}
