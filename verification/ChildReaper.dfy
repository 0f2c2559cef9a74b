/** Reaping children from a SIGCHLD handler while signals coalesce. */
module ChildReaper {
  /** Where the parent is: creating children, at the loop's test, in sigsuspend(),
      in the handler's loop of waits, in the rest of the handler, or finished.
      SIGCHLD is blocked except in sigsuspend(). */
  datatype Place = Forking | Test | Suspended | Reaping | Returning | Finished

  /** Children are counted by what they are: not created yet, running, or dead
      and not waited for. However many died, SIGCHLD is pending or it is not. */
  datatype State = State(place: Place, notForked: nat, running: nat, zombies: nat, pending: bool,
                         numLiveChildren: int, sigCnt: nat, reaped: nat, stops: nat)

  /** Advance is the parent's next step. Stop is a child being stopped or
      continued, which raises SIGCHLD too. */
  datatype Action = Advance | Exit | Stop

  function Start(children: nat): State {
    State(Forking, children, 0, 0, false, children, 0, 0, 0)
  }

  predicate Enabled(s: State, a: Action) {
    match a
    case Exit => s.running > 0
    case Stop => s.running > 0
    case Advance => s.place != Finished && (s.place == Suspended ==> s.pending)
  }

  function Step(s: State, a: Action): State
    requires Enabled(s, a)
  {
    match a
    case Exit => s.(running := s.running - 1, zombies := s.zombies + 1, pending := true)
    case Stop => s.(pending := true, stops := s.stops + 1)
    case Advance =>
      match s.place
      case Forking =>
        if s.notForked > 0 then s.(notForked := s.notForked - 1, running := s.running + 1)
        else s.(place := Test)
      case Test => s.(place := if s.numLiveChildren > 0 then Suspended else Finished)
      case Suspended => s.(pending := false, place := Reaping)
      case Reaping =>
        if s.zombies > 0 then
          s.(zombies := s.zombies - 1, numLiveChildren := s.numLiveChildren - 1, reaped := s.reaped + 1)
        else s.(place := Returning)
      case Returning => s.(sigCnt := s.sigCnt + 1, place := Test)
  }

  ghost predicate Run(children: nat, actions: seq<Action>, s: State) {
    if actions == [] then s == Start(children)
    else
      var init, last := actions[..|actions| - 1], actions[|actions| - 1];
      exists r :: Run(children, init, r) && Leads(r, last, s)
  }

  ghost predicate Leads(r: State, a: Action, s: State) {
    Enabled(r, a) && s == Step(r, a)
  }

  ghost predicate Inv(children: nat, s: State) {
    && s.numLiveChildren == s.notForked + s.running + s.zombies
    && s.numLiveChildren + s.reaped == children
    && (s.zombies > 0 ==> s.pending || s.place == Reaping)
    && (s.place != Forking ==> s.notForked == 0)
    && (s.place == Suspended ==> s.numLiveChildren > 0)
    && (s.place == Finished ==> s.numLiveChildren == 0)
    && s.sigCnt + (if s.pending then 1 else 0) + (if s.place in {Reaping, Returning} then 1 else 0)
       <= s.zombies + s.reaped + s.stops
    && (s.reaped > 0 ==> s.sigCnt > 0 || s.place in {Reaping, Returning})
  }

  lemma StepKeeps(children: nat, s: State, a: Action)
    requires Inv(children, s) && Enabled(s, a)
    ensures Inv(children, Step(s, a))
  {
  }

  lemma {:induction false} RunKeeps(children: nat, actions: seq<Action>, s: State)
    requires Run(children, actions, s)
    ensures Inv(children, s)
  {
    if actions != [] {
      var init, last := actions[..|actions| - 1], actions[|actions| - 1];
      var r :| Run(children, init, r) && Leads(r, last, s);
      RunKeeps(children, init, r);
      StepKeeps(children, r, last);
    }
  }

  /** In every run the counter is the number of children not yet waited for, and
      the parent never waits for a signal that need not come: a child runs, or
      SIGCHLD is pending. */
  lemma {:induction false} NeverWaitsInVain(children: nat, actions: seq<Action>, s: State)
    requires Run(children, actions, s)
    ensures s.numLiveChildren == s.notForked + s.running + s.zombies == children - s.reaped
    ensures s.place == Suspended ==> s.pending || (s.running > 0 && s.zombies == 0)
    ensures s.zombies > 0 ==> s.pending || s.place == Reaping
    ensures s.place == Finished ==> s.reaped == children
  {
    RunKeeps(children, actions, s);
  }

  /** SIGCHLD is caught at most once for each death (and each stop), and at least
      once if there are children. */
  lemma {:induction false} SignalsCaught(children: nat, actions: seq<Action>, s: State)
    requires Run(children, actions, s) && s.place == Finished
    ensures (if children > 0 then 1 else 0) <= s.sigCnt <= children + s.stops
  {
    RunKeeps(children, actions, s);
  }

  // ------------------------------------------------------------ termination

  function Rank(p: Place): nat {
    match p
    case Forking => 5
    case Reaping => 4
    case Returning => 3
    case Test => 2
    case Suspended => 1
    case Finished => 0
  }

  function Work(s: State): nat {
    7 * s.notForked + 6 * s.running + s.zombies + (if s.pending then 4 else 0) + Rank(s.place)
  }

  /** Every step but a stop brings the end nearer. */
  lemma WorkShrinks(s: State, a: Action)
    requires Enabled(s, a)
    ensures Work(Step(s, a)) <= Work(s) + if a.Stop? then 4 else -1
  {
  }

  ghost function Stops(actions: seq<Action>): nat {
    if actions == [] then 0
    else Stops(actions[..|actions| - 1]) + if actions[|actions| - 1].Stop? then 1 else 0
  }

  /** So runs are bounded, and one that can go no further has reaped every child. */
  lemma {:induction false} RunsEnd(children: nat, actions: seq<Action>, s: State)
    requires Run(children, actions, s)
    ensures |actions| + Work(s) <= 7 * children + 5 + 5 * Stops(actions)
    ensures (forall a | Enabled(s, a) :: a.Stop?) ==> s.place == Finished && s.reaped == children
  {
    RunKeeps(children, actions, s);
    if s.place != Finished || s.running > 0 {
      assert Enabled(s, Exit) || Enabled(s, Advance);
    }
    if actions != [] {
      var init, last := actions[..|actions| - 1], actions[|actions| - 1];
      var r :| Run(children, init, r) && Leads(r, last, s);
      RunsEnd(children, init, r);
      WorkShrinks(r, last);
    }
  }
}
