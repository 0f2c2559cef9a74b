/** Message notification through a signal that sets a flag. */
module MqNotifySignal {
  import opened Messages

  /** Where the loop is: at the test of the flag, about to clear it, about to
      register, draining, or at its other work. */
  datatype Place = Test | Clear | Register | Drain | Sleep

  datatype State = State(place: Place, gotSig: bool, pending: bool, registered: bool, queue: seq<Message>,
                         sent: seq<Message>, received: seq<Message>, failed: bool)

  /** The handler may run at any point at which the signal is pending. */
  datatype Action = Send(message: Message) | Handler | Advance

  const START := State(Test, true, false, false, [], [], [], false)

  predicate Enabled(s: State, a: Action) {
    !s.failed && (a.Handler? ==> s.pending)
  }

  /** Advance is the loop's next step; receiving from an empty queue ends the
      draining. */
  function Step(s: State, a: Action): State
    requires Enabled(s, a)
  {
    match a
    case Send(m) =>
      var t := s.(queue := Queued(s.queue, m), sent := s.sent + [m]);
      if s.queue == [] && s.registered then t.(registered := false, pending := true) else t
    case Handler => s.(gotSig := true, pending := false)
    case Advance =>
      match s.place
      case Test => s.(place := if s.gotSig then Clear else Sleep)
      case Clear => s.(gotSig := false, place := Register)
      case Register => if s.registered then s.(failed := true) else s.(registered := true, place := Drain)
      case Drain =>
        if s.queue == [] then s.(place := Sleep)
        else s.(queue := s.queue[1..], received := s.received + [s.queue[0]])
      case Sleep => s.(place := Test)
  }

  ghost predicate Run(before: seq<Message>, actions: seq<Action>, s: State) {
    if actions == [] then Ordered(before) && s == START.(queue := before, sent := before)
    else
      var init, last := actions[..|actions| - 1], actions[|actions| - 1];
      exists r :: Run(before, init, r) && Leads(r, last, s)
  }

  ghost predicate Leads(r: State, a: Action, s: State) {
    Enabled(r, a) && s == Step(r, a)
  }

  function One(b: bool): nat { if b then 1 else 0 }

  /** The registration, the pending signal, the flag and the registration due are
      one token that goes round; the flag seen set is still set when it is cleared. */
  ghost predicate Inv(s: State) {
    && !s.failed
    && One(s.registered) + One(s.pending) + One(s.gotSig) + One(s.place == Register) == 1
    && (s.place == Clear ==> s.gotSig)
    && (s.registered && s.queue != [] ==> s.place == Drain)
    && multiset(s.sent) == multiset(s.queue) + multiset(s.received)
    && Ordered(s.queue) && InOrder(s.sent, s.received, s.queue)
  }

  lemma SendKeeps(s: State, m: Message)
    requires Inv(s)
    ensures Inv(Step(s, Send(m)))
  {
    QueuedMeans(s.queue, m);
    SendingKeepsOrder(s.sent, s.received, s.queue, m);
    hide InOrder, Queued, Ordered;
  }

  lemma AdvanceKeeps(s: State)
    requires Inv(s) && Enabled(s, Advance)
    ensures Inv(Step(s, Advance))
  {
    hide InOrder;
    if s.place == Drain && s.queue != [] {
      ReceivingKeepsOrder(s.sent, s.received, s.queue);
      assert s.queue == [s.queue[0]] + s.queue[1..];
    } else {
      hide Ordered;
    }
  }

  lemma StepKeeps(s: State, a: Action)
    requires Inv(s) && Enabled(s, a)
    ensures Inv(Step(s, a))
  {
    match a
    case Send(m) => SendKeeps(s, m);
    case Advance => AdvanceKeeps(s);
    case Handler =>
  }

  /** The loop receives the oldest message of the highest priority. */
  lemma ReceivesTheNext(s: State)
    requires Inv(s) && Enabled(s, Advance) && s.place == Drain && s.queue != []
    ensures exists m :: IsNext(s.queue, m) && Step(s, Advance).received == s.received + [m]
  {
    HeadIsNext(s.queue);
  }

  lemma {:induction false} RunKeeps(before: seq<Message>, actions: seq<Action>, s: State)
    requires Run(before, actions, s)
    ensures Inv(s)
  {
    if actions != [] {
      var init, last := actions[..|actions| - 1], actions[|actions| - 1];
      var r :| Run(before, init, r) && Leads(r, last, s);
      RunKeeps(before, init, r);
      StepKeeps(r, last);
    }
  }

  /** In every run no registration is refused, every message is in the queue or
      was received once, and when the loop is at rest with messages in the queue a
      signal is pending or noted, so the next round will drain it. */
  lemma {:induction false} IdleMeansNoted(before: seq<Message>, actions: seq<Action>, s: State)
    requires Run(before, actions, s)
    ensures !s.failed && (s.place == Register ==> !s.registered)
    ensures multiset(s.sent) == multiset(s.queue) + multiset(s.received)
    ensures InOrder(s.sent, s.received, s.queue)
    ensures s.queue != [] && s.place in {Sleep, Test, Clear} ==> s.pending || s.gotSig
    ensures s.gotSig || s.pending ==> !s.registered
  {
    RunKeeps(before, actions, s);
  }

  /** The steps of the loop until the queue has been drained, nothing being sent. */
  function Advances(n: nat): seq<Action> {
    seq(n, _ => Advance)
  }

  /** From the test of a noted signal, the loop by itself registers and receives
      every message that is queued, in order. */
  lemma {:induction false} NotedMeansDrained(s: State, n: nat)
    requires Inv(s) && s.place == Test && s.gotSig && n == |s.queue|
    ensures exists t :: After(s, Advances(4 + n), t)
                     && t.queue == [] && t.received == s.received + s.queue && t.registered && t.place == Sleep
  {
    var seen, due := s.(place := Clear), s.(gotSig := false, place := Register);
    var registered := due.(registered := true, place := Drain);
    Draining(registered, n);
    var t := registered.(queue := [], received := s.received + s.queue, place := Sleep);
    StepComes(due, Advance, Advances(n + 1), t);
    StepComes(seen, Advance, [Advance] + Advances(n + 1), t);
    StepComes(s, Advance, [Advance] + ([Advance] + Advances(n + 1)), t);
    assert Advances(4 + n) == [Advance] + ([Advance] + ([Advance] + Advances(n + 1)));
  }

  ghost predicate After(s: State, actions: seq<Action>, t: State)
    decreases |actions|
  {
    if actions == [] then t == s
    else Enabled(s, actions[0]) && After(Step(s, actions[0]), actions[1..], t)
  }

  lemma {:induction false} Draining(s: State, n: nat)
    requires !s.failed && s.place == Drain && n == |s.queue|
    decreases n
    ensures After(s, Advances(n + 1), s.(queue := [], received := s.received + s.queue, place := Sleep))
  {
    assert Advances(n + 1)[1..] == Advances(n);
    if n == 0 {
      assert s.received + s.queue == s.received;
    } else {
      var next := Step(s, Advance);
      Draining(next, n - 1);
      assert next.received + next.queue == s.received + s.queue;
    }
  }

  // -------------------------------------------- the signal from elsewhere

  lemma {:induction false} StepComes(s: State, a: Action, actions: seq<Action>, t: State)
    requires Enabled(s, a) && After(Step(s, a), actions, t)
    ensures After(s, [a] + actions, t)
  {
    assert ([a] + actions)[1..] == actions;
  }

  lemma {:induction false} AfterJoins(s: State, first: seq<Action>, r: State, second: seq<Action>, t: State)
    requires After(s, first, r) && After(r, second, t)
    ensures After(s, first + second, t)
    decreases |first|
  {
    if first == [] {
      assert first + second == second;
    } else {
      AfterJoins(Step(s, first[0]), first[1..], r, second, t);
      StepComes(s, first[0], first[1..] + second, t);
      assert first + second == [first[0]] + (first[1..] + second);
    }
  }

  /** Registered with the flag set, the loop comes round to a second registration. */
  lemma RegistersTwice(s: State) returns (actions: seq<Action>, t: State)
    requires !s.failed && s.registered && s.gotSig && s.place != Register
    ensures After(s, actions, t) && t.failed
    decreases match s.place case Drain => 3 case Sleep => 2 case Test => 1 case _ => 0
  {
    match s.place
    case Clear =>
      var due := Step(s, Advance);
      t := Step(due, Advance);
      assert After(t, [], t);
      StepComes(due, Advance, [], t);
      StepComes(s, Advance, [Advance] + [], t);
      actions := [Advance] + ([Advance] + []);
    case Test | Sleep =>
      actions, t := RegistersTwice(Step(s, Advance));
      StepComes(s, Advance, actions, t);
      actions := [Advance] + actions;
    case Drain =>
      Draining(s, |s.queue|);
      var r := s.(queue := [], received := s.received + s.queue, place := Sleep);
      actions, t := RegistersTwice(r);
      AfterJoins(s, Advances(|s.queue| + 1), r, actions, t);
      actions := Advances(|s.queue| + 1) + actions;
  }

  /** The handler runs for the signal from elsewhere while a registration is in
      place. */
  lemma StrayWhileRegistered(s: State) returns (actions: seq<Action>, t: State)
    requires !s.failed && s.registered && s.pending && s.place != Register
    ensures After(s, actions, t) && t.failed
  {
    actions, t := RegistersTwice(Step(s, Handler));
    StepComes(s, Handler, actions, t);
    actions := [Handler] + actions;
  }

  lemma StrayBeforeRegistration(s: State) returns (actions: seq<Action>, t: State)
    requires !s.failed && !s.registered && s.pending && s.place == Register
    ensures After(s, actions, t) && t.failed
  {
    actions, t := StrayWhileRegistered(Step(s, Advance));
    StepComes(s, Advance, actions, t);
    actions := [Advance] + actions;
  }

  /** The flag is set already; the signal is taken after the next registration. */
  lemma StrayWhileNoted(s: State) returns (actions: seq<Action>, t: State)
    requires !s.failed && !s.registered && s.pending && s.gotSig && s.place != Register
    ensures After(s, actions, t) && t.failed
    decreases match s.place case Drain => 3 case Sleep => 2 case Test => 1 case _ => 0
  {
    match s.place
    case Clear =>
      actions, t := StrayBeforeRegistration(Step(s, Advance));
      StepComes(s, Advance, actions, t);
      actions := [Advance] + actions;
    case Test | Sleep =>
      actions, t := StrayWhileNoted(Step(s, Advance));
      StepComes(s, Advance, actions, t);
      actions := [Advance] + actions;
    case Drain =>
      Draining(s, |s.queue|);
      var r := s.(queue := [], received := s.received + s.queue, place := Sleep);
      actions, t := StrayWhileNoted(r);
      AfterJoins(s, Advances(|s.queue| + 1), r, actions, t);
      actions := Advances(|s.queue| + 1) + actions;
  }

  lemma {:induction false} InvLasts(s: State, actions: seq<Action>, t: State)
    requires Inv(s) && After(s, actions, t)
    ensures Inv(t)
    decreases |actions|
  {
    if actions != [] {
      StepKeeps(s, actions[0]);
      InvLasts(Step(s, actions[0]), actions[1..], t);
    }
  }

  ghost predicate NeverFails(s: State) {
    forall actions, t | After(s, actions, t) :: !t.failed
  }

  /** The guarantee is about the notification signal only. One more from elsewhere
      is harmless, in every continuation, if and only if it coincides with one
      that is pending already; otherwise some continuation ends in a registration
      that is refused. */
  lemma StraySignalHarmlessIff(s: State)
    requires Inv(s)
    ensures NeverFails(s.(pending := true)) <==> s.pending
  {
    var stray := s.(pending := true);
    if s.pending {
      assert stray == s;
      forall actions, t | After(stray, actions, t) ensures !t.failed {
        InvLasts(s, actions, t);
      }
    } else {
      var actions, t;
      if s.registered {
        actions, t := StrayWhileRegistered(stray);
      } else if s.gotSig {
        actions, t := StrayWhileNoted(stray);
      } else {
        actions, t := StrayBeforeRegistration(stray);
      }
      assert !NeverFails(stray);
    }
  }
}
