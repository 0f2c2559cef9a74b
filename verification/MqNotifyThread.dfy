/** Message notification through threads: register again, then drain the queue. */
module MqNotifyThread {
  import opened Messages

  /** Where a thread is: about to register, draining, or finished (the main
      thread pauses then). */
  datatype Place = Setup | Drain | Done

  /** threads[0] is the main thread. failed is the exit when a registration is
      refused because there is one already. */
  datatype State = State(threads: seq<Place>, registered: bool, queue: seq<Message>, sent: seq<Message>,
                         received: seq<Message>, failed: bool)

  datatype Action = Send(message: Message) | Notify(thread: nat) | Receive(thread: nat)

  const START := State([Setup], false, [], [], [], false)

  predicate Enabled(s: State, a: Action) {
    && !s.failed
    && match a
       case Send(_) => true
       case Notify(t) => t < |s.threads| && s.threads[t] == Setup
       case Receive(t) => t < |s.threads| && s.threads[t] == Drain
  }

  /** A message that arrives on an empty queue uses the registration up and starts
      a thread. Receiving from an empty queue ends the thread's loop. */
  function Step(s: State, a: Action): State
    requires Enabled(s, a)
  {
    match a
    case Send(m) =>
      var t := s.(queue := Queued(s.queue, m), sent := s.sent + [m]);
      if s.queue == [] && s.registered then t.(registered := false, threads := s.threads + [Setup]) else t
    case Notify(t) =>
      if s.registered then s.(failed := true)
      else s.(registered := true, threads := s.threads[t := Drain])
    case Receive(t) =>
      if s.queue == [] then s.(threads := s.threads[t := Done])
      else s.(queue := s.queue[1..], received := s.received + [s.queue[0]])
  }

  /** Any interleaving, from a queue that may already hold messages. */
  ghost predicate Run(before: seq<Message>, actions: seq<Action>, s: State) {
    if actions == [] then Ordered(before) && s == START.(queue := before, sent := before)
    else
      var init, last := actions[..|actions| - 1], actions[|actions| - 1];
      exists r :: Run(before, init, r) && Leads(r, last, s)
  }

  ghost predicate Leads(r: State, a: Action, s: State) {
    Enabled(r, a) && s == Step(r, a)
  }

  /** Exactly one of: the registration, or a thread still to register. */
  ghost predicate OneToken(s: State) {
    multiset(s.threads)[Setup] + (if s.registered then 1 else 0) == 1
  }

  ghost predicate Inv(s: State) {
    && !s.failed && |s.threads| > 0
    && OneToken(s)
    && (s.registered && s.queue != [] ==> Drain in s.threads)
    && multiset(s.sent) == multiset(s.queue) + multiset(s.received)
    && Ordered(s.queue) && InOrder(s.sent, s.received, s.queue)
  }

  lemma SetupIsTheToken(s: State, t: nat)
    requires OneToken(s) && t < |s.threads| && s.threads[t] == Setup
    ensures !s.registered && multiset(s.threads[t := Drain])[Setup] == 0
  {
    assert s.threads[t] in multiset(s.threads);
  }

  lemma SendKeeps(s: State, m: Message)
    requires Inv(s) && !s.failed
    ensures Inv(Step(s, Send(m)))
  {
    QueuedMeans(s.queue, m);
    SendingKeepsOrder(s.sent, s.received, s.queue, m);
    hide InOrder, Queued;
    assert s.queue == [] ==> multiset(s.threads + [Setup]) == multiset(s.threads) + multiset{Setup};
    assert multiset(s.sent + [m]) == multiset(s.sent) + multiset{m};
  }

  lemma NotifyKeeps(s: State, t: nat)
    requires Inv(s) && Enabled(s, Notify(t))
    ensures Inv(Step(s, Notify(t)))
  {
    SetupIsTheToken(s, t);
    assert s.threads[t := Drain][t] == Drain;
  }

  lemma ReceiveKeeps(s: State, t: nat)
    requires Inv(s) && Enabled(s, Receive(t))
    ensures Inv(Step(s, Receive(t)))
  {
    hide InOrder;
    if s.queue != [] {
      ReceivingKeepsOrder(s.sent, s.received, s.queue);
      assert s.queue == [s.queue[0]] + s.queue[1..];
      assert s.threads[t] in s.threads;
    } else {
      assert multiset(s.threads[t := Done]) == multiset(s.threads) - multiset{Drain} + multiset{Done};
    }
  }

  lemma StepKeeps(s: State, a: Action)
    requires Inv(s) && Enabled(s, a)
    ensures Inv(Step(s, a))
  {
    hide Inv, Step;
    match a
    case Send(m) => SendKeeps(s, m);
    case Notify(t) => NotifyKeeps(s, t);
    case Receive(t) => ReceiveKeeps(s, t);
  }

  /** Whichever thread receives, it gets the oldest message of the highest priority. */
  lemma ReceivesTheNext(s: State, t: nat)
    requires Inv(s) && Enabled(s, Receive(t)) && s.queue != []
    ensures exists m :: IsNext(s.queue, m) && Step(s, Receive(t)).received == s.received + [m]
  {
    HeadIsNext(s.queue);
  }

  lemma {:induction false} RunKeeps(before: seq<Message>, actions: seq<Action>, s: State)
    requires Run(before, actions, s)
    ensures Inv(s)
  {
    if actions == [] {
      assert multiset([Setup])[Setup] == 1;
    } else {
      var init, last := actions[..|actions| - 1], actions[|actions| - 1];
      var r :| Run(before, init, r) && Leads(r, last, s);
      RunKeeps(before, init, r);
      StepKeeps(r, last);
    }
  }

  /** In every run, with any number of threads, no registration is ever refused,
      every message is in the queue or was received once, and a queue that is not
      empty has a thread that has still to look at it. */
  lemma {:induction false} NoMessageIsForgotten(before: seq<Message>, actions: seq<Action>, s: State)
    requires Run(before, actions, s)
    ensures !s.failed && (Setup in s.threads ==> !s.registered)
    ensures multiset(s.sent) == multiset(s.queue) + multiset(s.received)
    ensures InOrder(s.sent, s.received, s.queue)
    ensures s.queue != [] ==> Setup in s.threads || Drain in s.threads
    ensures !s.registered ==> Setup in s.threads
  {
    RunKeeps(before, actions, s);
    if Setup in s.threads {
      var t :| 0 <= t < |s.threads| && s.threads[t] == Setup;
      SetupIsTheToken(s, t);
    }
    assert Setup in multiset(s.threads) <==> Setup in s.threads;
  }

  /** What the threads have left to do if nothing more is sent. */
  function Work(s: State): nat {
    |s.queue| + 2 * multiset(s.threads)[Setup] + multiset(s.threads)[Drain]
  }

  lemma WorkShrinks(s: State, a: Action)
    requires Inv(s) && Enabled(s, a) && !a.Send?
    ensures Work(Step(s, a)) < Work(s)
  {
    var t := a.thread;
    assert s.threads[t] in multiset(s.threads);
    if a.Notify? {
      SetupIsTheToken(s, t);
    }
  }

  ghost predicate Quiet(s: State) {
    forall a | Enabled(s, a) :: a.Send?
  }

  /** So once sending stops the threads come to rest, whatever their order, and
      then every message has been received and the registration is in place. */
  lemma {:induction false} RestMeansAllReceived(before: seq<Message>, actions: seq<Action>, s: State)
    requires Run(before, actions, s) && Quiet(s)
    ensures s.queue == [] && s.registered && multiset(s.received) == multiset(s.sent)
    ensures forall t | t in s.threads :: t == Done
  {
    NoMessageIsForgotten(before, actions, s);
    forall t | 0 <= t < |s.threads| ensures s.threads[t] == Done {
      assert !Enabled(s, Notify(t)) && !Enabled(s, Receive(t));
    }
  }

  /** A stretch of a run without further messages. */
  ghost predicate Continues(s: State, actions: seq<Action>, t: State)
    decreases |actions|
  {
    if actions == [] then t == s
    else Enabled(s, actions[0]) && !actions[0].Send? && Continues(Step(s, actions[0]), actions[1..], t)
  }

  lemma {:induction false} ThreadsComeToRest(s: State, actions: seq<Action>, t: State)
    requires Inv(s) && Continues(s, actions, t)
    decreases |actions|
    ensures |actions| <= Work(s) && (|actions| == Work(s) ==> Quiet(t))
  {
    if actions != [] {
      WorkShrinks(s, actions[0]);
      StepKeeps(s, actions[0]);
      ThreadsComeToRest(Step(s, actions[0]), actions[1..], t);
    } else if Work(s) == 0 {
      forall t | 0 <= t < |s.threads| ensures s.threads[t] == Done {
        assert s.threads[t] in multiset(s.threads);
      }
    }
  }
}
