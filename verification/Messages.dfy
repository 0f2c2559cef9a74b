/** A message queue: the oldest message of the highest priority is received first. */
module Messages {
  datatype Message = Message(priority: nat, number: nat)

  ghost predicate Ordered(queue: seq<Message>) {
    forall i, j | 0 <= i < j < |queue| :: queue[i].priority >= queue[j].priority
  }

  function Queued(queue: seq<Message>, m: Message): (longer: seq<Message>)
    ensures |longer| == |queue| + 1
  {
    if queue == [] || queue[|queue| - 1].priority >= m.priority then queue + [m]
    else Queued(queue[..|queue| - 1], m) + [queue[|queue| - 1]]
  }

  lemma {:induction false} QueuedMeans(queue: seq<Message>, m: Message)
    ensures multiset(Queued(queue, m)) == multiset(queue) + multiset{m}
    ensures Ordered(queue) ==> Ordered(Queued(queue, m))
    ensures forall x | x in Queued(queue, m) :: x in queue || x == m
  {
    if queue != [] && queue[|queue| - 1].priority < m.priority {
      var front, last := queue[..|queue| - 1], queue[|queue| - 1];
      assert queue == front + [last];
      QueuedMeans(front, m);
      var longer := Queued(front, m);
      if Ordered(queue) {
        forall i | 0 <= i < |longer| ensures longer[i].priority >= last.priority {
          assert longer[i] in longer;
        }
      }
    }
  }

  /** The messages of one priority, in order. */
  function OfPriority(ms: seq<Message>, p: nat): seq<Message> {
    if ms == [] then []
    else
      var last := ms[|ms| - 1];
      OfPriority(ms[..|ms| - 1], p) + if last.priority == p then [last] else []
  }

  lemma {:induction false} OfPrioritySnoc(ms: seq<Message>, m: Message, p: nat)
    ensures OfPriority(ms + [m], p) == OfPriority(ms, p) + if m.priority == p then [m] else []
  {
    assert (ms + [m])[..|ms|] == ms;
  }

  lemma {:induction false} OfPriorityConcat(a: seq<Message>, b: seq<Message>, p: nat)
    ensures OfPriority(a + b, p) == OfPriority(a, p) + OfPriority(b, p)
  {
    if b == [] {
      assert a + b == a;
    } else {
      assert (a + b)[..|a + b| - 1] == a + b[..|b| - 1];
      OfPriorityConcat(a, b[..|b| - 1], p);
    }
  }

  lemma {:induction false} OfPriorityHead(ms: seq<Message>, p: nat)
    requires ms != []
    ensures OfPriority(ms, p) == (if ms[0].priority == p then [ms[0]] else []) + OfPriority(ms[1..], p)
  {
    assert ms == [ms[0]] + ms[1..] && [ms[0]][..0] == [];
    OfPriorityConcat([ms[0]], ms[1..], p);
  }

  /** A message comes behind those of its priority, and the others keep their order. */
  lemma {:induction false} QueuedKeepsOrder(queue: seq<Message>, m: Message, p: nat)
    ensures OfPriority(Queued(queue, m), p) == OfPriority(queue, p) + if m.priority == p then [m] else []
  {
    if queue == [] || queue[|queue| - 1].priority >= m.priority {
      OfPrioritySnoc(queue, m, p);
    } else {
      var front, last := queue[..|queue| - 1], queue[|queue| - 1];
      QueuedKeepsOrder(front, m, p);
      OfPrioritySnoc(Queued(front, m), last, p);
    }
  }

  /** The messages of each priority are received in the order they were sent. */
  ghost predicate InOrder(sent: seq<Message>, received: seq<Message>, queue: seq<Message>) {
    forall p :: OfPriority(sent, p) == OfPriority(received, p) + OfPriority(queue, p)
  }

  lemma {:induction false} SendingKeepsOrder(sent: seq<Message>, received: seq<Message>, queue: seq<Message>,
      m: Message)
    requires InOrder(sent, received, queue)
    ensures InOrder(sent + [m], received, Queued(queue, m))
  {
    forall p ensures OfPriority(sent + [m], p) == OfPriority(received, p) + OfPriority(Queued(queue, m), p) {
      OfPrioritySnoc(sent, m, p);
      QueuedKeepsOrder(queue, m, p);
    }
  }

  lemma ReceivingKeepsOrder(sent: seq<Message>, received: seq<Message>, queue: seq<Message>)
    requires InOrder(sent, received, queue) && queue != []
    ensures InOrder(sent, received + [queue[0]], queue[1..])
  {
    forall p ensures OfPriority(sent, p) == OfPriority(received + [queue[0]], p) + OfPriority(queue[1..], p) {
      OfPrioritySnoc(received, queue[0], p);
      OfPriorityHead(queue, p);
      hide OfPriority;
      var own := if queue[0].priority == p then [queue[0]] else [];
      assert OfPriority(received, p) + (own + OfPriority(queue[1..], p))
          == OfPriority(received, p) + own + OfPriority(queue[1..], p);
    }
  }

  /** m is the message to receive: no other has a higher priority, and of its own
      it is the oldest. */
  ghost predicate IsNext(queue: seq<Message>, m: Message) {
    m in queue && (forall x | x in queue :: x.priority <= m.priority)
    && OfPriority(queue, m.priority) != [] && OfPriority(queue, m.priority)[0] == m
  }

  lemma {:induction false} HeadIsNext(queue: seq<Message>)
    requires Ordered(queue) && queue != []
    ensures IsNext(queue, queue[0])
  {
    var m := queue[0];
    OfPriorityHead(queue, m.priority);
  }
}
