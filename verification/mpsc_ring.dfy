/** The multi-producer single-consumer ring, as a step machine: one step is one atomic load,
    compare-exchange or store, or one construction or move of a slot's element. Any number of
    producers run against one consumer. */
module MpscRing {
  import opened Options
  import opened Numbers
  import opened RingPositions

  /** Where a producer stands inside `try_push`, with its locals. */
  datatype Producer<T> =
    | LoadHead(item: T)
    | LoadTail(item: T, head: nat)
    | CasTail(item: T, head: nat, tail: nat)
    | Construct(item: T, ticket: nat)
    | SetReady(ticket: nat)

  /** Where the consumer stands inside `try_pop`, with its locals. */
  datatype Consumer<T> =
    | Idle
    | LoadReady(head: nat)
    | Take(head: nat)
    | ClearReady(head: nat, got: Option<T>)
    | StoreHead(head: nat, got: Option<T>)

  /** A slot is `None` while it holds no constructed element. The last four fields are history:
      the item of each ticket, the values returned in order, the ticket each slot serves, and
      whether an element was ever constructed over a live one. */
  datatype State<T> = State(
    head: nat,
    tail: nat,
    ready: seq<bool>,
    slots: seq<Option<T>>,
    producers: map<nat, Producer<T>>,
    consumer: Consumer<T>,
    pushed: seq<T>,
    popped: seq<Option<T>>,
    turn: seq<nat>,
    overwritten: bool)

  datatype Choice<T> =
    | CallPush(thread: nat, item: T)
    | Produce(thread: nat, spurious: bool)
    | Consume

  function Initial<T>(capacity: nat): State<T> {
    State(0, 0, seq(capacity, i => false), seq(capacity, i => None), map[], Idle, [], [],
          seq(capacity, i requires i >= 0 => i), false)
  }

  predicate Shape<T>(capacity: nat, s: State<T>) {
    capacity > 0 && |s.ready| == |s.slots| == |s.turn| == capacity
  }

  function At<T>(s: State<T>, t: nat, pc: Producer<T>): State<T> {
    s.(producers := s.producers[t := pc])
  }

  /** The subtraction is unsigned: a tail below the head would read as a full ring. */
  function StepProducer<T>(capacity: nat, s: State<T>, t: nat, spurious: bool): (s': State<T>)
    requires Shape(capacity, s) && t in s.producers
    ensures Shape(capacity, s')
  {
    match s.producers[t]
    case LoadHead(item) => At(s, t, LoadTail(item, s.head))
    case LoadTail(item, head) =>
      if s.tail < head || s.tail - head >= capacity then s.(producers := s.producers - {t})
      else At(s, t, CasTail(item, head, s.tail))
    case CasTail(item, head, tail) =>
      if s.tail == tail && !spurious then
        At(s.(tail := tail + 1, pushed := s.pushed + [item]), t, Construct(item, tail))
      else At(s, t, LoadHead(item))
    case Construct(item, ticket) =>
      var i := Slot(capacity, ticket);
      At(s.(slots := s.slots[i := Some(item)], overwritten := s.overwritten || s.slots[i].Some?), t, SetReady(ticket))
    case SetReady(ticket) =>
      s.(ready := s.ready[Slot(capacity, ticket) := true], producers := s.producers - {t})
  }

  function StepConsumer<T>(capacity: nat, s: State<T>): (s': State<T>)
    requires Shape(capacity, s)
    ensures Shape(capacity, s')
  {
    match s.consumer
    case Idle => s.(consumer := LoadReady(s.head))
    case LoadReady(head) => s.(consumer := if s.ready[Slot(capacity, head)] then Take(head) else Idle)
    case Take(head) =>
      var i := Slot(capacity, head);
      s.(slots := s.slots[i := None], consumer := ClearReady(head, s.slots[i]))
    case ClearReady(head, got) =>
      s.(ready := s.ready[Slot(capacity, head) := false], consumer := StoreHead(head, got))
    case StoreHead(head, got) =>
      s.(head := head + 1, popped := s.popped + [got], consumer := Idle,
         turn := s.turn[Slot(capacity, head) := head + capacity])
  }

  function Apply<T>(capacity: nat, s: State<T>, c: Choice<T>): (s': State<T>)
    requires Shape(capacity, s)
    ensures Shape(capacity, s')
  {
    match c
    case CallPush(t, item) => if t in s.producers then s else At(s, t, LoadHead(item))
    case Produce(t, spurious) => if t in s.producers then StepProducer(capacity, s, t, spurious) else s
    case Consume => StepConsumer(capacity, s)
  }

  function Run<T>(capacity: nat, schedule: seq<Choice<T>>): (s: State<T>)
    requires capacity > 0
    ensures Shape(capacity, s)
    decreases |schedule|
  {
    if schedule == [] then Initial(capacity)
    else Apply(capacity, Run(capacity, schedule[..|schedule| - 1]), schedule[|schedule| - 1])
  }

  // ---------------------------------------------------------------------------
  // The invariant
  // ---------------------------------------------------------------------------

  predicate Owns<T>(pc: Producer<T>, ticket: nat) {
    (pc.Construct? || pc.SetReady?) && pc.ticket == ticket
  }

  ghost predicate Owned<T>(s: State<T>, ticket: nat) {
    exists t: nat :: t in s.producers && Owns(s.producers[t], ticket)
  }

  /** The consumer has taken the element of this ticket but not yet given the slot back. */
  predicate BeingConsumed<T>(s: State<T>, ticket: nat) {
    (s.consumer.ClearReady? || s.consumer.StoreHead?) && s.consumer.head == ticket
  }

  ghost predicate SlotOk<T>(capacity: nat, s: State<T>, i: nat)
    requires Shape(capacity, s) && i < capacity && |s.pushed| == s.tail
  {
    var p := s.turn[i];
    && Slot(capacity, p) == i && s.head <= p < s.head + capacity
    && (p >= s.tail ==> !s.ready[i] && s.slots[i] == None)
    && (p < s.tail && s.ready[i] && !BeingConsumed(s, p) ==> s.slots[i] == Some(s.pushed[p]))
    && (p < s.tail && !s.ready[i] && !BeingConsumed(s, p) ==> Owned(s, p))
  }

  ghost predicate ProducerOk<T>(capacity: nat, s: State<T>, pc: Producer<T>)
    requires Shape(capacity, s) && |s.pushed| == s.tail
  {
    match pc
    case LoadHead(_) => true
    case LoadTail(_, head) => head <= s.head
    case CasTail(_, head, tail) => head <= s.head && head <= tail <= s.tail && tail - head < capacity
    case Construct(item, ticket) =>
      var i := Slot(capacity, ticket);
      s.head <= ticket < s.tail && s.turn[i] == ticket && !s.ready[i] && s.slots[i] == None && s.pushed[ticket] == item
    case SetReady(ticket) =>
      var i := Slot(capacity, ticket);
      s.head <= ticket < s.tail && s.turn[i] == ticket && !s.ready[i] && s.slots[i] == Some(s.pushed[ticket])
  }

  ghost predicate ConsumerOk<T>(capacity: nat, s: State<T>)
    requires Shape(capacity, s) && |s.pushed| == s.tail
  {
    match s.consumer
    case Idle => true
    case LoadReady(head) => head == s.head
    case Take(head) =>
      head == s.head < s.tail && s.ready[Slot(capacity, head)] && s.slots[Slot(capacity, head)] == Some(s.pushed[head])
    case ClearReady(head, got) =>
      && head == s.head < s.tail && s.ready[Slot(capacity, head)] && s.slots[Slot(capacity, head)] == None
      && got == Some(s.pushed[head]) && !Owned(s, head)
    case StoreHead(head, got) =>
      && head == s.head < s.tail && !s.ready[Slot(capacity, head)] && s.slots[Slot(capacity, head)] == None
      && got == Some(s.pushed[head]) && !Owned(s, head)
  }

  ghost predicate Inv<T>(capacity: nat, s: State<T>) {
    && Shape(capacity, s)
    && s.head <= s.tail <= s.head + capacity
    && |s.pushed| == s.tail
    && |s.popped| == s.head && (forall k: nat :: k < s.head ==> s.popped[k] == Some(s.pushed[k]))
    && !s.overwritten
    && (forall i: nat :: i < capacity ==> SlotOk(capacity, s, i))
    && (forall t: nat :: t in s.producers ==> ProducerOk(capacity, s, s.producers[t]))
    && (forall t: nat, u: nat, p: nat :: t in s.producers && u in s.producers && t != u
          ==> !(Owns(s.producers[t], p) && Owns(s.producers[u], p)))
    && ConsumerOk(capacity, s)
  }

  lemma InitialInv<T>(capacity: nat)
    requires capacity > 0
    ensures Inv(capacity, Initial<T>(capacity))
  {
    var s := Initial<T>(capacity);
    forall i: nat | i < capacity ensures SlotOk(capacity, s, i) {
      SmallRemainder(capacity, i);
    }
  }

  /** Within one lap the slot of a ticket serves that ticket. */
  lemma ServesTicket<T>(capacity: nat, s: State<T>, p: nat)
    requires Inv(capacity, s) && s.head <= p < s.head + capacity
    ensures s.turn[Slot(capacity, p)] == p && SlotOk(capacity, s, Slot(capacity, p))
  {
    var i := Slot(capacity, p);
    assert SlotOk(capacity, s, i);
    CongruentWithin(capacity, s.turn[i], p);
  }

  lemma OwnerIn<T>(s: State<T>, t: nat, p: nat)
    requires t in s.producers && Owns(s.producers[t], p)
    ensures Owned(s, p)
  {
  }

  lemma OwnersStay<T>(s: State<T>, s': State<T>, t: nat)
    requires s.producers - {t} == s'.producers - {t}
    ensures forall p: nat :: Owned(s, p) && !(t in s.producers && Owns(s.producers[t], p)) ==> Owned(s', p)
    ensures forall p: nat :: Owned(s', p) && !(t in s'.producers && Owns(s'.producers[t], p)) ==> Owned(s, p)
  {
    assert forall u: nat :: u in s.producers - {t} <==> u in s'.producers - {t};
    forall p: nat | Owned(s, p) && !(t in s.producers && Owns(s.producers[t], p)) ensures Owned(s', p) {
      var u: nat :| u in s.producers && Owns(s.producers[u], p);
      assert (s.producers - {t})[u] == (s'.producers - {t})[u];
    }
    forall p: nat | Owned(s', p) && !(t in s'.producers && Owns(s'.producers[t], p)) ensures Owned(s, p) {
      var u: nat :| u in s'.producers && Owns(s'.producers[u], p);
      assert (s.producers - {t})[u] == (s'.producers - {t})[u];
    }
  }

  lemma CallOrRetry<T>(capacity: nat, s: State<T>, s': State<T>, t: nat)
    requires Inv(capacity, s)
    requires s'.producers == s.producers - {t}
             || (t in s'.producers && s'.producers == s.producers[t := s'.producers[t]])
    requires s' == s.(producers := s'.producers)
    requires forall p: nat :: t in s.producers ==> !Owns(s.producers[t], p)
    requires forall p: nat :: t in s'.producers ==> !Owns(s'.producers[t], p)
    requires t in s'.producers ==> ProducerOk(capacity, s', s'.producers[t])
    ensures Inv(capacity, s')
  {
    hide Slot, Owned;
    OwnersStay(s, s', t);
    forall i: nat | i < capacity ensures SlotOk(capacity, s', i) {
      assert SlotOk(capacity, s, i);
    }
    forall u: nat | u in s'.producers ensures ProducerOk(capacity, s', s'.producers[u]) {
      assert u != t ==> ProducerOk(capacity, s, s.producers[u]);
    }
  }

  lemma Claim<T>(capacity: nat, s: State<T>, t: nat)
    requires Inv(capacity, s) && t in s.producers && s.producers[t].CasTail? && s.producers[t].tail == s.tail
    ensures Inv(capacity, StepProducer(capacity, s, t, false))
  {
    hide Slot, Owned;
    var s', p := StepProducer(capacity, s, t, false), s.tail;
    assert ProducerOk(capacity, s, s.producers[t]);
    ServesTicket(capacity, s, p);
    OwnersStay(s, s', t);
    OwnerIn(s', t, p);
    forall i: nat | i < capacity ensures SlotOk(capacity, s', i) {
      assert SlotOk(capacity, s, i);
    }
    forall u: nat | u in s'.producers ensures ProducerOk(capacity, s', s'.producers[u]) {
      assert u != t ==> ProducerOk(capacity, s, s.producers[u]);
    }
    forall u: nat, v: nat, q: nat | u in s'.producers && v in s'.producers && u != v
      ensures !(Owns(s'.producers[u], q) && Owns(s'.producers[v], q))
    {
      assert u != t ==> ProducerOk(capacity, s, s.producers[u]);
      assert v != t ==> ProducerOk(capacity, s, s.producers[v]);
    }
    assert forall k :: 0 <= k < s.head ==> s'.pushed[k] == s.pushed[k];
  }

  lemma Fill<T>(capacity: nat, s: State<T>, t: nat, spurious: bool)
    requires Inv(capacity, s) && t in s.producers && (s.producers[t].Construct? || s.producers[t].SetReady?)
    ensures Inv(capacity, StepProducer(capacity, s, t, spurious))
  {
    hide Slot, Owned;
    var s', p := StepProducer(capacity, s, t, spurious), s.producers[t].ticket;
    assert ProducerOk(capacity, s, s.producers[t]) && Owns(s.producers[t], p);
    ServesTicket(capacity, s, s.head);
    OwnerIn(s, t, p);
    OwnersStay(s, s', t);
    if s.producers[t].Construct? {
      OwnerIn(s', t, p);
    }
    forall i: nat | i < capacity ensures SlotOk(capacity, s', i) {
      assert SlotOk(capacity, s, i);
    }
    forall u: nat | u in s'.producers ensures ProducerOk(capacity, s', s'.producers[u]) {
      OtherProducer(capacity, s, t, u, spurious);
    }
  }

  lemma OtherProducer<T>(capacity: nat, s: State<T>, t: nat, u: nat, spurious: bool)
    requires Inv(capacity, s) && t in s.producers && (s.producers[t].Construct? || s.producers[t].SetReady?)
    requires u in StepProducer(capacity, s, t, spurious).producers
    ensures var s' := StepProducer(capacity, s, t, spurious);
            |s'.pushed| == s'.tail && ProducerOk(capacity, s', s'.producers[u])
  {
    hide Slot, Owned, SlotOk;
    assert ProducerOk(capacity, s, s.producers[t]) && ProducerOk(capacity, s, s.producers[u]);
    assert Owns(s.producers[t], s.producers[t].ticket);
    if s.producers[u].Construct? || s.producers[u].SetReady? {
      assert Owns(s.producers[u], s.producers[u].ticket);
    }
  }

  lemma ConsumerStep<T>(capacity: nat, s: State<T>)
    requires Inv(capacity, s)
    ensures Inv(capacity, StepConsumer(capacity, s))
  {
    hide Slot, Owned;
    var s' := StepConsumer(capacity, s);
    ServesTicket(capacity, s, s.head);
    NextTurn(capacity, s.head);
    SameProducers(s, s');
    if s.ready[Slot(capacity, s.head)] {
      ReadyIsUnowned(capacity, s, s.head);
    }
    forall i: nat | i < capacity ensures SlotOk(capacity, s', i) {
      assert SlotOk(capacity, s, i);
    }
    forall u: nat | u in s'.producers ensures ProducerOk(capacity, s', s'.producers[u]) {
      ProducerAfterConsumer(capacity, s, u);
    }
  }

  lemma ProducerAfterConsumer<T>(capacity: nat, s: State<T>, u: nat)
    requires Inv(capacity, s) && u in s.producers
    ensures ProducerOk(capacity, StepConsumer(capacity, s), s.producers[u])
  {
    hide Slot, Owned, SlotOk;
    assert ProducerOk(capacity, s, s.producers[u]);
    ServesTicket(capacity, s, s.head);
    if s.producers[u].Construct? || s.producers[u].SetReady? {
      NotConsumed(capacity, s, u);
    }
  }

  /** A producer still filling a slot keeps its ready flag down. */
  lemma ReadyIsUnowned<T>(capacity: nat, s: State<T>, p: nat)
    requires Inv(capacity, s) && s.ready[Slot(capacity, p)]
    ensures !Owned(s, p)
  {
    forall u: nat | u in s.producers ensures !Owns(s.producers[u], p) {
      assert ProducerOk(capacity, s, s.producers[u]);
    }
  }

  /** No producer's ticket is the one being consumed. */
  lemma NotConsumed<T>(capacity: nat, s: State<T>, u: nat)
    requires Inv(capacity, s) && u in s.producers && (s.producers[u].Construct? || s.producers[u].SetReady?)
    ensures s.consumer.Take? || s.consumer.ClearReady? || s.consumer.StoreHead? ==> s.producers[u].ticket != s.head
  {
    assert ProducerOk(capacity, s, s.producers[u]) && Owns(s.producers[u], s.producers[u].ticket);
  }

  lemma SameProducers<T>(s: State<T>, s': State<T>)
    requires s'.producers == s.producers
    ensures forall p: nat :: Owned(s, p) <==> Owned(s', p)
  {
  }

  lemma StepKeepsInv<T>(capacity: nat, s: State<T>, c: Choice<T>)
    requires Inv(capacity, s)
    ensures Inv(capacity, Apply(capacity, s, c))
  {
    match c
    case CallPush(t, item) =>
      if t !in s.producers {
        CallOrRetry(capacity, s, Apply(capacity, s, c), t);
      }
    case Produce(t, spurious) =>
      if t in s.producers {
        assert ProducerOk(capacity, s, s.producers[t]);
        match s.producers[t]
        case LoadHead(_) => CallOrRetry(capacity, s, Apply(capacity, s, c), t);
        case LoadTail(_, _) => CallOrRetry(capacity, s, Apply(capacity, s, c), t);
        case CasTail(_, _, tail) =>
          if s.tail == tail && !spurious {
            Claim(capacity, s, t);
          } else {
            CallOrRetry(capacity, s, Apply(capacity, s, c), t);
          }
        case Construct(_, _) => Fill(capacity, s, t, spurious);
        case SetReady(_) => Fill(capacity, s, t, spurious);
      }
    case Consume => ConsumerStep(capacity, s);
  }

  lemma {:induction false} RunKeepsInv<T>(capacity: nat, schedule: seq<Choice<T>>)
    requires capacity > 0
    ensures Inv(capacity, Run(capacity, schedule))
    decreases |schedule|
  {
    hide Apply;
    if schedule == [] {
      InitialInv<T>(capacity);
    } else {
      RunKeepsInv(capacity, schedule[..|schedule| - 1]);
      StepKeepsInv(capacity, Run(capacity, schedule[..|schedule| - 1]), schedule[|schedule| - 1]);
    }
  }

  // ---------------------------------------------------------------------------
  // Main results
  // ---------------------------------------------------------------------------

  /** After any schedule the ring is within bounds, the consumer has received exactly the items
      of the first tickets in ticket order, each once, and no element was ever overwritten. */
  lemma EveryRunIsFifo<T>(capacity: nat, schedule: seq<Choice<T>>)
    requires capacity > 0
    ensures var s := Run(capacity, schedule);
            && s.head <= s.tail <= s.head + capacity
            && |s.pushed| == s.tail && |s.popped| == s.head
            && (forall k: nat :: k < s.head ==> s.popped[k] == Some(s.pushed[k]))
            && !s.overwritten
  {
    RunKeepsInv(capacity, schedule);
  }

  /** Whenever a producer claims a ticket, the ready flag of its slot is down. */
  lemma ClaimedSlotIsNotReady<T>(capacity: nat, schedule: seq<Choice<T>>, t: nat, ticket: nat)
    requires capacity > 0
    requires var s := Run(capacity, schedule); t in s.producers && Owns(s.producers[t], ticket)
    ensures var s := Run(capacity, schedule);
            s.head <= ticket < s.tail && !s.ready[Slot(capacity, ticket)]
  {
    RunKeepsInv(capacity, schedule);
    var s := Run(capacity, schedule);
    assert ProducerOk(capacity, s, s.producers[t]);
  }

  /** With no call in progress, exactly the slots between head and tail are ready, and hold
      their items. */
  lemma QuiescentRingHoldsTheRest<T>(capacity: nat, schedule: seq<Choice<T>>, p: nat)
    requires capacity > 0
    requires var s := Run(capacity, schedule);
             s.producers == map[] && s.consumer == Idle && s.head <= p < s.head + capacity
    ensures var s := Run(capacity, schedule);
            var i := Slot(capacity, p);
            |s.pushed| == s.tail &&
            if p < s.tail then s.ready[i] && s.slots[i] == Some(s.pushed[p]) else !s.ready[i] && s.slots[i] == None
  {
    RunKeepsInv(capacity, schedule);
    ServesTicket(capacity, Run(capacity, schedule), p);
  }

  /** At rest a pop that runs alone returns the oldest element if there is one, else nothing. */
  lemma PopAlone<T>(capacity: nat, s: State<T>)
    requires Inv(capacity, s) && s.producers == map[] && s.consumer == Idle
    ensures var asked := StepConsumer(capacity, StepConsumer(capacity, s));
            if s.head == s.tail then asked == s
            else
              var done := StepConsumer(capacity, StepConsumer(capacity, StepConsumer(capacity, asked)));
              && done.head == s.head + 1 && done.tail == s.tail && done.consumer == Idle
              && done.popped == s.popped + [Some(s.pushed[s.head])]
  {
    hide Slot;
    ServesTicket(capacity, s, s.head);
  }

  /** At rest a push that runs alone succeeds exactly when there is room. */
  lemma PushAlone<T>(capacity: nat, s: State<T>, t: nat, item: T)
    requires Inv(capacity, s) && s.producers == map[] && s.consumer == Idle
    ensures var go := Choice<T>.Produce(t, false);
            var asked := Apply(capacity, Apply(capacity, Apply(capacity, s, CallPush(t, item)), go), go);
            if s.tail == s.head + capacity then asked == s
            else
              var done := Apply(capacity, Apply(capacity, Apply(capacity, asked, go), go), go);
              && done.tail == s.tail + 1 && done.head == s.head && done.producers == map[]
              && done.pushed == s.pushed + [item] && done.ready[Slot(capacity, s.tail)]
  {
    hide Slot, SlotOk;
    var go := Choice<T>.Produce(t, false);
    var s1 := Apply(capacity, s, CallPush(t, item));
    var s2 := Apply(capacity, s1, go);
    assert s2.producers == map[t := LoadTail(item, s.head)];
    var s3 := Apply(capacity, s2, go);
    if s.tail == s.head + capacity {
      assert s3.producers == map[];
    } else {
      assert s3.producers == map[t := CasTail(item, s.head, s.tail)];
      var s4 := Apply(capacity, s3, go);
      assert s4.producers == map[t := Construct(item, s.tail)];
      var s5 := Apply(capacity, s4, go);
      assert s5.producers == map[t := SetReady(s.tail)];
      assert Apply(capacity, s5, go).producers == map[];
    }
  }

  // ---------------------------------------------------------------------------
  // Calls that are not disturbed any more
  // ---------------------------------------------------------------------------

  /** A push ends only where it completes or where the tail is a whole lap ahead of the head it
      read: losing a race keeps it in its loop. A pop ends only where it completes or finds the
      flag of the head's slot down. */
  lemma CallsEndExactly<T>(capacity: nat, s: State<T>, t: nat, spurious: bool)
    requires Inv(capacity, s)
    ensures t in s.producers ==>
              var pc := s.producers[t];
              t !in Apply(capacity, s, Produce(t, spurious)).producers
              <==> pc.SetReady? || (pc.LoadTail? && s.tail >= pc.head + capacity)
    ensures s.consumer != Idle ==>
              (Apply(capacity, s, Choice<T>.Consume).consumer == Idle
               <==> s.consumer.StoreHead? || (s.consumer.LoadReady? && (s.head == s.tail || Owned(s, s.head))))
  {
    hide Slot, SlotOk, Owned;
    if t in s.producers {
      assert ProducerOk(capacity, s, s.producers[t]);
    }
    HeadIsReady(capacity, s);
  }

  /** The flag of the head's slot is up exactly when there is an element and its producer is done. */
  lemma HeadIsReady<T>(capacity: nat, s: State<T>)
    requires Inv(capacity, s)
    ensures s.consumer.Idle? || s.consumer.LoadReady? ==>
              (s.ready[Slot(capacity, s.head)] <==> s.head < s.tail && !Owned(s, s.head))
              && (s.ready[Slot(capacity, s.head)] ==> s.slots[Slot(capacity, s.head)] == Some(s.pushed[s.head]))
  {
    hide Slot, Owned;
    ServesTicket(capacity, s, s.head);
    if s.ready[Slot(capacity, s.head)] {
      ReadyIsUnowned(capacity, s, s.head);
    }
  }

  function Turns<T>(capacity: nat, s: State<T>, t: nat, n: nat): (s': State<T>)
    requires Shape(capacity, s)
    ensures Shape(capacity, s')
    decreases n
  {
    if n == 0 then s else Turns(capacity, Apply(capacity, s, Produce(t, false)), t, n - 1)
  }

  lemma {:induction false} NoTurnsLeft<T>(capacity: nat, s: State<T>, t: nat, n: nat)
    requires Shape(capacity, s) && t !in s.producers
    ensures Turns(capacity, s, t, n) == s
    decreases n
  {
    if n > 0 {
      NoTurnsLeft(capacity, s, t, n - 1);
    }
  }

  function Leave<T>(s: State<T>, t: nat): State<T> { s.(producers := s.producers - {t}) }

  lemma AtAgain<T>(s: State<T>, t: nat, pc: Producer<T>, pc': Producer<T>)
    ensures At(At(s, t, pc), t, pc') == At(s, t, pc') && Leave(At(s, t, pc), t) == Leave(s, t)
    ensures t in s.producers ==> At(s, t, s.producers[t]) == s
  {
    assert s.producers[t := pc][t := pc'] == s.producers[t := pc'];
    assert s.producers[t := pc] - {t} == s.producers - {t};
    assert t in s.producers ==> s.producers[t := s.producers[t]] == s.producers;
  }

  /** The slot of a ticket filled and marked ready. */
  function Filled<T>(capacity: nat, s: State<T>, ticket: nat, item: T): State<T>
    requires Shape(capacity, s)
  {
    var i := Slot(capacity, ticket);
    s.(slots := s.slots[i := Some(item)], ready := s.ready[i := true])
  }

  lemma ConstructThenReady<T>(capacity: nat, s: State<T>, t: nat, item: T, ticket: nat, n: nat)
    requires Shape(capacity, s) && n >= 2 && s.slots[Slot(capacity, ticket)] == None
    ensures Turns(capacity, At(s, t, Construct(item, ticket)), t, n) == Leave(Filled(capacity, s, ticket, item), t)
  {
    hide Slot;
    var i := Slot(capacity, ticket);
    var stored := s.(slots := s.slots[i := Some(item)]);
    AtAgain(stored, t, Construct(item, ticket), SetReady(ticket));
    assert Apply(capacity, At(s, t, Construct(item, ticket)), Produce(t, false)) == At(stored, t, SetReady(ticket));
    AtAgain(Filled(capacity, s, ticket, item), t, SetReady(ticket), SetReady(ticket));
    assert Apply(capacity, At(stored, t, SetReady(ticket)), Produce(t, false))
           == Leave(Filled(capacity, s, ticket, item), t);
    NoTurnsLeft(capacity, Leave(Filled(capacity, s, ticket, item), t), t, n - 2);
  }

  /** What a push makes of the state that read `head` as the head, with nothing in its way. */
  function PushOutcome<T>(capacity: nat, s: State<T>, t: nat, item: T, head: nat): State<T>
    requires Shape(capacity, s)
  {
    if s.tail < head + capacity
    then Leave(Filled(capacity, s.(tail := s.tail + 1, pushed := s.pushed + [item]), s.tail, item), t)
    else Leave(s, t)
  }

  lemma PushFromTail<T>(capacity: nat, s: State<T>, t: nat, item: T, head: nat, n: nat)
    requires Inv(capacity, s) && head <= s.head && n >= 4
    ensures Turns(capacity, At(s, t, LoadTail(item, head)), t, n) == PushOutcome(capacity, s, t, item, head)
    ensures s.tail < head + capacity ==>
              Turns(capacity, At(s, t, CasTail(item, head, s.tail)), t, n - 1)
              == PushOutcome(capacity, s, t, item, head)
  {
    hide Slot, SlotOk, Filled;
    var here := At(s, t, LoadTail(item, head));
    if s.tail < head + capacity {
      ServesTicket(capacity, s, s.tail);
      EmptySlot(capacity, s);
      var claimed := s.(tail := s.tail + 1, pushed := s.pushed + [item]);
      AtAgain(s, t, LoadTail(item, head), CasTail(item, head, s.tail));
      assert Apply(capacity, here, Produce(t, false)) == At(s, t, CasTail(item, head, s.tail));
      AtAgain(claimed, t, CasTail(item, head, s.tail), Construct(item, s.tail));
      assert Apply(capacity, At(s, t, CasTail(item, head, s.tail)), Produce(t, false))
             == At(claimed, t, Construct(item, s.tail));
      ConstructThenReady(capacity, claimed, t, item, s.tail, n - 2);
    } else {
      AtAgain(s, t, LoadTail(item, head), LoadTail(item, head));
      assert Apply(capacity, here, Produce(t, false)) == Leave(s, t);
      NoTurnsLeft(capacity, Leave(s, t), t, n - 1);
    }
  }

  lemma EmptySlot<T>(capacity: nat, s: State<T>)
    requires Inv(capacity, s) && s.tail < s.head + capacity
    ensures s.slots[Slot(capacity, s.tail)] == None
  {
    ServesTicket(capacity, s, s.tail);
  }

  lemma FirstTurn<T>(capacity: nat, s: State<T>, t: nat, n: nat)
    requires Shape(capacity, s) && n > 0
    ensures Turns(capacity, s, t, n) == Turns(capacity, Apply(capacity, s, Produce(t, false)), t, n - 1)
  {
  }

  /** From the middle of any push, wherever races have left it, the producer alone returns within
      seven turns. One that has not claimed a ticket succeeds exactly when there is room, as far
      as the head it has read, or reads anew after losing a race, tells. */
  lemma PushReturns<T>(capacity: nat, s: State<T>, t: nat)
    requires Inv(capacity, s) && t in s.producers
    ensures var pc, s' := s.producers[t], Turns(capacity, s, t, 7);
            if pc.Construct? || pc.SetReady?
            then pc.ticket < |s.pushed| && s' == Leave(Filled(capacity, s, pc.ticket, s.pushed[pc.ticket]), t)
            else s' == PushOutcome(capacity, s, t, pc.item,
                                   if pc.LoadTail? || (pc.CasTail? && pc.tail == s.tail) then pc.head else s.head)
  {
    hide Slot, SlotOk, PushOutcome, Turns;
    var pc := s.producers[t];
    assert ProducerOk(capacity, s, pc);
    AtAgain(s, t, pc, pc);
    match pc
    case LoadHead(item) =>
      FirstTurn(capacity, s, t, 7);
      PushFromTail(capacity, s, t, item, s.head, 6);
    case LoadTail(item, head) => PushFromTail(capacity, s, t, item, head, 7);
    case CasTail(item, head, tail) =>
      if tail == s.tail {
        PushFromTail(capacity, s, t, item, head, 8);
      } else {
        AtAgain(s, t, LoadHead(item), LoadTail(item, s.head));
        FirstTurn(capacity, s, t, 7);
        FirstTurn(capacity, At(s, t, LoadHead(item)), t, 6);
        PushFromTail(capacity, s, t, item, s.head, 5);
      }
    case Construct(item, ticket) => ConstructThenReady(capacity, s, t, item, ticket, 7);
    case SetReady(ticket) =>
      assert s.slots[Slot(capacity, ticket) := Some(s.pushed[ticket])] == s.slots;
      FirstTurn(capacity, s, t, 7);
      NoTurnsLeft(capacity, Leave(Filled(capacity, s, ticket, s.pushed[ticket]), t), t, 6);
  }

  /** From the start, whatever producers are in the middle of, a pop alone takes the oldest element
      exactly when there is one and its producer is done, and otherwise changes nothing. */
  lemma PopReturns<T>(capacity: nat, s: State<T>)
    requires Inv(capacity, s) && s.consumer == Idle
    ensures var i, go := Slot(capacity, s.head), Choice<T>.Consume;
            var asked := Apply(capacity, Apply(capacity, s, go), go);
            if s.head < s.tail && !Owned(s, s.head)
            then Apply(capacity, Apply(capacity, Apply(capacity, asked, go), go), go)
                 == s.(head := s.head + 1, popped := s.popped + [Some(s.pushed[s.head])],
                       slots := s.slots[i := None], ready := s.ready[i := false],
                       turn := s.turn[i := s.head + capacity])
            else asked == s
  {
    hide Slot, SlotOk, Owned;
    HeadIsReady(capacity, s);
  }
}
