/** The bounded multi-producer multi-consumer queue, as a step machine.
    One step is one atomic load, compare-exchange or store, or one access to a
    cell's data. A schedule is an arbitrary sequence of such steps by arbitrarily
    many threads, so a lemma over all schedules is a lemma over all interleavings. */
module MpmcQueue {
  import opened Options
  import opened Numbers
  import opened RingPositions

  /** `data` is `None` while the cell holds no live value (never written, or moved from). */
  datatype Cell<T> = Cell(sequence: nat, data: Option<T>)

  /** Where a thread stands inside `try_push` or `try_pop`, with its locals. */
  datatype Pc<T> =
    | PushLoadPos(item: T)
    | PushLoadSeq(item: T, pos: nat)
    | PushCas(item: T, pos: nat)
    | PushStore(item: T, pos: nat)
    | PushPublish(pos: nat)
    | PopLoadPos
    | PopLoadSeq(pos: nat)
    | PopCas(pos: nat)
    | PopTake(pos: nat)
    | PopRelease(pos: nat, got: Option<T>)

  /** The shared memory and the threads inside a call. The last three fields are
      history: the item of each enqueue ticket, the value returned for each
      completed dequeue ticket, and the ticket each cell currently serves. */
  datatype State<T> = State(
    cells: seq<Cell<T>>,
    enq: nat,
    deq: nat,
    threads: map<nat, Pc<T>>,
    pushed: seq<T>,
    popped: map<nat, Option<T>>,
    turn: seq<nat>)

  /** What the scheduler picks next: a new call, or one step of a running thread.
      `spurious` lets a weak compare-exchange fail for no reason. */
  datatype Choice<T> =
    | CallPush(thread: nat, item: T)
    | CallPop(thread: nat)
    | Go(thread: nat, spurious: bool)

  function Initial<T>(capacity: nat): State<T> {
    State(seq(capacity, i requires i >= 0 => Cell(i, None)), 0, 0, map[], [], map[],
          seq(capacity, i requires i >= 0 => i))
  }

  /** Every cell has a turn, and the threads' positions are array positions modulo the capacity. */
  predicate Shape<T>(capacity: nat, s: State<T>) {
    capacity > 0 && |s.cells| == capacity && |s.turn| == capacity
  }

  function At<T>(s: State<T>, t: nat, pc: Pc<T>): State<T> {
    s.(threads := s.threads[t := pc])
  }

  function Leave<T>(s: State<T>, t: nat): State<T> {
    s.(threads := s.threads - {t})
  }

  function StepPush<T>(capacity: nat, s: State<T>, t: nat, spurious: bool): (s': State<T>)
    requires Shape(capacity, s) && t in s.threads
    ensures Shape(capacity, s')
  {
    match s.threads[t]
    case PushLoadPos(item) => At(s, t, PushLoadSeq(item, s.enq))
    case PushLoadSeq(item, pos) =>
      var sequence := s.cells[Slot(capacity, pos)].sequence;
      if sequence == pos then At(s, t, PushCas(item, pos))
      else if sequence < pos then Leave(s, t)
      else At(s, t, PushLoadPos(item))
    case PushCas(item, pos) =>
      if s.enq == pos && !spurious then
        At(s.(enq := pos + 1, pushed := s.pushed + [item]), t, PushStore(item, pos))
      else At(s, t, PushLoadSeq(item, s.enq))
    case PushStore(item, pos) =>
      var i := Slot(capacity, pos);
      At(s.(cells := s.cells[i := s.cells[i].(data := Some(item))]), t, PushPublish(pos))
    case PushPublish(pos) =>
      var i := Slot(capacity, pos);
      Leave(s.(cells := s.cells[i := s.cells[i].(sequence := pos + 1)]), t)
    case _ => s
  }

  function StepPop<T>(capacity: nat, s: State<T>, t: nat, spurious: bool): (s': State<T>)
    requires Shape(capacity, s) && t in s.threads
    ensures Shape(capacity, s')
  {
    match s.threads[t]
    case PopLoadPos => At(s, t, PopLoadSeq(s.deq))
    case PopLoadSeq(pos) =>
      var sequence := s.cells[Slot(capacity, pos)].sequence;
      if sequence == pos + 1 then At(s, t, PopCas(pos))
      else if sequence < pos + 1 then Leave(s, t)
      else At(s, t, PopLoadPos)
    case PopCas(pos) =>
      if s.deq == pos && !spurious then At(s.(deq := pos + 1), t, PopTake(pos))
      else At(s, t, PopLoadSeq(s.deq))
    case PopTake(pos) =>
      var i := Slot(capacity, pos);
      At(s.(cells := s.cells[i := s.cells[i].(data := None)]), t, PopRelease(pos, s.cells[i].data))
    case PopRelease(pos, got) =>
      var i := Slot(capacity, pos);
      Leave(s.(cells := s.cells[i := s.cells[i].(sequence := pos + capacity)],
               turn := s.turn[i := pos + capacity],
               popped := s.popped[pos := got]), t)
    case _ => s
  }

  predicate Pushing<T>(pc: Pc<T>) {
    pc.PushLoadPos? || pc.PushLoadSeq? || pc.PushCas? || pc.PushStore? || pc.PushPublish?
  }

  /** One scheduler choice; a choice that is not enabled changes nothing. */
  function Apply<T>(capacity: nat, s: State<T>, c: Choice<T>): (s': State<T>)
    requires Shape(capacity, s)
    ensures Shape(capacity, s')
  {
    match c
    case CallPush(t, item) => if t in s.threads then s else At(s, t, PushLoadPos(item))
    case CallPop(t) => if t in s.threads then s else At(s, t, PopLoadPos)
    case Go(t, spurious) =>
      if t !in s.threads then s
      else if Pushing(s.threads[t]) then StepPush(capacity, s, t, spurious)
      else StepPop(capacity, s, t, spurious)
  }

  function RunFrom<T>(capacity: nat, s: State<T>, schedule: seq<Choice<T>>): (s': State<T>)
    requires Shape(capacity, s)
    ensures Shape(capacity, s')
    decreases |schedule|
  {
    if schedule == [] then s
    else RunFrom(capacity, Apply(capacity, s, schedule[0]), schedule[1..])
  }

  function Run<T>(capacity: nat, schedule: seq<Choice<T>>): State<T>
    requires capacity > 0
  {
    RunFrom(capacity, Initial(capacity), schedule)
  }

  // ---------------------------------------------------------------------------
  // The inductive invariant
  // ---------------------------------------------------------------------------

  predicate OwnsPush<T>(pc: Pc<T>, ticket: nat) {
    (pc.PushStore? || pc.PushPublish?) && pc.pos == ticket
  }

  predicate OwnsPop<T>(pc: Pc<T>, ticket: nat) {
    (pc.PopTake? || pc.PopRelease?) && pc.pos == ticket
  }

  ghost predicate PushOwned<T>(s: State<T>, ticket: nat) {
    exists t :: t in s.threads && OwnsPush(s.threads[t], ticket)
  }

  ghost predicate PopOwned<T>(s: State<T>, ticket: nat) {
    exists t :: t in s.threads && OwnsPop(s.threads[t], ticket)
  }

  /** A cell serving ticket `p` is writable (sequence p) or readable (sequence p + 1). */
  ghost predicate CellOk<T>(capacity: nat, s: State<T>, i: nat)
    requires Shape(capacity, s) && i < capacity && |s.pushed| == s.enq
  {
    var p, cell := s.turn[i], s.cells[i];
    && Slot(capacity, p) == i
    && ((cell.sequence == p && s.deq <= p < s.deq + capacity
         && (p < s.enq ==> PushOwned(s, p)))
        || (cell.sequence == p + 1 && p < s.enq <= p + capacity
            && (s.deq <= p ==> cell.data == Some(s.pushed[p]))
            && (p < s.deq ==> PopOwned(s, p))))
  }

  ghost predicate ThreadOk<T>(capacity: nat, s: State<T>, pc: Pc<T>)
    requires Shape(capacity, s) && |s.pushed| == s.enq
  {
    match pc
    case PushLoadPos(_) => true
    case PushLoadSeq(_, pos) => pos <= s.enq
    case PushCas(_, pos) => pos <= s.enq && (pos == s.enq ==> s.cells[Slot(capacity, pos)].sequence == pos)
    case PushStore(item, pos) =>
      && pos < s.enq && s.turn[Slot(capacity, pos)] == pos == s.cells[Slot(capacity, pos)].sequence
      && s.pushed[pos] == item
    case PushPublish(pos) =>
      && pos < s.enq && s.turn[Slot(capacity, pos)] == pos == s.cells[Slot(capacity, pos)].sequence
      && s.cells[Slot(capacity, pos)].data == Some(s.pushed[pos])
    case PopLoadPos => true
    case PopLoadSeq(pos) => pos <= s.deq
    case PopCas(pos) => pos <= s.deq && (pos == s.deq ==> s.cells[Slot(capacity, pos)].sequence == pos + 1)
    case PopTake(pos) =>
      && pos < s.deq <= s.enq && s.turn[Slot(capacity, pos)] == pos && s.cells[Slot(capacity, pos)].sequence == pos + 1
      && s.cells[Slot(capacity, pos)].data == Some(s.pushed[pos])
      && pos !in s.popped
    case PopRelease(pos, got) =>
      && pos < s.deq <= s.enq && s.turn[Slot(capacity, pos)] == pos && s.cells[Slot(capacity, pos)].sequence == pos + 1
      && got == Some(s.pushed[pos]) && s.cells[Slot(capacity, pos)].data == None
      && pos !in s.popped
  }

  /** A ticket is owned by at most one thread. */
  ghost predicate Exclusive<T>(s: State<T>) {
    forall t: nat, u: nat, p: nat :: t in s.threads && u in s.threads && t != u
      ==> !(OwnsPush(s.threads[t], p) && OwnsPush(s.threads[u], p))
          && !(OwnsPop(s.threads[t], p) && OwnsPop(s.threads[u], p))
  }

  /** Tickets handed out in order, each returned value is the one pushed for its
      ticket, and a claimed dequeue ticket is either answered or still owned. */
  ghost predicate TicketsOk<T>(s: State<T>) {
    && |s.pushed| == s.enq
    && (forall k :: k in s.popped ==> k < s.deq && k < s.enq && s.popped[k] == Some(s.pushed[k]))
    && (forall k: nat :: k < s.deq && k !in s.popped ==> PopOwned(s, k))
  }

  ghost predicate Inv<T>(capacity: nat, s: State<T>) {
    && capacity >= 2
    && Shape(capacity, s)
    && s.deq <= s.enq <= s.deq + capacity
    && TicketsOk(s)
    && (forall i: nat :: i < capacity ==> CellOk(capacity, s, i))
    && (forall t :: t in s.threads ==> ThreadOk(capacity, s, s.threads[t]))
    && Exclusive(s)
  }

  /** The ticket a thread owns, in a form that names it. */
  lemma Owner<T>(pc: Pc<T>)
    ensures pc.PushStore? || pc.PushPublish? ==> OwnsPush(pc, pc.pos)
    ensures pc.PopTake? || pc.PopRelease? ==> OwnsPop(pc, pc.pos)
  {
  }

  lemma OwnerIn<T>(s: State<T>, t: nat, p: nat)
    requires t in s.threads
    ensures OwnsPush(s.threads[t], p) ==> PushOwned(s, p)
    ensures OwnsPop(s.threads[t], p) ==> PopOwned(s, p)
  {
  }

  /** Threads other than the one that moves keep what they own. */
  lemma OwnersStay<T>(s: State<T>, s': State<T>, t: nat)
    requires forall u :: u in s.threads && u != t ==> u in s'.threads && s'.threads[u] == s.threads[u]
    ensures forall p: nat :: PushOwned(s, p) && !(t in s.threads && OwnsPush(s.threads[t], p)) ==> PushOwned(s', p)
    ensures forall p: nat :: PopOwned(s, p) && !(t in s.threads && OwnsPop(s.threads[t], p)) ==> PopOwned(s', p)
  {
    forall p: nat | PushOwned(s, p) && !(t in s.threads && OwnsPush(s.threads[t], p)) ensures PushOwned(s', p) {
      var u :| u in s.threads && OwnsPush(s.threads[u], p);
      assert u in s'.threads && OwnsPush(s'.threads[u], p);
    }
    forall p: nat | PopOwned(s, p) && !(t in s.threads && OwnsPop(s.threads[t], p)) ensures PopOwned(s', p) {
      var u :| u in s.threads && OwnsPop(s.threads[u], p);
      assert u in s'.threads && OwnsPop(s'.threads[u], p);
    }
  }

  lemma InitialInv<T>(capacity: nat)
    requires capacity >= 2
    ensures Inv(capacity, Initial<T>(capacity))
  {
    var s := Initial<T>(capacity);
    forall i: nat | i < capacity ensures CellOk(capacity, s, i) {
      SmallRemainder(capacity, i);
    }
  }

  /** A step of a thread that owns no cell, before or after, and touches no shared variable. */
  lemma QuietStep<T>(capacity: nat, s: State<T>, s': State<T>, t: nat)
    requires Inv(capacity, s)
    requires s'.threads == s.threads - {t} || (t in s'.threads && s'.threads == s.threads[t := s'.threads[t]])
    requires s' == s.(threads := s'.threads)
    requires forall p: nat :: t in s.threads ==> !OwnsPush(s.threads[t], p) && !OwnsPop(s.threads[t], p)
    requires forall p: nat :: t in s'.threads ==> !OwnsPush(s'.threads[t], p) && !OwnsPop(s'.threads[t], p)
    requires t in s'.threads ==> ThreadOk(capacity, s', s'.threads[t])
    ensures Inv(capacity, s')
  {
    hide Slot, PushOwned, PopOwned;
    OwnersStay(s, s', t);
    forall i: nat | i < capacity ensures CellOk(capacity, s', i) {
      assert CellOk(capacity, s, i);
    }
    forall u | u in s'.threads ensures ThreadOk(capacity, s', s'.threads[u]) {
      assert u != t ==> ThreadOk(capacity, s, s.threads[u]);
    }
  }

  /** A sequence number tells which ticket its cell serves: only possible with two cells or more. */
  lemma SequenceTellsTurn<T>(capacity: nat, s: State<T>, pos: nat)
    requires Inv(capacity, s)
    ensures CellOk(capacity, s, Slot(capacity, pos))
    ensures s.cells[Slot(capacity, pos)].sequence == pos ==> s.turn[Slot(capacity, pos)] == pos
    ensures s.cells[Slot(capacity, pos)].sequence == pos + 1 ==> s.turn[Slot(capacity, pos)] == pos
  {
    assert CellOk(capacity, s, Slot(capacity, pos));
    NeighbourTurns(capacity, s.turn[Slot(capacity, pos)]);
    NeighbourTurns(capacity, pos);
  }

  lemma PushClaims<T>(capacity: nat, s: State<T>, t: nat)
    requires Inv(capacity, s) && t in s.threads && s.threads[t].PushCas? && s.enq == s.threads[t].pos
    ensures Inv(capacity, StepPush(capacity, s, t, false))
  {
    hide Slot, PushOwned, PopOwned, Exclusive;
    var s' := StepPush(capacity, s, t, false);
    assert ThreadOk(capacity, s, s.threads[t]);
    SequenceTellsTurn(capacity, s, s.enq);
    OwnersStay(s, s', t);
    OwnerIn(s', t, s.enq);
    forall i: nat | i < capacity ensures CellOk(capacity, s', i) {
      assert CellOk(capacity, s, i);
      NeighbourTurns(capacity, s.turn[i]);
    }
    OthersOk(capacity, s, s', t, false);
  }

  lemma PushStores<T>(capacity: nat, s: State<T>, t: nat, spurious: bool)
    requires Inv(capacity, s) && t in s.threads && s.threads[t].PushStore?
    ensures Inv(capacity, StepPush(capacity, s, t, spurious))
  {
    hide Slot, PushOwned, PopOwned, Exclusive;
    var s' := StepPush(capacity, s, t, spurious);
    var pos := s.threads[t].pos;
    assert ThreadOk(capacity, s, s.threads[t]);
    OwnersStay(s, s', t);
    OwnerIn(s', t, pos);
    forall i: nat | i < capacity ensures CellOk(capacity, s', i) {
      assert CellOk(capacity, s, i);
    }
    OthersOk(capacity, s, s', t, spurious);
  }

  lemma PushPublishes<T>(capacity: nat, s: State<T>, t: nat, spurious: bool)
    requires Inv(capacity, s) && t in s.threads && s.threads[t].PushPublish?
    ensures Inv(capacity, StepPush(capacity, s, t, spurious))
  {
    hide Slot, PushOwned, PopOwned, Exclusive;
    var s' := StepPush(capacity, s, t, spurious);
    var pos := s.threads[t].pos;
    assert ThreadOk(capacity, s, s.threads[t]);
    OwnersStay(s, s', t);
    assert OwnsPush(s.threads[t], pos);
    assert CellOk(capacity, s, Slot(capacity, pos));
    forall i: nat | i < capacity ensures CellOk(capacity, s', i) {
      assert CellOk(capacity, s, i);
    }
    OthersOk(capacity, s, s', t, spurious);
  }

  lemma PopClaims<T>(capacity: nat, s: State<T>, t: nat)
    requires Inv(capacity, s) && t in s.threads && s.threads[t].PopCas? && s.deq == s.threads[t].pos
    ensures Inv(capacity, StepPop(capacity, s, t, false))
  {
    hide Slot, PushOwned, PopOwned, Exclusive;
    var s' := StepPop(capacity, s, t, false);
    assert ThreadOk(capacity, s, s.threads[t]);
    SequenceTellsTurn(capacity, s, s.deq);
    OwnersStay(s, s', t);
    OwnerIn(s', t, s.deq);
    forall i: nat | i < capacity ensures CellOk(capacity, s', i) {
      assert CellOk(capacity, s, i);
    }
    OthersOk(capacity, s, s', t, false);
  }

  lemma PopTakes<T>(capacity: nat, s: State<T>, t: nat, spurious: bool)
    requires Inv(capacity, s) && t in s.threads && s.threads[t].PopTake?
    ensures Inv(capacity, StepPop(capacity, s, t, spurious))
  {
    hide Slot, PushOwned, PopOwned, Exclusive;
    var s' := StepPop(capacity, s, t, spurious);
    var pos := s.threads[t].pos;
    assert ThreadOk(capacity, s, s.threads[t]);
    OwnersStay(s, s', t);
    OwnerIn(s', t, pos);
    forall i: nat | i < capacity ensures CellOk(capacity, s', i) {
      assert CellOk(capacity, s, i);
    }
    OthersOk(capacity, s, s', t, spurious);
  }

  lemma PopReleases<T>(capacity: nat, s: State<T>, t: nat, spurious: bool)
    requires Inv(capacity, s) && t in s.threads && s.threads[t].PopRelease?
    ensures Inv(capacity, StepPop(capacity, s, t, spurious))
  {
    hide Slot, PushOwned, PopOwned, Exclusive;
    var s' := StepPop(capacity, s, t, spurious);
    var pos := s.threads[t].pos;
    assert ThreadOk(capacity, s, s.threads[t]);
    OwnersStay(s, s', t);
    assert OwnsPop(s.threads[t], pos);
    NeighbourTurns(capacity, pos);
    assert CellOk(capacity, s, Slot(capacity, pos));
    forall i: nat | i < capacity ensures CellOk(capacity, s', i) {
      assert CellOk(capacity, s, i);
    }
    OthersOk(capacity, s, s', t, spurious);
  }

  /** One step of thread `t` leaves the other threads' claims intact. */
  lemma OthersOk<T>(capacity: nat, s: State<T>, s': State<T>, t: nat, spurious: bool)
    requires Inv(capacity, s) && t in s.threads
    requires s' == if Pushing(s.threads[t]) then StepPush(capacity, s, t, spurious)
                   else StepPop(capacity, s, t, spurious)
    requires |s'.pushed| == s'.enq && s'.deq <= s'.enq
    ensures forall u :: u in s'.threads && u != t ==> ThreadOk(capacity, s', s'.threads[u])
    ensures Exclusive(s')
  {
    forall u | u in s'.threads && u != t ensures ThreadOk(capacity, s', s'.threads[u]) {
      OtherOk(capacity, s, s', t, u, spurious);
    }
    OwnsNewTicket(capacity, s, s', t, spurious);
    StaysExclusive(capacity, s, s', t);
  }

  lemma OtherOk<T>(capacity: nat, s: State<T>, s': State<T>, t: nat, u: nat, spurious: bool)
    requires Inv(capacity, s) && t in s.threads
    requires s' == if Pushing(s.threads[t]) then StepPush(capacity, s, t, spurious)
                   else StepPop(capacity, s, t, spurious)
    requires |s'.pushed| == s'.enq && s'.deq <= s'.enq
    requires u in s'.threads && u != t
    ensures ThreadOk(capacity, s', s'.threads[u])
  {
    if Pushing(s.threads[t]) {
      OtherOkAfterPush(capacity, s, t, u, spurious);
    } else {
      OtherOkAfterPop(capacity, s, t, u, spurious);
    }
  }

  lemma OtherOkAfterPush<T>(capacity: nat, s: State<T>, t: nat, u: nat, spurious: bool)
    requires Inv(capacity, s) && t in s.threads && u in s.threads && u != t
    ensures var s' := StepPush(capacity, s, t, spurious);
            |s'.pushed| == s'.enq && ThreadOk(capacity, s', s.threads[u])
  {
    hide Slot, CellOk, PushOwned, PopOwned;
    assert ThreadOk(capacity, s, s.threads[t]) && ThreadOk(capacity, s, s.threads[u]);
    Owner(s.threads[t]);
    Owner(s.threads[u]);
    NeighbourTurns(capacity, s.deq);
    NeighbourTurns(capacity, s.enq);
  }

  lemma OtherOkAfterPop<T>(capacity: nat, s: State<T>, t: nat, u: nat, spurious: bool)
    requires Inv(capacity, s) && t in s.threads && u in s.threads && u != t
    requires StepPop(capacity, s, t, spurious).deq <= s.enq
    ensures var s' := StepPop(capacity, s, t, spurious);
            |s'.pushed| == s'.enq && ThreadOk(capacity, s', s.threads[u])
  {
    hide Slot, CellOk, PushOwned, PopOwned;
    assert ThreadOk(capacity, s, s.threads[t]) && ThreadOk(capacity, s, s.threads[u]);
    Owner(s.threads[t]);
    Owner(s.threads[u]);
    NeighbourTurns(capacity, if s.enq > 0 then s.enq - 1 else 0);
  }

  /** The moving thread only comes to own a ticket nobody had claimed. */
  lemma OwnsNewTicket<T>(capacity: nat, s: State<T>, s': State<T>, t: nat, spurious: bool)
    requires Inv(capacity, s) && t in s.threads
    requires s' == if Pushing(s.threads[t]) then StepPush(capacity, s, t, spurious)
                   else StepPop(capacity, s, t, spurious)
    ensures forall p: nat :: t in s'.threads && OwnsPush(s'.threads[t], p) ==> OwnsPush(s.threads[t], p) || p == s.enq
    ensures forall p: nat :: t in s'.threads && OwnsPop(s'.threads[t], p) ==> OwnsPop(s.threads[t], p) || p == s.deq
    ensures forall u :: u in s'.threads && u != t ==> u in s.threads && s'.threads[u] == s.threads[u]
  {
    hide Slot, CellOk, ThreadOk, TicketsOk, Exclusive;
  }

  lemma StaysExclusive<T>(capacity: nat, s: State<T>, s': State<T>, t: nat)
    requires Inv(capacity, s) && t in s.threads
    requires forall p: nat :: t in s'.threads && OwnsPush(s'.threads[t], p) ==> OwnsPush(s.threads[t], p) || p == s.enq
    requires forall p: nat :: t in s'.threads && OwnsPop(s'.threads[t], p) ==> OwnsPop(s.threads[t], p) || p == s.deq
    requires forall u :: u in s'.threads && u != t ==> u in s.threads && s'.threads[u] == s.threads[u]
    ensures Exclusive(s')
  {
    hide Slot, CellOk, ThreadOk, TicketsOk;
    forall u: nat, v: nat, p: nat | u in s'.threads && v in s'.threads && u != v
      ensures !(OwnsPush(s'.threads[u], p) && OwnsPush(s'.threads[v], p))
              && !(OwnsPop(s'.threads[u], p) && OwnsPop(s'.threads[v], p))
    {
      OwnedIsClaimed(capacity, s, u, p);
      OwnedIsClaimed(capacity, s, v, p);
    }
  }

  lemma OwnedIsClaimed<T>(capacity: nat, s: State<T>, u: nat, p: nat)
    requires Inv(capacity, s)
    ensures u in s.threads && OwnsPush(s.threads[u], p) ==> p < s.enq
    ensures u in s.threads && OwnsPop(s.threads[u], p) ==> p < s.deq
  {
    assert u in s.threads ==> ThreadOk(capacity, s, s.threads[u]);
  }

  lemma StepKeepsInv<T>(capacity: nat, s: State<T>, c: Choice<T>)
    requires Inv(capacity, s)
    ensures Inv(capacity, Apply(capacity, s, c))
  {
    hide Slot, CellOk, Exclusive;
    var s' := Apply(capacity, s, c);
    if c.Go? && c.thread in s.threads {
      var t, spurious, pc := c.thread, c.spurious, s.threads[c.thread];
      assert ThreadOk(capacity, s, pc);
      match pc
      case PushLoadPos(_) => QuietStep(capacity, s, s', t);
      case PushLoadSeq(_, _) => QuietStep(capacity, s, s', t);
      case PushCas(_, pos) =>
        if s.enq == pos && !spurious { PushClaims(capacity, s, t); } else { QuietStep(capacity, s, s', t); }
      case PushStore(_, _) => PushStores(capacity, s, t, spurious);
      case PushPublish(_) => PushPublishes(capacity, s, t, spurious);
      case PopLoadPos => QuietStep(capacity, s, s', t);
      case PopLoadSeq(_) => QuietStep(capacity, s, s', t);
      case PopCas(pos) =>
        if s.deq == pos && !spurious { PopClaims(capacity, s, t); } else { QuietStep(capacity, s, s', t); }
      case PopTake(_) => PopTakes(capacity, s, t, spurious);
      case PopRelease(_, _) => PopReleases(capacity, s, t, spurious);
    } else if !c.Go? && c.thread !in s.threads {
      QuietStep(capacity, s, s', c.thread);
    }
  }

  lemma {:induction false} RunKeepsInv<T>(capacity: nat, s: State<T>, schedule: seq<Choice<T>>)
    requires Inv(capacity, s)
    ensures Inv(capacity, RunFrom(capacity, s, schedule))
    decreases |schedule|
  {
    hide Apply;
    if schedule != [] {
      StepKeepsInv(capacity, s, schedule[0]);
      RunKeepsInv(capacity, Apply(capacity, s, schedule[0]), schedule[1..]);
    }
  }

  // ---------------------------------------------------------------------------
  // Main results
  // ---------------------------------------------------------------------------

  /** The elements inside the queue, oldest first. */
  function Contents<T>(s: State<T>): seq<T>
    requires s.deq <= s.enq == |s.pushed|
  {
    s.pushed[s.deq..]
  }

  /** Two threads in the middle of accessing cells are never at the same cell. */
  ghost predicate NoSharedCell<T>(capacity: nat, s: State<T>)
    requires capacity > 0
  {
    forall t: nat, u: nat, p: nat, q: nat ::
      t in s.threads && u in s.threads && t != u
      && (OwnsPush(s.threads[t], p) || OwnsPop(s.threads[t], p))
      && (OwnsPush(s.threads[u], q) || OwnsPop(s.threads[u], q))
      ==> Slot(capacity, p) != Slot(capacity, q)
  }

  /** After any schedule: the occupancy is within bounds, every answered pop returned exactly
      the item pushed under its ticket, and no cell's data is accessed by two threads. */
  lemma EveryRunIsSafe<T>(capacity: nat, schedule: seq<Choice<T>>)
    requires capacity >= 2
    ensures var s := Run(capacity, schedule);
            && s.deq <= s.enq <= s.deq + capacity
            && |s.pushed| == s.enq
            && (forall k :: k in s.popped ==> k < s.deq && s.popped[k] == Some(s.pushed[k]))
            && NoSharedCell(capacity, s)
  {
    InitialInv<T>(capacity);
    RunKeepsInv(capacity, Initial<T>(capacity), schedule);
    NobodySharesACell(capacity, Run(capacity, schedule));
  }

  lemma NobodySharesACell<T>(capacity: nat, s: State<T>)
    requires Inv(capacity, s)
    ensures NoSharedCell(capacity, s)
  {
    forall t: nat, u: nat, p: nat, q: nat |
      t in s.threads && u in s.threads && t != u
      && (OwnsPush(s.threads[t], p) || OwnsPop(s.threads[t], p))
      && (OwnsPush(s.threads[u], q) || OwnsPop(s.threads[u], q))
      ensures Slot(capacity, p) != Slot(capacity, q)
    {
      hide Inv, Slot, OwnsPush, OwnsPop;
      OwnersAreApart(capacity, s, t, u, p, q);
    }
  }

  lemma OwnersAreApart<T>(capacity: nat, s: State<T>, t: nat, u: nat, p: nat, q: nat)
    requires Inv(capacity, s) && t in s.threads && u in s.threads && t != u
    requires OwnsPush(s.threads[t], p) || OwnsPop(s.threads[t], p)
    requires OwnsPush(s.threads[u], q) || OwnsPop(s.threads[u], q)
    ensures Slot(capacity, p) != Slot(capacity, q)
  {
    hide Slot, CellOk;
    assert ThreadOk(capacity, s, s.threads[t]) && ThreadOk(capacity, s, s.threads[u]);
  }

  /** Once no call is in progress, the answers are the pushed items, in push order, none
      missing and none twice, and every cell is ready for its next ticket. */
  lemma QuiescentRunAnswersInOrder<T>(capacity: nat, schedule: seq<Choice<T>>)
    requires capacity >= 2
    requires Run(capacity, schedule).threads == map[]
    ensures var s := Run(capacity, schedule);
            && |s.pushed| == s.enq >= s.deq
            && s.popped == (map k: nat | k < s.deq :: Some(s.pushed[k]))
            && (forall k: nat :: s.deq <= k < s.enq ==> s.cells[Slot(capacity, k)] == Cell(k + 1, Some(s.pushed[k])))
  {
    InitialInv<T>(capacity);
    RunKeepsInv(capacity, Initial<T>(capacity), schedule);
    var s := Run(capacity, schedule);
    forall k: nat | s.deq <= k < s.enq ensures s.cells[Slot(capacity, k)] == Cell(k + 1, Some(s.pushed[k])) {
      ServedTicket(capacity, s, k);
    }
  }

  /** The cell of a ticket between the two positions serves that ticket. */
  lemma ServedTicket<T>(capacity: nat, s: State<T>, k: nat)
    requires Inv(capacity, s) && s.deq <= k < s.deq + capacity
    ensures CellOk(capacity, s, Slot(capacity, k))
    ensures s.turn[Slot(capacity, k)] == k
            || (s.turn[Slot(capacity, k)] == k - capacity && PopOwned(s, k - capacity) && k >= s.enq)
  {
    var i := Slot(capacity, k);
    assert CellOk(capacity, s, i);
    var p := s.turn[i];
    CongruentWithin(capacity, p, k);
  }

  /** What a step means for a bounded first-in first-out queue. */
  datatype FifoEvent<T> = Internal | Enqueue(item: T) | Dequeue(item: T)

  predicate FifoStep<T(==)>(capacity: nat, q: seq<T>, e: FifoEvent<T>, q': seq<T>) {
    match e
    case Internal => q' == q
    case Enqueue(item) => |q| < capacity && q' == q + [item]
    case Dequeue(item) => q != [] && item == q[0] && q' == q[1..]
  }

  /** The successful compare-exchanges are the linearization points. A pop's event carries
      the value that the cell holds at that moment, which is the value it will return. */
  function EventOf<T>(capacity: nat, s: State<T>, c: Choice<T>): FifoEvent<T>
    requires Shape(capacity, s)
  {
    if c.Go? && !c.spurious && c.thread in s.threads then
      match s.threads[c.thread]
      case PushCas(item, pos) => if s.enq == pos then Enqueue(item) else Internal
      case PopCas(pos) =>
        if s.deq == pos then
          match s.cells[Slot(capacity, pos)].data
          case Some(x) => Dequeue(x)
          case None => Internal
        else Internal
      case _ => Internal
    else Internal
  }

  function Events<T>(capacity: nat, s: State<T>, schedule: seq<Choice<T>>): seq<FifoEvent<T>>
    requires Shape(capacity, s)
    decreases |schedule|
  {
    if schedule == [] then []
    else [EventOf(capacity, s, schedule[0])] + Events(capacity, Apply(capacity, s, schedule[0]), schedule[1..])
  }

  /** `events` is a run of a bounded queue from contents `q` to contents `q'`. */
  predicate FifoRun<T(==)>(capacity: nat, q: seq<T>, events: seq<FifoEvent<T>>, q': seq<T>)
    decreases |events|
  {
    if events == [] then q' == q
    else match events[0]
      case Internal => FifoRun(capacity, q, events[1..], q')
      case Enqueue(item) => |q| < capacity && FifoRun(capacity, q + [item], events[1..], q')
      case Dequeue(item) => q != [] && item == q[0] && FifoRun(capacity, q[1..], events[1..], q')
  }

  lemma StepRefinesFifo<T>(capacity: nat, s: State<T>, c: Choice<T>)
    requires Inv(capacity, s)
    ensures Inv(capacity, Apply(capacity, s, c))
    ensures FifoStep(capacity, Contents(s), EventOf(capacity, s, c), Contents(Apply(capacity, s, c)))
  {
    StepKeepsInv(capacity, s, c);
    if c.Go? && c.thread in s.threads && !c.spurious {
      ClaimRefinesFifo(capacity, s, c.thread);
    }
  }

  /** The two claiming compare-exchanges are the queue operations. */
  lemma ClaimRefinesFifo<T>(capacity: nat, s: State<T>, t: nat)
    requires Inv(capacity, s) && t in s.threads
    ensures s.threads[t].PushCas? && s.threads[t].pos == s.enq ==> s.enq < s.deq + capacity
    ensures s.threads[t].PopCas? && s.threads[t].pos == s.deq
            ==> s.deq < s.enq && s.cells[Slot(capacity, s.deq)].data == Some(s.pushed[s.deq])
  {
    hide Slot, PushOwned, PopOwned, Exclusive;
    assert ThreadOk(capacity, s, s.threads[t]);
    SequenceTellsTurn(capacity, s, s.enq);
    SequenceTellsTurn(capacity, s, s.deq);
  }

  lemma {:induction false} RunRefinesFifo<T>(capacity: nat, s: State<T>, schedule: seq<Choice<T>>)
    requires Inv(capacity, s)
    ensures Inv(capacity, RunFrom(capacity, s, schedule))
    ensures FifoRun(capacity, Contents(s), Events(capacity, s, schedule), Contents(RunFrom(capacity, s, schedule)))
    decreases |schedule|
  {
    if schedule != [] {
      StepRefinesFifo(capacity, s, schedule[0]);
      RunRefinesFifo(capacity, Apply(capacity, s, schedule[0]), schedule[1..]);
    }
  }

  /** Every interleaving from the empty queue refines one run of a bounded first-in first-out queue. */
  lemma EveryRunRefinesFifo<T>(capacity: nat, schedule: seq<Choice<T>>)
    requires capacity >= 2
    ensures var s := Run(capacity, schedule);
            && s.deq <= s.enq == |s.pushed|
            && FifoRun(capacity, [], Events(capacity, Initial<T>(capacity), schedule), Contents(s))
  {
    InitialInv<T>(capacity);
    RunRefinesFifo(capacity, Initial<T>(capacity), schedule);
  }

  /** A push refuses exactly when, at that load, the queue is full or the pop that empties
      the cell of the next ticket is still in progress. */
  lemma PushRefusal<T>(capacity: nat, s: State<T>, t: nat, spurious: bool)
    requires Inv(capacity, s) && t in s.threads && s.threads[t].PushLoadSeq?
    ensures t !in StepPush(capacity, s, t, spurious).threads
            <==> s.threads[t].pos == s.enq
                 && (s.enq == s.deq + capacity || (s.enq >= capacity && PopOwned(s, s.enq - capacity)))
  {
    var pos := s.threads[t].pos;
    assert ThreadOk(capacity, s, s.threads[t]);
    var p := s.turn[Slot(capacity, pos)];
    assert CellOk(capacity, s, Slot(capacity, pos));
    CongruentWithin(capacity, p, pos);
    if pos == s.enq && s.enq >= capacity && PopOwned(s, s.enq - capacity) {
      OwnedPopServes(capacity, s, s.enq - capacity);
    }
  }

  /** A pop refuses exactly when, at that load, the queue is empty or the push of its oldest
      element is still in progress. */
  lemma PopRefusal<T>(capacity: nat, s: State<T>, t: nat, spurious: bool)
    requires Inv(capacity, s) && t in s.threads && s.threads[t].PopLoadSeq?
    ensures t !in StepPop(capacity, s, t, spurious).threads
            <==> s.threads[t].pos == s.deq && (s.enq == s.deq || PushOwned(s, s.deq))
  {
    var pos := s.threads[t].pos;
    assert ThreadOk(capacity, s, s.threads[t]);
    var p := s.turn[Slot(capacity, pos)];
    assert CellOk(capacity, s, Slot(capacity, pos));
    CongruentWithin(capacity, p, pos);
    if PushOwned(s, s.deq) {
      var u :| u in s.threads && OwnsPush(s.threads[u], s.deq);
      assert ThreadOk(capacity, s, s.threads[u]);
    }
  }

  lemma OwnedPopServes<T>(capacity: nat, s: State<T>, p: nat)
    requires Inv(capacity, s) && PopOwned(s, p)
    ensures p < s.deq && s.turn[Slot(capacity, p + capacity)] == p
    ensures s.cells[Slot(capacity, p + capacity)].sequence == p + 1
  {
    var u :| u in s.threads && OwnsPop(s.threads[u], p);
    assert ThreadOk(capacity, s, s.threads[u]);
    NeighbourTurns(capacity, p);
  }

  /** A call ends only where it completes or refuses: losing a race, or failing a weak
      compare-exchange for no reason, keeps the thread in its call. */
  lemma CallEndsExactly<T>(capacity: nat, s: State<T>, t: nat, spurious: bool)
    requires Inv(capacity, s) && t in s.threads
    ensures var pc := s.threads[t];
            t !in Apply(capacity, s, Go(t, spurious)).threads
            <==> pc.PushPublish? || pc.PopRelease?
                 || (pc.PushLoadSeq? && pc.pos == s.enq && !RoomFree(capacity, s))
                 || (pc.PopLoadSeq? && pc.pos == s.deq && !OldestReady(s))
  {
    hide Slot, CellOk, TicketsOk, Exclusive, ThreadOk, PushOwned, PopOwned;
    if s.threads[t].PushLoadSeq? {
      PushRefusal(capacity, s, t, spurious);
    } else if s.threads[t].PopLoadSeq? {
      PopRefusal(capacity, s, t, spurious);
    }
  }

  /** The queue is not full, and the pop that empties the cell of the next ticket has finished. */
  ghost predicate RoomFree<T>(capacity: nat, s: State<T>) {
    s.enq < s.deq + capacity && !(s.enq >= capacity && PopOwned(s, s.enq - capacity))
  }

  /** The queue is not empty, and the push of its oldest element has finished. */
  ghost predicate OldestReady<T>(s: State<T>) {
    s.deq < s.enq && !PushOwned(s, s.deq)
  }

  lemma NextCells<T>(capacity: nat, s: State<T>)
    requires Inv(capacity, s)
    ensures RoomFree(capacity, s) ==> s.cells[Slot(capacity, s.enq)].sequence == s.enq
    ensures !RoomFree(capacity, s) ==> s.cells[Slot(capacity, s.enq)].sequence < s.enq
    ensures OldestReady(s) ==> s.cells[Slot(capacity, s.deq)] == Cell(s.deq + 1, Some(s.pushed[s.deq]))
    ensures !OldestReady(s) ==> s.cells[Slot(capacity, s.deq)].sequence < s.deq + 1
  {
    NextCellToFill(capacity, s);
    NextCellToEmpty(capacity, s);
  }

  lemma NextCellToFill<T>(capacity: nat, s: State<T>)
    requires Inv(capacity, s)
    ensures RoomFree(capacity, s) ==> s.cells[Slot(capacity, s.enq)].sequence == s.enq
    ensures !RoomFree(capacity, s) ==> s.cells[Slot(capacity, s.enq)].sequence < s.enq
  {
    hide Slot, PopOwned, PushOwned, ThreadOk, Exclusive;
    var i := Slot(capacity, s.enq);
    assert CellOk(capacity, s, i);
    CongruentWithin(capacity, s.turn[i], s.enq);
    if s.enq >= capacity && PopOwned(s, s.enq - capacity) {
      OwnedPopServes(capacity, s, s.enq - capacity);
    }
  }

  lemma NextCellToEmpty<T>(capacity: nat, s: State<T>)
    requires Inv(capacity, s)
    ensures OldestReady(s) ==>
              |s.pushed| == s.enq && s.cells[Slot(capacity, s.deq)] == Cell(s.deq + 1, Some(s.pushed[s.deq]))
    ensures !OldestReady(s) ==> s.cells[Slot(capacity, s.deq)].sequence < s.deq + 1
  {
    hide Slot, PopOwned, PushOwned, ThreadOk, Exclusive;
    var j := Slot(capacity, s.deq);
    assert CellOk(capacity, s, j);
    CongruentWithin(capacity, s.turn[j], s.deq);
    if PushOwned(s, s.deq) {
      OwnedPushServes(capacity, s, s.deq);
    }
  }

  lemma OwnedPushServes<T>(capacity: nat, s: State<T>, p: nat)
    requires Inv(capacity, s) && PushOwned(s, p)
    ensures p < s.enq && s.cells[Slot(capacity, p)].sequence == p
  {
    var u :| u in s.threads && OwnsPush(s.threads[u], p);
    assert ThreadOk(capacity, s, s.threads[u]);
  }

  // ---------------------------------------------------------------------------
  // A call that is not disturbed any more
  // ---------------------------------------------------------------------------

  /** `n` turns of thread `t` in a row. */
  function Turns<T>(capacity: nat, s: State<T>, t: nat, n: nat): (s': State<T>)
    requires Shape(capacity, s)
    ensures Shape(capacity, s')
    decreases n
  {
    if n == 0 then s else Turns(capacity, Apply(capacity, s, Go(t, false)), t, n - 1)
  }

  /** The longest way from inside a call to its end. */
  const ENOUGH: nat := 7

  lemma {:induction false} NoTurnsLeft<T>(capacity: nat, s: State<T>, t: nat, n: nat)
    requires Shape(capacity, s) && t !in s.threads
    ensures Turns(capacity, s, t, n) == s
    decreases n
  {
    if n > 0 {
      NoTurnsLeft(capacity, s, t, n - 1);
    }
  }

  lemma AtAgain<T>(s: State<T>, t: nat, pc: Pc<T>, pc': Pc<T>)
    ensures At(At(s, t, pc), t, pc') == At(s, t, pc') && Leave(At(s, t, pc), t) == Leave(s, t)
    ensures t in s.threads ==> At(s, t, s.threads[t]) == s
  {
    assert s.threads[t := pc][t := pc'] == s.threads[t := pc'];
    assert s.threads[t := pc] - {t} == s.threads - {t};
    assert t in s.threads ==> s.threads[t := s.threads[t]] == s.threads;
  }

  /** The cell of ticket `pos` filled and published. */
  function Filled<T>(capacity: nat, s: State<T>, pos: nat, item: T): State<T>
    requires Shape(capacity, s)
  {
    s.(cells := s.cells[Slot(capacity, pos) := Cell(pos + 1, Some(item))])
  }

  /** The cell of ticket `pos` emptied for its next turn, and the ticket answered. */
  function Emptied<T>(capacity: nat, s: State<T>, pos: nat, got: Option<T>): State<T>
    requires Shape(capacity, s)
  {
    var i := Slot(capacity, pos);
    s.(cells := s.cells[i := Cell(pos + capacity, None)], turn := s.turn[i := pos + capacity],
       popped := s.popped[pos := got])
  }

  lemma StoreThenPublish<T>(capacity: nat, s: State<T>, t: nat, item: T, pos: nat, n: nat)
    requires Shape(capacity, s) && n >= 2 && s.cells[Slot(capacity, pos)].sequence == pos
    ensures Turns(capacity, At(s, t, PushStore(item, pos)), t, n) == Leave(Filled(capacity, s, pos, item), t)
  {
    hide Slot;
    var i := Slot(capacity, pos);
    var stored := s.(cells := s.cells[i := s.cells[i].(data := Some(item))]);
    AtAgain(stored, t, PushStore(item, pos), PushPublish(pos));
    assert Apply(capacity, At(s, t, PushStore(item, pos)), Go(t, false)) == At(stored, t, PushPublish(pos));
    AtAgain(Filled(capacity, s, pos, item), t, PushPublish(pos), PushPublish(pos));
    assert Apply(capacity, At(stored, t, PushPublish(pos)), Go(t, false)) == Leave(Filled(capacity, s, pos, item), t);
    NoTurnsLeft(capacity, Leave(Filled(capacity, s, pos, item), t), t, n - 2);
  }

  lemma TakeThenRelease<T>(capacity: nat, s: State<T>, t: nat, pos: nat, n: nat)
    requires Shape(capacity, s) && n >= 2
    ensures Turns(capacity, At(s, t, PopTake(pos)), t, n)
            == Leave(Emptied(capacity, s, pos, s.cells[Slot(capacity, pos)].data), t)
  {
    hide Slot;
    var i := Slot(capacity, pos);
    var got := s.cells[i].data;
    var taken := s.(cells := s.cells[i := s.cells[i].(data := None)]);
    AtAgain(taken, t, PopTake(pos), PopRelease(pos, got));
    assert Apply(capacity, At(s, t, PopTake(pos)), Go(t, false)) == At(taken, t, PopRelease(pos, got));
    AtAgain(Emptied(capacity, s, pos, got), t, PopRelease(pos, got), PopRelease(pos, got));
    assert Apply(capacity, At(taken, t, PopRelease(pos, got)), Go(t, false))
           == Leave(Emptied(capacity, s, pos, got), t);
    NoTurnsLeft(capacity, Leave(Emptied(capacity, s, pos, got), t), t, n - 2);
  }

  /** What a push that has claimed nothing yet makes of the state in the end. */
  ghost function PushOutcome<T>(capacity: nat, s: State<T>, t: nat, item: T): State<T>
    requires Shape(capacity, s)
  {
    if RoomFree(capacity, s)
    then Leave(Filled(capacity, s.(enq := s.enq + 1, pushed := s.pushed + [item]), s.enq, item), t)
    else Leave(s, t)
  }

  ghost function PopOutcome<T>(capacity: nat, s: State<T>, t: nat): State<T>
    requires Shape(capacity, s) && |s.pushed| == s.enq
  {
    if OldestReady(s)
    then Leave(Emptied(capacity, s.(deq := s.deq + 1), s.deq, Some(s.pushed[s.deq])), t)
    else Leave(s, t)
  }

  lemma PushFromCurrent<T>(capacity: nat, s: State<T>, t: nat, item: T, n: nat)
    requires Inv(capacity, s) && n >= 4
    ensures Turns(capacity, At(s, t, PushLoadSeq(item, s.enq)), t, n) == PushOutcome(capacity, s, t, item)
    ensures RoomFree(capacity, s) ==>
              Turns(capacity, At(s, t, PushCas(item, s.enq)), t, n - 1) == PushOutcome(capacity, s, t, item)
  {
    hide Slot, CellOk, TicketsOk, Exclusive, ThreadOk, RoomFree, OldestReady, Filled;
    NextCells(capacity, s);
    var here := At(s, t, PushLoadSeq(item, s.enq));
    if RoomFree(capacity, s) {
      var claimed := s.(enq := s.enq + 1, pushed := s.pushed + [item]);
      AtAgain(s, t, PushLoadSeq(item, s.enq), PushCas(item, s.enq));
      assert Apply(capacity, here, Go(t, false)) == At(s, t, PushCas(item, s.enq));
      AtAgain(claimed, t, PushCas(item, s.enq), PushStore(item, s.enq));
      assert Apply(capacity, At(s, t, PushCas(item, s.enq)), Go(t, false)) == At(claimed, t, PushStore(item, s.enq));
      StoreThenPublish(capacity, claimed, t, item, s.enq, n - 2);
    } else {
      AtAgain(s, t, PushLoadSeq(item, s.enq), PushLoadSeq(item, s.enq));
      assert Apply(capacity, here, Go(t, false)) == Leave(s, t);
      NoTurnsLeft(capacity, Leave(s, t), t, n - 1);
    }
  }

  lemma PopFromCurrent<T>(capacity: nat, s: State<T>, t: nat, n: nat)
    requires Inv(capacity, s) && n >= 4
    ensures Turns(capacity, At(s, t, PopLoadSeq(s.deq)), t, n) == PopOutcome(capacity, s, t)
    ensures OldestReady(s) ==> Turns(capacity, At(s, t, PopCas(s.deq)), t, n - 1) == PopOutcome(capacity, s, t)
  {
    hide Slot, CellOk, TicketsOk, Exclusive, ThreadOk, RoomFree, PushOwned, Emptied;
    NextCells(capacity, s);
    assert |s.pushed| == s.enq by { PushedIsCounted(capacity, s); }
    var here := At(s, t, PopLoadSeq(s.deq));
    if OldestReady(s) {
      var claimed := s.(deq := s.deq + 1);
      AtAgain(s, t, PopLoadSeq(s.deq), PopCas(s.deq));
      assert Apply(capacity, here, Go(t, false)) == At(s, t, PopCas(s.deq));
      AtAgain(claimed, t, PopCas(s.deq), PopTake(s.deq));
      assert Apply(capacity, At(s, t, PopCas(s.deq)), Go(t, false)) == At(claimed, t, PopTake(s.deq));
      TakeThenRelease(capacity, claimed, t, s.deq, n - 2);
    } else {
      AtAgain(s, t, PopLoadSeq(s.deq), PopLoadSeq(s.deq));
      assert Apply(capacity, here, Go(t, false)) == Leave(s, t);
      NoTurnsLeft(capacity, Leave(s, t), t, n - 1);
    }
  }

  lemma PushedIsCounted<T>(capacity: nat, s: State<T>)
    requires Inv(capacity, s)
    ensures |s.pushed| == s.enq
  {
  }

  /** From the middle of any push, wherever races have left it, the thread alone returns; a push
      that has claimed nothing yet succeeds exactly when there is room and the pop of the next
      cell has finished, and otherwise changes nothing. */
  lemma PushReturns<T>(capacity: nat, s: State<T>, t: nat)
    requires Inv(capacity, s) && t in s.threads && Pushing(s.threads[t])
    ensures var pc, s' := s.threads[t], Turns(capacity, s, t, ENOUGH);
            if pc.PushStore? || pc.PushPublish?
            then pc.pos < |s.pushed| && s' == Leave(Filled(capacity, s, pc.pos, s.pushed[pc.pos]), t)
            else s' == PushOutcome(capacity, s, t, pc.item)
  {
    hide Slot, CellOk, Exclusive, PushOutcome, RoomFree, Turns;
    var pc := s.threads[t];
    assert ThreadOk(capacity, s, pc);
    AtAgain(s, t, pc, pc);
    match pc
    case PushLoadPos(item) =>
      FirstTurn(capacity, s, t, ENOUGH);
      PushFromCurrent(capacity, s, t, item, ENOUGH - 1);
    case PushLoadSeq(item, pos) => PushFromLoad(capacity, s, t);
    case PushCas(item, pos) =>
      if pos == s.enq {
        NextCells(capacity, s);
        PushFromCurrent(capacity, s, t, item, ENOUGH + 1);
      } else {
        FirstTurn(capacity, s, t, ENOUGH);
        PushFromCurrent(capacity, s, t, item, ENOUGH - 1);
      }
    case PushStore(item, pos) => StoreThenPublish(capacity, s, t, item, pos, ENOUGH);
    case PushPublish(pos) =>
      FirstTurn(capacity, s, t, ENOUGH);
      NoTurnsLeft(capacity, Leave(Filled(capacity, s, pos, s.pushed[pos]), t), t, ENOUGH - 1);
  }

  lemma FirstTurn<T>(capacity: nat, s: State<T>, t: nat, n: nat)
    requires Shape(capacity, s) && n > 0
    ensures Turns(capacity, s, t, n) == Turns(capacity, Apply(capacity, s, Go(t, false)), t, n - 1)
  {
  }

  /** A stale position is found out, and read anew. */
  lemma PushFromLoad<T>(capacity: nat, s: State<T>, t: nat)
    requires Inv(capacity, s) && t in s.threads && s.threads[t].PushLoadSeq?
    ensures Turns(capacity, s, t, ENOUGH) == PushOutcome(capacity, s, t, s.threads[t].item)
  {
    hide Slot, CellOk, Exclusive, PushOutcome, RoomFree, Turns;
    var item, pos := s.threads[t].item, s.threads[t].pos;
    AtAgain(s, t, s.threads[t], s.threads[t]);
    if pos == s.enq {
      PushFromCurrent(capacity, s, t, item, ENOUGH);
    } else {
      PushRefusal(capacity, s, t, false);
      FirstTurn(capacity, s, t, ENOUGH);
      PushFromCurrent(capacity, s, t, item, ENOUGH - 2);
      if s.cells[Slot(capacity, pos)].sequence == pos {
        AtAgain(s, t, PushCas(item, pos), PushLoadSeq(item, s.enq));
        FirstTurn(capacity, At(s, t, PushCas(item, pos)), t, ENOUGH - 1);
      } else {
        AtAgain(s, t, PushLoadPos(item), PushLoadSeq(item, s.enq));
        FirstTurn(capacity, At(s, t, PushLoadPos(item)), t, ENOUGH - 1);
      }
    }
  }

  /** From the middle of any pop the thread alone returns; a pop that has claimed nothing yet
      succeeds exactly when there is an element whose push has finished, takes the oldest, and
      otherwise changes nothing. */
  lemma PopReturns<T>(capacity: nat, s: State<T>, t: nat)
    requires Inv(capacity, s) && t in s.threads && !Pushing(s.threads[t])
    ensures var pc, s' := s.threads[t], Turns(capacity, s, t, ENOUGH);
            |s.pushed| == s.enq
            && if pc.PopTake? || pc.PopRelease?
               then pc.pos < s.enq && s' == Leave(Emptied(capacity, s, pc.pos, Some(s.pushed[pc.pos])), t)
               else s' == PopOutcome(capacity, s, t)
  {
    hide Slot, CellOk, Exclusive, PopOutcome, OldestReady, Turns;
    var pc := s.threads[t];
    assert ThreadOk(capacity, s, pc);
    AtAgain(s, t, pc, pc);
    match pc
    case PopLoadPos =>
      FirstTurn(capacity, s, t, ENOUGH);
      PopFromCurrent(capacity, s, t, ENOUGH - 1);
    case PopLoadSeq(pos) => PopFromLoad(capacity, s, t);
    case PopCas(pos) =>
      if pos == s.deq {
        NextCells(capacity, s);
        PopFromCurrent(capacity, s, t, ENOUGH + 1);
      } else {
        FirstTurn(capacity, s, t, ENOUGH);
        PopFromCurrent(capacity, s, t, ENOUGH - 1);
      }
    case PopTake(pos) => TakeThenRelease(capacity, s, t, pos, ENOUGH);
    case PopRelease(pos, got) =>
      FirstTurn(capacity, s, t, ENOUGH);
      NoTurnsLeft(capacity, Leave(Emptied(capacity, s, pos, got), t), t, ENOUGH - 1);
  }

  lemma PopFromLoad<T>(capacity: nat, s: State<T>, t: nat)
    requires Inv(capacity, s) && t in s.threads && s.threads[t].PopLoadSeq?
    ensures |s.pushed| == s.enq && Turns(capacity, s, t, ENOUGH) == PopOutcome(capacity, s, t)
  {
    hide Slot, CellOk, Exclusive, PopOutcome, OldestReady, Turns;
    var pos := s.threads[t].pos;
    AtAgain(s, t, s.threads[t], s.threads[t]);
    if pos == s.deq {
      PopFromCurrent(capacity, s, t, ENOUGH);
    } else {
      PopRefusal(capacity, s, t, false);
      FirstTurn(capacity, s, t, ENOUGH);
      PopFromCurrent(capacity, s, t, ENOUGH - 2);
      if s.cells[Slot(capacity, pos)].sequence == pos + 1 {
        AtAgain(s, t, PopCas(pos), PopLoadSeq(s.deq));
        FirstTurn(capacity, At(s, t, PopCas(pos)), t, ENOUGH - 1);
      } else {
        AtAgain(s, t, PopLoadPos, PopLoadSeq(s.deq));
        FirstTurn(capacity, At(s, t, PopLoadPos), t, ENOUGH - 1);
      }
    }
  }

  // ---------------------------------------------------------------------------
  // A call that runs alone
  // ---------------------------------------------------------------------------

  /** A call, then five steps of its thread: load, load, compare-exchange, data, sequence. */
  function Solo<T>(call: Choice<T>): seq<Choice<T>> {
    var go := Go(call.thread, false);
    [call] + ([go] + ([go] + ([go] + ([go] + ([go] + [])))))
  }

  lemma NoSteps<T>(capacity: nat, s: State<T>)
    requires Shape(capacity, s)
    ensures RunFrom(capacity, s, []) == s
  {
  }

  lemma FrontStep<T>(capacity: nat, s: State<T>, c: Choice<T>, rest: seq<Choice<T>>)
    requires Shape(capacity, s)
    ensures RunFrom(capacity, s, [c] + rest) == RunFrom(capacity, Apply(capacity, s, c), rest)
  {
    hide Apply;
    assert ([c] + rest)[1..] == rest;
  }

  lemma SoloRun<T>(capacity: nat, s: State<T>, call: Choice<T>)
    requires Shape(capacity, s)
    ensures var go := Choice<T>.Go(call.thread, false);
            RunFrom(capacity, s, Solo(call))
            == Apply(capacity, Apply(capacity, Apply(capacity, Apply(capacity, Apply(capacity,
                 Apply(capacity, s, call), go), go), go), go), go)
  {
    hide Apply, RunFrom;
    var go := Choice<T>.Go(call.thread, false);
    var s1 := Apply(capacity, s, call);
    var s2 := Apply(capacity, s1, go);
    var s3 := Apply(capacity, s2, go);
    var s4 := Apply(capacity, s3, go);
    var s5 := Apply(capacity, s4, go);
    FrontStep(capacity, s, call, [go] + ([go] + ([go] + ([go] + ([go] + [])))));
    FrontStep(capacity, s1, go, [go] + ([go] + ([go] + ([go] + []))));
    FrontStep(capacity, s2, go, [go] + ([go] + ([go] + [])));
    FrontStep(capacity, s3, go, [go] + ([go] + []));
    FrontStep(capacity, s4, go, [go] + []);
    FrontStep(capacity, s5, go, []);
    NoSteps(capacity, Apply(capacity, s5, go));
  }

  /** Six uninterrupted steps complete a push on a cell whose number matches. */
  lemma PushOnMatchingCell<T>(capacity: nat, s: State<T>, t: nat, item: T)
    requires Shape(capacity, s) && s.threads == map[]
    requires s.cells[Slot(capacity, s.enq)].sequence == s.enq
    ensures var s' := RunFrom(capacity, s, Solo(CallPush(t, item)));
            s' == s.(enq := s.enq + 1, pushed := s.pushed + [item],
                     cells := s.cells[Slot(capacity, s.enq) := Cell(s.enq + 1, Some(item))])
  {
    hide Slot, RunFrom, Solo;
    SoloRun(capacity, s, CallPush(t, item));
    var go, e := Go(t, false), s.enq;
    var s1 := Apply(capacity, s, CallPush(t, item));
    var s2 := Apply(capacity, s1, go);
    assert s2.threads == map[t := PushLoadSeq(item, e)];
    var s3 := Apply(capacity, s2, go);
    assert s3.threads == map[t := PushCas(item, e)];
    var s4 := Apply(capacity, s3, go);
    assert s4.threads == map[t := PushStore(item, e)];
    var s5 := Apply(capacity, s4, go);
    assert s5.threads == map[t := PushPublish(e)];
    var s6 := Apply(capacity, s5, go);
    assert s6.threads == map[];
  }

  /** With no other call in progress a push succeeds exactly when there is room, and then
      appends its item; refused, it changes nothing. */
  lemma PushAlone<T>(capacity: nat, s: State<T>, t: nat, item: T)
    requires Inv(capacity, s) && s.threads == map[]
    ensures var s' := RunFrom(capacity, s, Solo(CallPush(t, item)));
            if s.enq < s.deq + capacity
            then s'.threads == map[] && s'.deq == s.deq && s'.pushed == s.pushed + [item] && s'.enq == s.enq + 1
            else s' == s
  {
    NextCells(capacity, s);
    if s.enq < s.deq + capacity {
      PushOnMatchingCell(capacity, s, t, item);
    } else {
      hide Slot, CellOk, TicketsOk;
      SoloRun(capacity, s, CallPush(t, item));
      var go := Go(t, false);
      var s2 := Apply(capacity, Apply(capacity, s, CallPush(t, item)), go);
      assert s2.threads == map[t := PushLoadSeq(item, s.enq)];
      assert Apply(capacity, s2, go).threads == map[];
    }
  }

  lemma StartPop<T>(capacity: nat, s: State<T>, t: nat)
    requires Shape(capacity, s) && s.threads == map[]
    requires s.cells[Slot(capacity, s.deq)].sequence == s.deq + 1
    ensures var go := Choice<T>.Go(t, false);
            Apply(capacity, Apply(capacity, Apply(capacity, Apply(capacity, s, Choice<T>.CallPop(t)), go), go), go)
            == s.(deq := s.deq + 1, threads := map[t := PopTake(s.deq)])
  {
    hide Slot;
    var go := Choice<T>.Go(t, false);
    var s1 := Apply(capacity, s, Choice<T>.CallPop(t));
    var s2 := Apply(capacity, s1, go);
    assert s2.threads == map[t := PopLoadSeq(s.deq)];
    var s3 := Apply(capacity, s2, go);
    assert s3.threads == map[t := PopCas(s.deq)];
    assert Apply(capacity, s3, go).threads == map[t := PopTake(s.deq)];
  }

  lemma FinishPop<T>(capacity: nat, s: State<T>, t: nat)
    requires Shape(capacity, s) && s.threads.Keys == {t} && s.threads[t].PopTake?
    ensures var d := s.threads[t].pos;
            var i := Slot(capacity, d);
            Apply(capacity, Apply(capacity, s, Go(t, false)), Go(t, false))
            == s.(threads := map[], popped := s.popped[d := s.cells[i].data],
                  cells := s.cells[i := Cell(d + capacity, None)], turn := s.turn[i := d + capacity])
  {
    hide Slot;
    var s1 := Apply(capacity, s, Go(t, false));
    assert Apply(capacity, s1, Go(t, false)).threads == map[];
  }

  /** Six uninterrupted steps complete a pop on a cell whose number matches. */
  lemma PopOnMatchingCell<T>(capacity: nat, s: State<T>, t: nat)
    requires Shape(capacity, s) && s.threads == map[]
    requires s.cells[Slot(capacity, s.deq)].sequence == s.deq + 1
    ensures var i, s' := Slot(capacity, s.deq), RunFrom(capacity, s, Solo(Choice<T>.CallPop(t)));
            s' == s.(deq := s.deq + 1, popped := s.popped[s.deq := s.cells[i].data],
                     cells := s.cells[i := Cell(s.deq + capacity, None)], turn := s.turn[i := s.deq + capacity])
  {
    hide Slot, Apply, RunFrom, Solo;
    SoloRun(capacity, s, Choice<T>.CallPop(t));
    StartPop(capacity, s, t);
    FinishPop(capacity, s.(deq := s.deq + 1, threads := map[t := PopTake(s.deq)]), t);
  }

  /** With no other call in progress a pop succeeds exactly when there is an element, and
      then removes and returns the oldest one; refused, it changes nothing. */
  lemma PopAlone<T>(capacity: nat, s: State<T>, t: nat)
    requires Inv(capacity, s) && s.threads == map[]
    ensures var s' := RunFrom(capacity, s, Solo(Choice<T>.CallPop(t)));
            if s.deq < s.enq
            then && s'.threads == map[] && s'.enq == s.enq && s'.pushed == s.pushed && s'.deq == s.deq + 1
                 && s'.popped == s.popped[s.deq := Some(s.pushed[s.deq])]
            else s' == s
  {
    NextCells(capacity, s);
    if s.deq < s.enq {
      PopOnMatchingCell(capacity, s, t);
    } else {
      hide Slot, CellOk, TicketsOk;
      SoloRun(capacity, s, Choice<T>.CallPop(t));
      var go := Choice<T>.Go(t, false);
      var s2 := Apply(capacity, Apply(capacity, s, Choice<T>.CallPop(t)), go);
      assert s2.threads == map[t := PopLoadSeq(s.deq)];
      assert Apply(capacity, s2, go).threads == map[];
    }
  }

  // ---------------------------------------------------------------------------
  // One cell is not enough
  // ---------------------------------------------------------------------------

  predicate Bounded<T>(capacity: nat, schedule: seq<Choice<T>>)
    requires capacity > 0
  {
    var s := Run(capacity, schedule);
    s.deq <= s.enq <= s.deq + capacity
  }

  lemma {:induction false} RunConcat<T>(capacity: nat, s: State<T>, a: seq<Choice<T>>, b: seq<Choice<T>>)
    requires Shape(capacity, s)
    ensures RunFrom(capacity, s, a + b) == RunFrom(capacity, RunFrom(capacity, s, a), b)
    decreases |a|
  {
    if a == [] {
      assert a + b == b;
    } else {
      assert (a + b)[1..] == a[1..] + b;
      RunConcat(capacity, Apply(capacity, s, a[0]), a[1..], b);
    }
  }

  /** With one cell "published" and "free again" are the same number, so a second push
      overwrites the element the first one left. */
  lemma OneCellOverwrites<T>(x: T, y: T)
    ensures var s := Run(1, Solo(CallPush(0, x)) + Solo(CallPush(0, y)));
            s.enq == 2 && s.deq == 0 && s.threads == map[] && s.cells == [Cell(2, Some(y))]
  {
    var s0 := Initial<T>(1);
    RunConcat(1, s0, Solo(CallPush(0, x)), Solo(CallPush(0, y)));
    PushOnMatchingCell(1, s0, 0, x);
    PushOnMatchingCell(1, RunFrom(1, s0, Solo(CallPush(0, x))), 0, y);
  }

  /** Of the declared capacities 1, 2, 4, ... the occupancy bound holds exactly from 2 on. */
  lemma BoundHoldsExactlyFromTwoCells<T>(capacity: nat, x: T)
    requires capacity > 0
    ensures (forall schedule: seq<Choice<T>> :: Bounded(capacity, schedule)) <==> capacity >= 2
  {
    if capacity >= 2 {
      forall schedule: seq<Choice<T>> ensures Bounded(capacity, schedule) {
        EveryRunIsSafe(capacity, schedule);
      }
    } else {
      OneCellOverwrites(x, x);
      assert !Bounded(1, Solo(CallPush(0, x)) + Solo(CallPush(0, x)));
    }
  }
}
