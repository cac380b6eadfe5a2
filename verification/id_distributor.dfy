/** Handing out identifiers to concurrent clients, as a step machine: one step is one atomic
    counter operation or one locked section. The stripes of active identifiers are taken
    together as one set, since an identifier's stripe is a function of the identifier. */
module IdDistributors {
  import opened Numbers

  /** Where a client stands inside a call. */
  datatype Pc =
    | FetchCursor
    | ScanStripe(start: nat, offset: nat)
    | InsertRecycled(id: nat)
    | FetchFresh
    | InsertFresh(id: nat)
    | InsertGiven(id: nat)
    | EraseActive(id: nat)
    | PushFree(id: nat)

  /** `held` and `dropped` are history: which client was handed which identifier and has not
      begun to release it, and identifiers that could not be put on a free list. */
  datatype State = State(
    active: set<nat>,
    free: seq<seq<nat>>,
    nextId: nat,
    cursor: nat,
    calls: map<nat, Pc>,
    held: set<(nat, nat)>,
    dropped: set<nat>)

  datatype Choice =
    | CallAcquire(client: nat)
    | CallOccupy(client: nat, id: nat)
    | CallRelease(client: nat, id: nat)
    | Go(client: nat, pushFails: bool)

  type StripeOf = nat -> nat

  const INVALID_ID: nat := 0

  function Initial(stripes: nat): State {
    State({}, seq(stripes, i => []), 1, 0, map[], {}, {})
  }

  function At(s: State, c: nat, pc: Pc): State {
    s.(calls := s.calls[c := pc])
  }

  function Return(s: State, c: nat): State {
    s.(calls := s.calls - {c})
  }

  /** The locked insertion; a new identifier is handed to the client, else the call goes on. */
  function Insert(s: State, c: nat, id: nat, otherwise: Pc): State {
    if id != INVALID_ID && id !in s.active
    then Return(s.(active := s.active + {id}, held := s.held + {(c, id)}), c)
    else At(s, c, otherwise)
  }

  /** The stripe a scan comes to. */
  function StripeAt(start: nat, offset: nat, stripes: nat): (i: nat)
    requires stripes > 0
    ensures i < stripes
  {
    (start + offset) % stripes
  }

  function Step(stripeOf: StripeOf, s: State, c: nat, pushFails: bool): (s': State)
    requires c in s.calls && |s.free| > 0
    ensures |s'.free| == |s.free|
  {
    match s.calls[c]
    case FetchCursor => At(s.(cursor := s.cursor + 1), c, ScanStripe(s.cursor, 0))
    case ScanStripe(start, offset) =>
      if offset >= |s.free| then At(s, c, FetchFresh)
      else
        var i := StripeAt(start, offset, |s.free|);
        if s.free[i] == [] then At(s, c, ScanStripe(start, offset + 1))
        else
          var last := |s.free[i]| - 1;
          At(s.(free := s.free[i := s.free[i][..last]]), c, InsertRecycled(s.free[i][last]))
    case InsertRecycled(id) => Insert(s, c, id, FetchCursor)
    case FetchFresh => At(s.(nextId := s.nextId + 1), c, InsertFresh(s.nextId))
    case InsertFresh(id) => Insert(s, c, id, FetchFresh)
    case InsertGiven(id) => Insert(s, c, id, FetchCursor)
    case EraseActive(id) =>
      if id in s.active then At(s.(active := s.active - {id}), c, PushFree(id)) else Return(s, c)
    case PushFree(id) =>
      if pushFails then Return(s.(dropped := s.dropped + {id}), c)
      else
        var i := stripeOf(id) % |s.free|;
        Return(s.(free := s.free[i := s.free[i] + [id]]), c)
  }

  /** One choice of the scheduler. Clients make one call at a time and release only what they
      hold; a choice that is not enabled changes nothing. */
  function Apply(stripeOf: StripeOf, s: State, choice: Choice): (s': State)
    requires |s.free| > 0
    ensures |s'.free| == |s.free|
  {
    if choice.Go? then
      if choice.client in s.calls then Step(stripeOf, s, choice.client, choice.pushFails) else s
    else if choice.client in s.calls then s
    else match choice
      case CallAcquire(c) => At(s, c, FetchCursor)
      case CallOccupy(c, id) => At(s, c, if id == INVALID_ID then FetchCursor else InsertGiven(id))
      case CallRelease(c, id) => if (c, id) in s.held then At(s.(held := s.held - {(c, id)}), c, EraseActive(id)) else s
      case Go(_, _) => s
  }

  function Run(stripeOf: StripeOf, stripes: nat, schedule: seq<Choice>): (s: State)
    requires stripes > 0
    ensures |s.free| == stripes
  {
    if schedule == [] then Initial(stripes)
    else Apply(stripeOf, Run(stripeOf, stripes, schedule[..|schedule| - 1]), schedule[|schedule| - 1])
  }

  // ---------------------------------------------------------------------------
  // The invariant
  // ---------------------------------------------------------------------------

  /** The client holds the identifier, or has begun to release it without having erased it. */
  predicate Owns(s: State, c: nat, id: nat) {
    (c, id) in s.held || Releasing(s, c, id)
  }

  predicate Releasing(s: State, c: nat, id: nat) {
    c in s.calls && s.calls[c] == EraseActive(id)
  }

  predicate InFlight(s: State, c: nat, id: nat) {
    c in s.calls && s.calls[c] in {InsertRecycled(id), InsertFresh(id), PushFree(id)}
  }

  predicate OnFreeList(s: State, id: nat) {
    exists i :: 0 <= i < |s.free| && id in s.free[i]
  }

  ghost predicate Owned(s: State, id: nat) {
    exists c: nat :: Owns(s, c, id)
  }

  ghost predicate SomewhereInFlight(s: State, id: nat) {
    exists c: nat :: InFlight(s, c, id)
  }

  /** Nothing is lost: an identifier below the next fresh one is in use or on its way somewhere. */
  ghost predicate Accounted(s: State, id: nat) {
    id in s.active || OnFreeList(s, id) || SomewhereInFlight(s, id) || id in s.dropped
  }

  ghost predicate Inv(s: State) {
    && |s.free| > 0
    && (forall id: nat :: id in s.active <==> Owned(s, id))
    && (forall c: nat, d: nat, id: nat :: Owns(s, c, id) && Owns(s, d, id) ==> c == d)
    && (forall c: nat, id: nat :: (c, id) in s.held ==> !Releasing(s, c, id))
    && INVALID_ID !in s.active
    && s.nextId > 0
    && (forall id: nat :: 0 < id < s.nextId ==> Accounted(s, id))
  }

  lemma InitialInv(stripes: nat)
    requires stripes > 0
    ensures Inv(Initial(stripes))
  {
  }

  /** A step that neither hands out nor takes back an identifier. */
  lemma SameOwners(s: State, s': State)
    requires Inv(s) && |s'.free| > 0 && s'.active == s.active && s'.held == s.held && s'.nextId > 0
    requires forall d: nat, id: nat :: Releasing(s', d, id) <==> Releasing(s, d, id)
    requires forall id: nat :: 0 < id < s'.nextId ==> Accounted(s', id)
    ensures Inv(s')
  {
    forall id: nat ensures id in s'.active <==> Owned(s', id) {
      if Owned(s, id) {
        var d: nat :| Owns(s, d, id);
        assert Owns(s', d, id);
      }
      if Owned(s', id) {
        var d: nat :| Owns(s', d, id);
        assert Owns(s, d, id);
      }
    }
    forall c: nat, d: nat, id: nat | Owns(s', c, id) && Owns(s', d, id) ensures c == d {
      assert Owns(s, c, id) && Owns(s, d, id);
    }
  }

  /** What a step leaves accounted for: everything but what moved, which is named. */
  lemma StillAccounted(s: State, s': State, c: nat, moved: nat, id: nat)
    requires Accounted(s, id) && id != moved
    requires s.active - {moved} <= s'.active && s.dropped <= s'.dropped && |s'.free| == |s.free|
    requires forall i, x :: 0 <= i < |s.free| && x in s.free[i] && x != moved ==> x in s'.free[i]
    requires forall d, x: nat :: d != c && InFlight(s, d, x) ==> InFlight(s', d, x)
    requires forall x: nat :: InFlight(s, c, x) ==> x == moved
    ensures Accounted(s', id)
  {
    if OnFreeList(s, id) {
      var i :| 0 <= i < |s.free| && id in s.free[i];
      assert id in s'.free[i];
    } else if SomewhereInFlight(s, id) {
      var d: nat :| InFlight(s, d, id);
      assert InFlight(s', d, id);
    }
  }

  lemma HandOut(s: State, c: nat, id: nat, otherwise: Pc)
    requires Inv(s) && c in s.calls && (s.calls[c] in {InsertRecycled(id), InsertFresh(id), InsertGiven(id)})
    requires otherwise == FetchCursor || otherwise == FetchFresh
    ensures Inv(Insert(s, c, id, otherwise))
  {
    var s' := Insert(s, c, id, otherwise);
    forall x: nat | 0 < x < s.nextId ensures Accounted(s', x) {
      if x == id {
        assert id in s'.active;
      } else {
        StillAccounted(s, s', c, id, x);
      }
    }
    if id != INVALID_ID && id !in s.active {
      HandOutOwners(s, c, id);
    } else {
      SameOwners(s, s');
    }
  }

  lemma HandOutOwners(s: State, c: nat, id: nat)
    requires Inv(s) && c in s.calls && !s.calls[c].EraseActive? && id !in s.active
    ensures var s' := Return(s.(active := s.active + {id}, held := s.held + {(c, id)}), c);
            && (forall x: nat :: x in s'.active <==> Owned(s', x))
            && (forall d: nat, e: nat, x: nat :: Owns(s', d, x) && Owns(s', e, x) ==> d == e)
            && (forall d: nat, x: nat :: (d, x) in s'.held ==> !Releasing(s', d, x))
  {
    var s' := Return(s.(active := s.active + {id}, held := s.held + {(c, id)}), c);
    assert !Owned(s, id);
    forall d: nat, x: nat ensures Owns(s', d, x) <==> Owns(s, d, x) || (d == c && x == id) {
    }
    forall x: nat ensures x in s'.active <==> Owned(s', x) {
      if x == id {
        assert Owns(s', c, id);
      } else {
        if Owned(s, x) {
          var d: nat :| Owns(s, d, x);
          assert Owns(s', d, x);
        }
        if Owned(s', x) {
          var d: nat :| Owns(s', d, x);
          assert Owns(s, d, x);
        }
      }
    }
    forall d: nat, e: nat, x: nat | Owns(s', d, x) && Owns(s', e, x) ensures d == e {
      if x == id {
        assert !Owns(s, d, id) && !Owns(s, e, id);
      } else {
        assert Owns(s, d, x) && Owns(s, e, x);
      }
    }
  }

  /** Beginning to release moves the identifier from held to releasing. */
  lemma BeginRelease(s: State, c: nat, id: nat)
    requires Inv(s) && c !in s.calls && (c, id) in s.held
    ensures Inv(At(s.(held := s.held - {(c, id)}), c, EraseActive(id)))
  {
    var s' := At(s.(held := s.held - {(c, id)}), c, EraseActive(id));
    forall d: nat, x: nat ensures Owns(s', d, x) <==> Owns(s, d, x) {
    }
    forall x: nat ensures x in s'.active <==> Owned(s', x) {
      if Owned(s, x) {
        var d: nat :| Owns(s, d, x);
        assert Owns(s', d, x);
      }
      if Owned(s', x) {
        var d: nat :| Owns(s', d, x);
        assert Owns(s, d, x);
      }
    }
    forall x: nat | 0 < x < s.nextId ensures Accounted(s', x) {
      StillAccounted(s, s', c, INVALID_ID, x);
    }
  }

  /** Erasing always finds the identifier, and ends the ownership. */
  lemma Erase(s: State, c: nat, id: nat)
    requires Inv(s) && c in s.calls && s.calls[c] == EraseActive(id)
    ensures id in s.active && Inv(At(s.(active := s.active - {id}), c, PushFree(id)))
  {
    assert Owns(s, c, id);
    assert Owned(s, id);
    var s' := At(s.(active := s.active - {id}), c, PushFree(id));
    forall d: nat, x: nat ensures Owns(s', d, x) <==> Owns(s, d, x) && x != id {
      if Owns(s, d, x) && x == id {
        assert d == c;
        assert (c, id) !in s.held;
      }
    }
    forall x: nat ensures x in s'.active <==> Owned(s', x) {
      if Owned(s, x) && x != id {
        var d: nat :| Owns(s, d, x);
        assert Owns(s', d, x);
      }
      if Owned(s', x) {
        var d: nat :| Owns(s', d, x);
        assert Owns(s, d, x);
      }
    }
    forall x: nat | 0 < x < s.nextId ensures Accounted(s', x) {
      if x == id {
        assert InFlight(s', c, id);
      } else {
        StillAccounted(s, s', c, id, x);
      }
    }
  }

  lemma StepKeepsInv(stripeOf: StripeOf, s: State, c: nat, pushFails: bool)
    requires Inv(s) && c in s.calls
    ensures Inv(Step(stripeOf, s, c, pushFails))
  {
    var s' := Step(stripeOf, s, c, pushFails);
    match s.calls[c]
    case FetchCursor => Quiet(s, s', c);
    case ScanStripe(start, offset) =>
      if offset >= |s.free| || s.free[StripeAt(start, offset, |s.free|)] == [] {
        Quiet(s, s', c);
      } else {
        Popped(stripeOf, s, c, pushFails);
      }
    case InsertRecycled(id) => HandOut(s, c, id, FetchCursor);
    case FetchFresh =>
      forall x: nat | 0 < x < s'.nextId ensures Accounted(s', x) {
        if x == s.nextId {
          assert InFlight(s', c, x);
        } else {
          StillAccounted(s, s', c, INVALID_ID, x);
        }
      }
      SameOwners(s, s');
    case InsertFresh(id) => HandOut(s, c, id, FetchFresh);
    case InsertGiven(id) => HandOut(s, c, id, FetchCursor);
    case EraseActive(id) => Erase(s, c, id);
    case PushFree(id) => Pushed(stripeOf, s, c, pushFails);
  }

  lemma Quiet(s: State, s': State, c: nat)
    requires Inv(s) && s'.active == s.active && s'.held == s.held && s'.free == s.free
    requires s'.dropped == s.dropped && s'.nextId == s.nextId
    requires forall d, x: nat :: d != c ==> (InFlight(s, d, x) <==> InFlight(s', d, x))
    requires forall x: nat :: !InFlight(s, c, x)
    requires forall d: nat, id: nat :: Releasing(s', d, id) <==> Releasing(s, d, id)
    ensures Inv(s')
  {
    forall x: nat | 0 < x < s.nextId ensures Accounted(s', x) {
      StillAccounted(s, s', c, INVALID_ID, x);
    }
    SameOwners(s, s');
  }

  lemma Popped(stripeOf: StripeOf, s: State, c: nat, pushFails: bool)
    requires Inv(s) && c in s.calls && s.calls[c].ScanStripe? && s.calls[c].offset < |s.free|
    requires s.free[StripeAt(s.calls[c].start, s.calls[c].offset, |s.free|)] != []
    ensures Inv(Step(stripeOf, s, c, pushFails))
  {
    var s' := Step(stripeOf, s, c, pushFails);
    var i := StripeAt(s.calls[c].start, s.calls[c].offset, |s.free|);
    var id := s.free[i][|s.free[i]| - 1];
    assert s.free[i] == s.free[i][..|s.free[i]| - 1] + [id];
    forall x: nat | 0 < x < s.nextId ensures Accounted(s', x) {
      if x == id {
        assert InFlight(s', c, id);
      } else {
        StillAccounted(s, s', c, id, x);
      }
    }
    SameOwners(s, s');
  }

  lemma Pushed(stripeOf: StripeOf, s: State, c: nat, pushFails: bool)
    requires Inv(s) && c in s.calls && s.calls[c].PushFree?
    ensures Inv(Step(stripeOf, s, c, pushFails))
  {
    var s' := Step(stripeOf, s, c, pushFails);
    var id := s.calls[c].id;
    var i := stripeOf(id) % |s.free|;
    forall x: nat | 0 < x < s.nextId ensures Accounted(s', x) {
      if x == id {
        assert !pushFails ==> id in s'.free[i];
        assert !pushFails ==> OnFreeList(s', id);
      } else {
        StillAccounted(s, s', c, id, x);
      }
    }
    SameOwners(s, s');
  }

  lemma {:induction false} RunKeepsInv(stripeOf: StripeOf, stripes: nat, schedule: seq<Choice>)
    requires stripes > 0
    ensures Inv(Run(stripeOf, stripes, schedule))
  {
    if schedule == [] {
      InitialInv(stripes);
    } else {
      var before, choice := schedule[..|schedule| - 1], schedule[|schedule| - 1];
      RunKeepsInv(stripeOf, stripes, before);
      var s := Run(stripeOf, stripes, before);
      if choice.Go? {
        if choice.client in s.calls {
          StepKeepsInv(stripeOf, s, choice.client, choice.pushFails);
        }
      } else if choice.client !in s.calls {
        if choice.CallRelease? {
          if (choice.client, choice.id) in s.held {
            BeginRelease(s, choice.client, choice.id);
          }
        } else {
          Quiet(s, Apply(stripeOf, s, choice), choice.client);
        }
      }
    }
  }

  // ---------------------------------------------------------------------------
  // A call that runs alone
  // ---------------------------------------------------------------------------

  /** An identifier that an insertion finds not in use. */
  predicate Usable(active: set<nat>, id: nat) { id != INVALID_ID && id !in active }

  function Handed(s: State, c: nat, id: nat): State {
    s.(active := s.active + {id}, held := s.held + {(c, id)})
  }

  /** How far from `start` the first stripe with a free-list entry is, from `offset` on. */
  function FirstFull(free: seq<seq<nat>>, start: nat, offset: nat): (first: nat)
    requires |free| > 0 && offset <= |free|
    ensures offset <= first <= |free|
    ensures first < |free| ==> free[StripeAt(start, first, |free|)] != []
    ensures forall o: nat :: offset <= o < first ==> free[StripeAt(start, o, |free|)] == []
    decreases |free| - offset
  {
    if offset == |free| || free[StripeAt(start, offset, |free|)] != [] then offset
    else FirstFull(free, start, offset + 1)
  }

  function Entries(free: seq<seq<nat>>): nat {
    if free == [] then 0 else Entries(free[..|free| - 1]) + |free[|free| - 1]|
  }

  lemma {:induction false} EntriesUpdated(free: seq<seq<nat>>, i: nat, list: seq<nat>)
    requires i < |free|
    ensures Entries(free[i := list]) == Entries(free) - |free[i]| + |list|
    decreases |free|
  {
    var n := |free| - 1;
    if i < n {
      assert free[i := list][..n] == free[..n][i := list];
      EntriesUpdated(free[..n], i, list);
    } else {
      assert free[i := list][..n] == free[..n];
    }
  }

  /** The stripe a scan that begins at `start` takes from, if all are not empty. */
  function Source(free: seq<seq<nat>>, start: nat): (i: nat)
    requires |free| > 0
    ensures i < |free|
  {
    StripeAt(start, FirstFull(free, start, 0), |free|)
  }

  predicate Stocked(free: seq<seq<nat>>, start: nat)
    requires |free| > 0
  {
    FirstFull(free, start, 0) < |free|
  }

  function OnePop(free: seq<seq<nat>>, start: nat): (free': seq<seq<nat>>)
    requires |free| > 0 && Stocked(free, start)
    ensures |free'| == |free| && Entries(free') < Entries(free)
  {
    var i := Source(free, start);
    EntriesUpdated(free, i, free[i][..|free[i]| - 1]);
    free[i := free[i][..|free[i]| - 1]]
  }

  /** The entries in the order in which scan after scan, each a stripe further, would take them. */
  function ScanOrder(free: seq<seq<nat>>, start: nat): seq<nat>
    requires |free| > 0
    decreases Entries(free)
  {
    if !Stocked(free, start) then []
    else
      var i := Source(free, start);
      [free[i][|free[i]| - 1]] + ScanOrder(OnePop(free, start), start + 1)
  }

  function AfterPops(free: seq<seq<nat>>, start: nat, n: nat): (free': seq<seq<nat>>)
    requires |free| > 0 && n <= |ScanOrder(free, start)|
    ensures |free'| == |free|
    decreases n
  {
    if n == 0 then free else AfterPops(OnePop(free, start), start + 1, n - 1)
  }

  function FirstUsable(order: seq<nat>, active: set<nat>): (k: nat)
    ensures k <= |order| && (k < |order| ==> Usable(active, order[k]))
    ensures forall j: nat :: j < k ==> !Usable(active, order[j])
  {
    if order == [] || Usable(active, order[0]) then 0 else 1 + FirstUsable(order[1..], active)
  }

  function LeastFree(active: set<nat>, from: nat): (id: nat)
    ensures id >= from && id !in active && forall x: nat :: from <= x < id ==> x in active
    decreases active
  {
    if from !in active then from else LeastFree(active - {from}, from + 1)
  }

  function AcquiredId(s: State): nat
    requires |s.free| > 0
  {
    var order := ScanOrder(s.free, s.cursor);
    var k := FirstUsable(order, s.active);
    if k < |order| then order[k] else LeastFree(s.active, s.nextId)
  }

  /** What an undisturbed call makes of the state. */
  function Acquired(s: State, c: nat): State
    requires |s.free| > 0
  {
    var order := ScanOrder(s.free, s.cursor);
    var k := FirstUsable(order, s.active);
    var id := AcquiredId(s);
    if k < |order| then Handed(s.(free := AfterPops(s.free, s.cursor, k + 1), cursor := s.cursor + k + 1), c, id)
    else Handed(s.(free := AfterPops(s.free, s.cursor, k), cursor := s.cursor + k + 1, nextId := id + 1), c, id)
  }

  /** `n` turns of client `c` in a row. */
  function Alone(stripeOf: StripeOf, s: State, c: nat, n: nat): (s': State)
    requires |s.free| > 0
    ensures |s'.free| == |s.free|
  {
    if n == 0 then s else Apply(stripeOf, Alone(stripeOf, s, c, n - 1), Go(c, false))
  }

  lemma OneTurn(stripeOf: StripeOf, s: State, c: nat)
    requires |s.free| > 0
    ensures Alone(stripeOf, s, c, 1) == Apply(stripeOf, s, Go(c, false))
  {
    assert Alone(stripeOf, s, c, 0) == s;
  }

  lemma NoTurn(stripeOf: StripeOf, s: State, c: nat)
    requires |s.free| > 0
    ensures Alone(stripeOf, s, c, 0) == s
  {
  }

  lemma {:induction false} AloneTwice(stripeOf: StripeOf, s: State, c: nat, n: nat, m: nat)
    requires |s.free| > 0
    ensures Alone(stripeOf, Alone(stripeOf, s, c, n), c, m) == Alone(stripeOf, s, c, n + m)
    decreases m
  {
    if m > 0 {
      AloneTwice(stripeOf, s, c, n, m - 1);
    }
  }

  function Turns(c: nat, n: nat): seq<Choice> { seq(n, i => Go(c, false)) }

  lemma {:induction false} RunTurns(stripeOf: StripeOf, stripes: nat, schedule: seq<Choice>, c: nat, n: nat)
    requires stripes > 0
    ensures Run(stripeOf, stripes, schedule + Turns(c, n)) == Alone(stripeOf, Run(stripeOf, stripes, schedule), c, n)
    decreases n
  {
    if n == 0 {
      assert schedule + Turns(c, 0) == schedule;
    } else {
      RunTurns(stripeOf, stripes, schedule, c, n - 1);
      var longer := schedule + Turns(c, n);
      assert longer[..|longer| - 1] == schedule + Turns(c, n - 1);
    }
  }

  /** Once a call has returned, more turns change nothing. */
  lemma {:induction false} ReturnedStays(stripeOf: StripeOf, s: State, c: nat, n: nat)
    requires |s.free| > 0 && c !in s.calls
    ensures Alone(stripeOf, s, c, n) == s
    decreases n
  {
    if n > 0 {
      ReturnedStays(stripeOf, s, c, n - 1);
    }
  }

  lemma OneMore(stripeOf: StripeOf, stripes: nat, schedule: seq<Choice>, choice: Choice)
    requires stripes > 0
    ensures Run(stripeOf, stripes, schedule + [choice]) == Apply(stripeOf, Run(stripeOf, stripes, schedule), choice)
  {
    assert (schedule + [choice])[..|schedule|] == schedule;
  }

  lemma RunThenTurns(stripeOf: StripeOf, stripes: nat, schedule: seq<Choice>, call: Choice, n: nat, outcome: State)
    requires stripes > 0 && call.client !in outcome.calls && |outcome.free| > 0
    requires Alone(stripeOf, Apply(stripeOf, Run(stripeOf, stripes, schedule), call), call.client, n) == outcome
    ensures forall m: nat :: m >= n ==>
              Run(stripeOf, stripes, schedule + [call] + Turns(call.client, m)) == outcome
  {
    hide Run, Apply, Alone, Turns;
    var c := call.client;
    var called := Apply(stripeOf, Run(stripeOf, stripes, schedule), call);
    OneMore(stripeOf, stripes, schedule, call);
    forall m: nat | m >= n ensures Run(stripeOf, stripes, schedule + [call] + Turns(c, m)) == outcome {
      RunTurns(stripeOf, stripes, schedule + [call], c, m);
      AloneTwice(stripeOf, called, c, n, m - n);
      ReturnedStays(stripeOf, outcome, c, m - n);
    }
  }

  /** The scan passes over empty stripes. */
  lemma {:induction false} ScanPasses(stripeOf: StripeOf, s: State, c: nat, start: nat, offset: nat)
    requires |s.free| > 0 && offset <= |s.free|
    ensures var first := FirstFull(s.free, start, offset);
            Alone(stripeOf, At(s, c, ScanStripe(start, offset)), c, first - offset)
            == At(s, c, ScanStripe(start, first))
    decreases |s.free| - offset
  {
    hide StripeAt, Alone;
    var first := FirstFull(s.free, start, offset);
    var here := At(s, c, ScanStripe(start, offset));
    if first == offset {
      assert Alone(stripeOf, here, c, 0) == here by { NoTurn(stripeOf, here, c); }
    } else {
      assert Apply(stripeOf, here, Go(c, false)) == At(s, c, ScanStripe(start, offset + 1)) by {
        AtTwice(s, c, ScanStripe(start, offset), ScanStripe(start, offset + 1));
      }
      OneTurn(stripeOf, here, c);
      ScanPasses(stripeOf, s, c, start, offset + 1);
      AloneTwice(stripeOf, here, c, 1, first - offset - 1);
    }
  }

  lemma AtTwice(s: State, c: nat, pc: Pc, pc': Pc)
    ensures At(At(s, c, pc), c, pc') == At(s, c, pc')
    ensures c !in s.calls ==> Return(At(s, c, pc), c) == s
  {
    assert c !in s.calls ==> s.calls[c := pc] - {c} == s.calls;
  }

  lemma ThreeRuns(stripeOf: StripeOf, s: State, c: nat, n: nat)
    requires |s.free| > 0
    ensures Alone(stripeOf, s, c, 1 + n + 1)
            == Apply(stripeOf, Alone(stripeOf, Apply(stripeOf, s, Go(c, false)), c, n), Go(c, false))
  {
    OneTurn(stripeOf, s, c);
    AloneTwice(stripeOf, s, c, 1, n);
  }

  /** One scan takes the last entry of the first stripe that has one, or gives up. */
  lemma OneScan(stripeOf: StripeOf, s: State, c: nat) returns (n: nat)
    requires |s.free| > 0 && c !in s.calls
    ensures var after := Alone(stripeOf, At(s, c, FetchCursor), c, n);
            if Stocked(s.free, s.cursor) then
              var i := Source(s.free, s.cursor);
              var id, popped := s.free[i][|s.free[i]| - 1],
                  s.(free := OnePop(s.free, s.cursor), cursor := s.cursor + 1);
              after == if Usable(s.active, id) then Handed(popped, c, id) else At(popped, c, FetchCursor)
            else after == At(s.(cursor := s.cursor + 1), c, FetchFresh)
  {
    hide Alone, FirstFull, Entries, StripeAt;
    var begun, first := s.(cursor := s.cursor + 1), FirstFull(s.free, s.cursor, 0);
    AtTwice(s, c, FetchCursor, ScanStripe(s.cursor, 0));
    assert Apply(stripeOf, At(s, c, FetchCursor), Go(c, false)) == At(begun, c, ScanStripe(s.cursor, 0));
    ScanPasses(stripeOf, begun, c, s.cursor, 0);
    ThreeRuns(stripeOf, At(s, c, FetchCursor), c, first);
    var reached := At(begun, c, ScanStripe(s.cursor, first));
    if first < |s.free| {
      var i := Source(s.free, s.cursor);
      var id, popped := s.free[i][|s.free[i]| - 1], begun.(free := OnePop(s.free, s.cursor));
      AtTwice(popped, c, ScanStripe(s.cursor, first), InsertRecycled(id));
      AtTwice(popped, c, InsertRecycled(id), FetchCursor);
      assert Apply(stripeOf, reached, Go(c, false)) == At(popped, c, InsertRecycled(id));
      n := 1 + first + 1 + 1;
      AloneTwice(stripeOf, At(s, c, FetchCursor), c, 1 + first + 1, 1);
      OneTurn(stripeOf, At(popped, c, InsertRecycled(id)), c);
      InsertAlone(popped, c, id, InsertRecycled(id), FetchCursor);
    } else {
      AtTwice(begun, c, ScanStripe(s.cursor, first), FetchFresh);
      n := 1 + first + 1;
    }
  }

  lemma InsertAlone(s: State, c: nat, id: nat, pc: Pc, otherwise: Pc)
    requires c !in s.calls
    ensures Insert(At(s, c, pc), c, id, otherwise)
            == if Usable(s.active, id) then Handed(s, c, id) else At(s, c, otherwise)
  {
    AtTwice(s, c, pc, otherwise);
    AtTwice(Handed(s, c, id), c, pc, otherwise);
  }

  /** Fresh identifiers are tried one after the other; `rest` are those in use from the next on. */
  lemma {:induction false} FreshTries(stripeOf: StripeOf, s: State, c: nat, rest: set<nat>) returns (n: nat)
    requires |s.free| > 0 && c !in s.calls && s.nextId > 0
    requires forall x: nat :: x >= s.nextId ==> (x in rest <==> x in s.active)
    ensures var id := LeastFree(rest, s.nextId);
            Alone(stripeOf, At(s, c, FetchFresh), c, n) == Handed(s.(nextId := id + 1), c, id)
    decreases rest
  {
    hide Alone;
    var id, tried := s.nextId, s.(nextId := s.nextId + 1);
    var start := At(s, c, FetchFresh);
    OneTurn(stripeOf, start, c);
    AtTwice(tried, c, FetchFresh, InsertFresh(id));
    OneTurn(stripeOf, At(tried, c, InsertFresh(id)), c);
    AloneTwice(stripeOf, start, c, 1, 1);
    InsertAlone(tried, c, id, InsertFresh(id), FetchFresh);
    n := 2;
    if id in s.active {
      var m := FreshTries(stripeOf, tried, c, rest - {id});
      AloneTwice(stripeOf, start, c, 2, m);
      n := 2 + m;
    }
  }

  /** A stale entry in front changes nothing but that it is gone. */
  lemma StaleFirst(s: State, c: nat)
    requires |s.free| > 0 && Stocked(s.free, s.cursor)
    requires !Usable(s.active, ScanOrder(s.free, s.cursor)[0])
    ensures Acquired(s, c) == Acquired(s.(free := OnePop(s.free, s.cursor), cursor := s.cursor + 1), c)
  {
    hide OnePop, Stocked, Source;
    var order := ScanOrder(s.free, s.cursor);
    var rest := ScanOrder(OnePop(s.free, s.cursor), s.cursor + 1);
    assert order[1..] == rest;
  }

  lemma {:induction false} AllScans(stripeOf: StripeOf, s: State, c: nat) returns (n: nat)
    requires |s.free| > 0 && c !in s.calls && s.nextId > 0
    ensures Alone(stripeOf, At(s, c, FetchCursor), c, n) == Acquired(s, c)
    decreases Entries(s.free)
  {
    hide Alone, Apply, Step, OnePop, Source, FirstFull, Stocked, Entries, LeastFree;
    var start, order := At(s, c, FetchCursor), ScanOrder(s.free, s.cursor);
    n := OneScan(stripeOf, s, c);
    if !Stocked(s.free, s.cursor) {
      var begun := s.(cursor := s.cursor + 1);
      var m := FreshTries(stripeOf, begun, c, s.active);
      AloneTwice(stripeOf, start, c, n, m);
      n := n + m;
    } else if !Usable(s.active, order[0]) {
      var popped := s.(free := OnePop(s.free, s.cursor), cursor := s.cursor + 1);
      var m := AllScans(stripeOf, popped, c);
      AloneTwice(stripeOf, start, c, n, m);
      StaleFirst(s, c);
      n := n + m;
    } else {
      assert AfterPops(s.free, s.cursor, 1) == AfterPops(OnePop(s.free, s.cursor), s.cursor + 1, 0);
    }
  }

  // ---------------------------------------------------------------------------
  // The order of scans
  // ---------------------------------------------------------------------------

  lemma EveryStripeIsReached(free: seq<seq<nat>>, start: nat, i: nat)
    requires |free| > 0 && i < |free| && !Stocked(free, start)
    ensures free[i] == []
  {
    var o := OffsetOf(start, i, |free|);
    assert free[StripeAt(start, o, |free|)] == [];
  }

  lemma OffsetOf(start: nat, i: nat, n: nat) returns (o: nat)
    requires i < n
    ensures o < n && StripeAt(start, o, n) == i
  {
    var r := start % n;
    o := if r <= i then i - r else i + n - r;
    StripeIs(start, o, n);
  }

  lemma PoppedMembers(free: seq<seq<nat>>, free': seq<seq<nat>>, k: nat, last: nat, x: nat)
    requires k < |free| == |free'| && free' == free[k := free'[k]] && free[k] == free'[k] + [last]
    ensures (exists i :: 0 <= i < |free| && x in free[i])
            <==> x == last || exists i :: 0 <= i < |free'| && x in free'[i]
  {
    if i :| 0 <= i < |free| && x in free[i] && x != last {
      assert x in free'[i];
    }
    if i :| 0 <= i < |free'| && x in free'[i] {
      assert x in free[i];
    }
    assert last in free[k];
  }

  /** Every entry is in the order, and nothing else. */
  lemma {:induction false} ScanOrderHasAll(free: seq<seq<nat>>, start: nat)
    requires |free| > 0
    ensures forall x: nat :: x in ScanOrder(free, start) <==> exists i :: 0 <= i < |free| && x in free[i]
    decreases Entries(free)
  {
    var order := ScanOrder(free, start);
    if !Stocked(free, start) {
      forall i: nat | i < |free| ensures free[i] == [] {
        EveryStripeIsReached(free, start, i);
      }
    } else {
      var k, free' := Source(free, start), OnePop(free, start);
      var last := free[k][|free[k]| - 1];
      var rest := ScanOrder(free', start + 1);
      ScanOrderHasAll(free', start + 1);
      assert free[k] == free'[k] + [last] && order == [last] + rest;
      forall x: nat ensures x in order <==> exists i :: 0 <= i < |free| && x in free[i] {
        assert x in order <==> x == last || x in rest;
        PoppedMembers(free, free', k, last, x);
      }
    }
  }

  /** Popping takes entries off the ends of lists, and only the first of the order. */
  lemma {:induction false} PopsTakePrefixes(free: seq<seq<nat>>, start: nat, n: nat)
    requires |free| > 0 && n <= |ScanOrder(free, start)|
    ensures var free', order := AfterPops(free, start, n), ScanOrder(free, start);
            forall i: nat :: i < |free| ==>
              && free'[i] <= free[i]
              && forall j: nat :: |free'[i]| <= j < |free[i]| ==> free[i][j] in order[..n]
    decreases n
  {
    if n > 0 {
      var order, k, once := ScanOrder(free, start), Source(free, start), OnePop(free, start);
      var free' := AfterPops(free, start, n);
      PopsTakePrefixes(once, start + 1, n - 1);
      var rest := ScanOrder(once, start + 1);
      assert free[k] == once[k] + [order[0]];
      forall i: nat, j: nat | i < |free| && |free'[i]| <= j < |free[i]|
        ensures free[i][j] in order[..n]
      {
        if i == k && j == |free[k]| - 1 {
          assert order[..n][0] == free[i][j];
        } else {
          assert once[i][j] == free[i][j];
          assert order[..n] == [order[0]] + rest[..n - 1];
        }
      }
    }
  }

  lemma {:induction false} PopsTakeAll(free: seq<seq<nat>>, start: nat)
    requires |free| > 0
    ensures forall i: nat :: i < |free| ==> AfterPops(free, start, |ScanOrder(free, start)|)[i] == []
    decreases Entries(free)
  {
    if Stocked(free, start) {
      PopsTakeAll(OnePop(free, start), start + 1);
    } else {
      forall i: nat | i < |free| ensures free[i] == [] {
        EveryStripeIsReached(free, start, i);
      }
    }
  }

  lemma ListedIsOrdered(s: State)
    requires |s.free| > 0
    ensures forall x: nat :: OnFreeList(s, x) <==> x in ScanOrder(s.free, s.cursor)
  {
    hide ScanOrder;
    ScanOrderHasAll(s.free, s.cursor);
  }

  /** What a call takes off the lists up to the first usable entry is stale, but for that one. */
  lemma ConsumedIsStale(s: State, popped: nat)
    requires |s.free| > 0
    requires var order := ScanOrder(s.free, s.cursor);
             popped <= |order| && popped <= FirstUsable(order, s.active) + 1
    ensures var free', order := AfterPops(s.free, s.cursor, popped), ScanOrder(s.free, s.cursor);
            forall i: nat :: i < |s.free| ==>
              && free'[i] <= s.free[i]
              && forall j: nat :: |free'[i]| <= j < |s.free[i]| ==>
                   (popped > 0 && s.free[i][j] == order[popped - 1]) || !Usable(s.active, s.free[i][j])
  {
    hide ScanOrder, AfterPops, FirstUsable, Usable;
    var free', order := AfterPops(s.free, s.cursor, popped), ScanOrder(s.free, s.cursor);
    PopsTakePrefixes(s.free, s.cursor, popped);
    forall i: nat, j: nat | i < |s.free| && |free'[i]| <= j < |s.free[i]|
      ensures (popped > 0 && s.free[i][j] == order[popped - 1]) || !Usable(s.active, s.free[i][j])
    {
      assert s.free[i][j] in order[..popped];
    }
  }

  // ---------------------------------------------------------------------------
  // Main results
  // ---------------------------------------------------------------------------

  /** After any schedule no identifier is held by two clients, even though free lists may hold
      stale and repeated entries, and every identifier below the next fresh one is accounted for. */
  lemma EveryRunKeepsIdsApart(stripeOf: StripeOf, stripes: nat, schedule: seq<Choice>)
    requires stripes > 0
    ensures var s := Run(stripeOf, stripes, schedule);
            && (forall c: nat, d: nat, id: nat :: (c, id) in s.held && (d, id) in s.held ==> c == d)
            && (forall c: nat, id: nat :: (c, id) in s.held ==> id != INVALID_ID && id in s.active)
            && (forall id: nat :: 0 < id < s.nextId ==> Accounted(s, id))
  {
    RunKeepsInv(stripeOf, stripes, schedule);
    var s := Run(stripeOf, stripes, schedule);
    forall c: nat, d: nat, id: nat | (c, id) in s.held && (d, id) in s.held ensures c == d {
      assert Owns(s, c, id) && Owns(s, d, id);
    }
    forall c: nat, id: nat | (c, id) in s.held ensures id in s.active {
      assert Owns(s, c, id);
      assert Owned(s, id);
    }
  }

  /** With no call in progress the active identifiers are exactly those held, so nothing is
      reserved for nobody; and no fresh identifier is skipped or lost. */
  lemma QuiescentRunLosesNothing(stripeOf: StripeOf, stripes: nat, schedule: seq<Choice>)
    requires stripes > 0 && Run(stripeOf, stripes, schedule).calls == map[]
    ensures var s := Run(stripeOf, stripes, schedule);
            && (forall id: nat :: id in s.active <==> exists c: nat :: (c, id) in s.held)
            && (forall id: nat :: 0 < id < s.nextId ==> id in s.active || OnFreeList(s, id) || id in s.dropped)
  {
    RunKeepsInv(stripeOf, stripes, schedule);
    var s := Run(stripeOf, stripes, schedule);
    forall id: nat ensures id in s.active <==> exists c: nat :: (c, id) in s.held {
      if id in s.active {
        var c: nat :| Owns(s, c, id);
        assert (c, id) in s.held;
      } else if exists c: nat :: (c, id) in s.held {
        var c: nat :| (c, id) in s.held;
        assert Owns(s, c, id);
        assert Owned(s, id);
      }
    }
    forall id: nat | 0 < id < s.nextId ensures id in s.active || OnFreeList(s, id) || id in s.dropped {
      assert Accounted(s, id);
      assert !SomewhereInFlight(s, id);
    }
  }

  /** An identifier is handed out only while nobody holds it. */
  lemma HandedOutIdWasFree(stripeOf: StripeOf, stripes: nat, schedule: seq<Choice>, choice: Choice, c: nat, id: nat)
    requires stripes > 0
    requires var s := Run(stripeOf, stripes, schedule);
             (c, id) in Apply(stripeOf, s, choice).held && (c, id) !in s.held
    ensures var s := Run(stripeOf, stripes, schedule);
            forall d: nat :: !Owns(s, d, id)
  {
    RunKeepsInv(stripeOf, stripes, schedule);
    var s := Run(stripeOf, stripes, schedule);
    forall d: nat ensures !Owns(s, d, id) {
      if Owns(s, d, id) {
        assert Owned(s, id);
      }
    }
  }

  /** An undisturbed call returns, in whatever state other calls were left: it has the first entry
      of the free lists, in the order scans come to them, whose identifier is not in use, and the
      entries before it are used up; when there is none, the least fresh identifier not in use. */
  lemma AcquireReturns(stripeOf: StripeOf, stripes: nat, schedule: seq<Choice>, c: nat) returns (n: nat)
    requires stripes > 0 && c !in Run(stripeOf, stripes, schedule).calls
    ensures forall m: nat :: m >= n ==>
              Run(stripeOf, stripes, schedule + [CallAcquire(c)] + Turns(c, m))
              == Acquired(Run(stripeOf, stripes, schedule), c)
  {
    var s := Run(stripeOf, stripes, schedule);
    RunKeepsInv(stripeOf, stripes, schedule);
    n := AllScans(stripeOf, s, c);
    RunThenTurns(stripeOf, stripes, schedule, CallAcquire(c), n, Acquired(s, c));
  }

  /** Occupying an identifier that is not in use yields it; any other occupation is an acquisition. */
  lemma OccupyReturns(stripeOf: StripeOf, stripes: nat, schedule: seq<Choice>, c: nat, id: nat) returns (n: nat)
    requires stripes > 0 && c !in Run(stripeOf, stripes, schedule).calls
    ensures forall m: nat :: m >= n ==>
              Run(stripeOf, stripes, schedule + [CallOccupy(c, id)] + Turns(c, m))
              == (var s := Run(stripeOf, stripes, schedule);
                  if Usable(s.active, id) then Handed(s, c, id) else Acquired(s, c))
  {
    var s := Run(stripeOf, stripes, schedule);
    RunKeepsInv(stripeOf, stripes, schedule);
    var k := AllScans(stripeOf, s, c);
    var outcome := if Usable(s.active, id) then Handed(s, c, id) else Acquired(s, c);
    n := if id == INVALID_ID then k else if Usable(s.active, id) then 1 else 1 + k;
    if id != INVALID_ID {
      var called := At(s, c, InsertGiven(id));
      OneTurn(stripeOf, called, c);
      if !Usable(s.active, id) {
        assert Alone(stripeOf, called, c, 1) == At(s, c, FetchCursor);
        AloneTwice(stripeOf, called, c, 1, k);
      } else {
        assert Alone(stripeOf, called, c, 1) == Handed(s, c, id);
      }
    }
    RunThenTurns(stripeOf, stripes, schedule, CallOccupy(c, id), n, outcome);
  }

  /** What such a call gets: an identifier from the free lists whenever one there is not in use,
      and then no fresh one is spent; else all lists are empty and it is the least fresh one not
      in use. Only entries whose identifiers are in use are lost, from the ends of the lists. */
  lemma AcquiredIsRecycledOrLeast(s: State, c: nat)
    requires Inv(s) && c !in s.calls
    ensures var s', id := Acquired(s, c), AcquiredId(s);
            && Usable(s.active, id) && s'.active == s.active + {id} && s'.held == s.held + {(c, id)}
            && s'.calls == s.calls && s'.dropped == s.dropped && |s'.free| == |s.free|
            && ((exists x: nat :: OnFreeList(s, x) && Usable(s.active, x)) ==>
                  OnFreeList(s, id) && s'.nextId == s.nextId)
            && ((forall x: nat :: OnFreeList(s, x) ==> !Usable(s.active, x)) ==>
                  && s.nextId <= id && (forall x: nat :: s.nextId <= x < id ==> x in s.active)
                  && s'.nextId == id + 1 && (forall i: nat :: i < |s.free| ==> s'.free[i] == []))
            && (forall i: nat :: i < |s.free| ==>
                  && s'.free[i] <= s.free[i]
                  && forall j: nat :: |s'.free[i]| <= j < |s.free[i]| ==>
                       s.free[i][j] == id || !Usable(s.active, s.free[i][j]))
  {
    hide ScanOrder, AfterPops, FirstUsable, LeastFree, Accounted, Owned, Owns, OnFreeList;
    var order := ScanOrder(s.free, s.cursor);
    var k := FirstUsable(order, s.active);
    ListedIsOrdered(s);
    if k < |order| {
      assert order[k] in order;
      ConsumedIsStale(s, k + 1);
    } else {
      PopsTakeAll(s.free, s.cursor);
      ConsumedIsStale(s, k);
    }
  }

  /** How many lists are passed going around from list `r` to list `i` of `n`. */
  function Ahead(n: nat, r: nat, i: nat): int { if r <= i then i - r else i + n - r }

  /** Going around from list `r`, list `i` is the first that is not empty, but for the `offset`
      lists passed already. */
  predicate FirstAround(free: seq<seq<nat>>, r: nat, offset: nat, i: nat) {
    && i < |free| && free[i] != [] && Ahead(|free|, r, i) >= offset
    && forall j: nat :: j < |free| && free[j] != [] && Ahead(|free|, r, j) >= offset ==>
         Ahead(|free|, r, i) <= Ahead(|free|, r, j)
  }

  /** No list but those passed has an entry. */
  predicate NoneAround(free: seq<seq<nat>>, r: nat, offset: nat) {
    forall i: nat :: i < |free| && Ahead(|free|, r, i) >= offset ==> free[i] == []
  }

  /** Which entry that is: of the lists from the cursor on, around to it again, the first that is
      not empty loses its last entry, and the cursor moves by one. The entry's identifier is handed
      out, or, if it is in use, the same begins again without the entry. */
  lemma AcquireTakesFrom(s: State, c: nat, i: nat)
    requires |s.free| > 0 && FirstAround(s.free, s.cursor % |s.free|, 0, i)
    ensures var last := s.free[i][|s.free[i]| - 1];
            var left := s.(free := s.free[i := s.free[i][..|s.free[i]| - 1]], cursor := s.cursor + 1);
            if last != INVALID_ID && last !in s.active
            then AcquiredId(s) == last
                 && Acquired(s, c) == left.(active := s.active + {last}, held := s.held + {(c, last)})
            else AcquiredId(s) == AcquiredId(left) && Acquired(s, c) == Acquired(left, c)
  {
    hide Entries, FirstFull, StripeAt, FirstAround;
    SourceIs(s.free, s.cursor, i);
    var order := ScanOrder(s.free, s.cursor);
    if Usable(s.active, order[0]) {
      assert AfterPops(s.free, s.cursor, 1) == AfterPops(OnePop(s.free, s.cursor), s.cursor + 1, 0);
    } else {
      StaleFirst(s, c);
      assert order[1..] == ScanOrder(OnePop(s.free, s.cursor), s.cursor + 1);
    }
  }

  lemma SourceIs(free: seq<seq<nat>>, start: nat, i: nat)
    requires |free| > 0 && FirstAround(free, start % |free|, 0, i)
    ensures Stocked(free, start) && Source(free, start) == i
  {
    hide FirstFull, StripeAt, FirstAround;
    ScanTakesFrom(free, start, 0, i);
  }

  lemma ScanTakesFrom(free: seq<seq<nat>>, start: nat, offset: nat, i: nat)
    requires |free| > 0 && offset <= |free| && FirstAround(free, start % |free|, offset, i)
    ensures FirstFull(free, start, offset) == Ahead(|free|, start % |free|, i) < |free|
    ensures StripeAt(start, FirstFull(free, start, offset), |free|) == i
  {
    hide FirstFull, StripeAt;
    var n, r, first := |free|, start % |free|, FirstFull(free, start, offset);
    var o := Ahead(n, r, i);
    StripeIs(start, o, n);
    assert free[StripeAt(start, o, n)] != [];
    if first < o {
      StripeIs(start, first, n);
    }
  }

  lemma ScanFindsNone(free: seq<seq<nat>>, start: nat, offset: nat)
    requires |free| > 0 && offset <= |free|
    requires NoneAround(free, start % |free|, offset)
    ensures FirstFull(free, start, offset) == |free|
  {
    hide FirstFull, StripeAt;
    var n, r, first := |free|, start % |free|, FirstFull(free, start, offset);
    if first < n {
      StripeIs(start, first, n);
    }
  }

  /** The stripes of a scan, without division. */
  lemma StripeIs(start: nat, offset: nat, n: nat)
    requires offset < n
    ensures var r := start % n; StripeAt(start, offset, n) == if r + offset < n then r + offset else r + offset - n
  {
    var q, r := start / n, start % n;
    assert start == q * n + r;
    ProductStep(q, n);
    if r + offset < n {
      DivisionIs(start + offset, n, q, r + offset);
    } else {
      DivisionIs(start + offset, n, q + 1, r + offset - n);
    }
  }

  /** With all lists empty the least fresh identifier not in use is handed out, and the counter
      stands behind it. */
  lemma AcquireTakesFresh(s: State, c: nat)
    requires |s.free| > 0 && forall i: nat :: i < |s.free| ==> s.free[i] == []
    ensures var id := AcquiredId(s);
            && id >= s.nextId && id !in s.active && (forall x: nat :: s.nextId <= x < id ==> x in s.active)
            && Acquired(s, c) == s.(active := s.active + {id}, held := s.held + {(c, id)},
                                    nextId := id + 1, cursor := s.cursor + 1)
  {
    hide StripeAt, FirstFull;
    assert ScanOrder(s.free, s.cursor) == [];
  }

  /** Undisturbed, releasing a held identifier frees it and puts it on its stripe's list. */
  lemma ReleasedIdIsRecycled(stripeOf: StripeOf, s: State, c: nat, id: nat)
    requires Inv(s) && c !in s.calls && (c, id) in s.held
    ensures var go := Go(c, false);
            var s' := Apply(stripeOf, Apply(stripeOf, Apply(stripeOf, s, CallRelease(c, id)), go), go);
            var i := stripeOf(id) % |s.free|;
            && (c, id) !in s'.held && id !in s'.active && c !in s'.calls
            && s'.free == s.free[i := s.free[i] + [id]]
  {
    BeginRelease(s, c, id);
    Erase(Apply(stripeOf, s, CallRelease(c, id)), c, id);
  }

  // ---------------------------------------------------------------------------
  // Calls already begun
  // ---------------------------------------------------------------------------

  /** A call ends at the insertion that finds its identifier not in use, which hands it out, and at
      the push of a release; a lost insertion and everything else go on. */
  lemma CallEndsExactly(stripeOf: StripeOf, s: State, c: nat, pushFails: bool)
    requires Inv(s) && c in s.calls
    ensures var s', pc := Step(stripeOf, s, c, pushFails), s.calls[c];
            var inserts := pc.InsertRecycled? || pc.InsertFresh? || pc.InsertGiven?;
            && (c !in s'.calls <==> pc.PushFree? || (inserts && pc.id != INVALID_ID && pc.id !in s.active))
            && (inserts && c !in s'.calls ==> s'.held == s.held + {(c, pc.id)} && s'.active == s.active + {pc.id})
            && (!inserts || c in s'.calls ==> s'.held == s.held)
            && (c in s'.calls ==> s'.dropped == s.dropped && s'.calls.Keys == s.calls.Keys)
  {
    if s.calls[c].EraseActive? {
      Erase(s, c, s.calls[c].id);
    }
  }

  /** What is left to happen when the lists are found empty. */
  function Fresh(s: State, c: nat): State {
    var id := LeastFree(s.active, s.nextId);
    Handed(s.(nextId := id + 1), c, id)
  }

  /** What is left to happen when a scan comes to list `i`. */
  function Scanned(s: State, c: nat, i: nat): State
    requires i < |s.free| && s.free[i] != []
  {
    var last := |s.free[i]| - 1;
    var left := s.(free := s.free[i := s.free[i][..last]]);
    if Usable(s.active, s.free[i][last]) then Handed(left, c, s.free[i][last]) else Acquired(left, c)
  }

  lemma InsertReturns(stripeOf: StripeOf, s: State, c: nat, pc: Pc) returns (n: nat)
    requires |s.free| > 0 && c !in s.calls && s.nextId > 0 && (pc.InsertRecycled? || pc.InsertGiven? || pc.InsertFresh?)
    ensures Alone(stripeOf, At(s, c, pc), c, n)
            == if Usable(s.active, pc.id) then Handed(s, c, pc.id) else if pc.InsertFresh? then Fresh(s, c)
               else Acquired(s, c)
  {
    hide Alone, Acquired, LeastFree;
    var otherwise := if pc.InsertFresh? then FetchFresh else FetchCursor;
    OneTurn(stripeOf, At(s, c, pc), c);
    InsertAlone(s, c, pc.id, pc, otherwise);
    n := 1;
    if !Usable(s.active, pc.id) {
      var m: nat;
      if pc.InsertFresh? {
        m := FreshTries(stripeOf, s, c, s.active);
      } else {
        m := AllScans(stripeOf, s, c);
      }
      AloneTwice(stripeOf, At(s, c, pc), c, 1, m);
      n := 1 + m;
    }
  }

  lemma ScanReturns(stripeOf: StripeOf, s: State, c: nat, start: nat, offset: nat) returns (n: nat)
    requires |s.free| > 0 && c !in s.calls && s.nextId > 0 && offset <= |s.free|
    ensures var first := FirstFull(s.free, start, offset);
            Alone(stripeOf, At(s, c, ScanStripe(start, offset)), c, n)
            == if first < |s.free| then Scanned(s, c, StripeAt(start, first, |s.free|)) else Fresh(s, c)
  {
    hide Alone, Acquired, LeastFree, StripeAt, FirstFull;
    var here, first := At(s, c, ScanStripe(start, offset)), FirstFull(s.free, start, offset);
    var reached := At(s, c, ScanStripe(start, first));
    ScanPasses(stripeOf, s, c, start, offset);
    OneTurn(stripeOf, reached, c);
    AloneTwice(stripeOf, here, c, first - offset, 1);
    var m: nat;
    if first < |s.free| {
      var i := StripeAt(start, first, |s.free|);
      var last := |s.free[i]| - 1;
      var left := s.(free := s.free[i := s.free[i][..last]]);
      AtTwice(left, c, ScanStripe(start, first), InsertRecycled(s.free[i][last]));
      m := InsertReturns(stripeOf, left, c, InsertRecycled(s.free[i][last]));
    } else {
      AtTwice(s, c, ScanStripe(start, first), FetchFresh);
      m := FreshTries(stripeOf, s, c, s.active);
    }
    AloneTwice(stripeOf, here, c, first - offset + 1, m);
    n := first - offset + 1 + m;
  }

  /** Whatever others have done meanwhile, an acquisition in progress returns when it runs alone:
      it finishes its scan, or its insertion, and acquires anew if that comes to nothing. */
  lemma AcquisitionReturns(stripeOf: StripeOf, s: State, c: nat) returns (n: nat)
    requires Inv(s) && c in s.calls && !s.calls[c].EraseActive? && !s.calls[c].PushFree?
    ensures var s', left, pc := Alone(stripeOf, s, c, n), Return(s, c), s.calls[c];
            && c !in s'.calls
            && (pc.FetchCursor? ==> s' == Acquired(left, c))
            && (pc.FetchFresh? ==> s' == Fresh(left, c))
            && (pc.InsertRecycled? || pc.InsertGiven? ==>
                  s' == if Usable(s.active, pc.id) then Handed(left, c, pc.id) else Acquired(left, c))
            && (pc.InsertFresh? ==> s' == if Usable(s.active, pc.id) then Handed(left, c, pc.id) else Fresh(left, c))
            && (pc.ScanStripe? ==> forall i: nat :: FirstAround(s.free, pc.start % |s.free|, pc.offset, i) ==>
                  s' == Scanned(left, c, i))
            && (pc.ScanStripe? && NoneAround(s.free, pc.start % |s.free|, pc.offset) ==> s' == Fresh(left, c))
  {
    hide Alone, Acquired, LeastFree, StripeAt, FirstFull, FirstAround, Owned, Accounted;
    var left, pc := Return(s, c), s.calls[c];
    AtAgain(s, c);
    AcquiredReturned(left, c, 0);
    match pc
    case FetchCursor => n := AllScans(stripeOf, left, c);
    case FetchFresh => n := FreshTries(stripeOf, left, c, left.active);
    case ScanStripe(start, offset) => n := BegunScanReturns(stripeOf, left, c, start, offset);
    case _ => n := InsertReturns(stripeOf, left, c, pc);
  }

  lemma BegunScanReturns(stripeOf: StripeOf, s: State, c: nat, start: nat, offset: nat) returns (n: nat)
    requires |s.free| > 0 && c !in s.calls && s.nextId > 0
    ensures var s' := Alone(stripeOf, At(s, c, ScanStripe(start, offset)), c, n);
            && c !in s'.calls
            && (forall i: nat :: FirstAround(s.free, start % |s.free|, offset, i) ==> s' == Scanned(s, c, i))
            && (NoneAround(s.free, start % |s.free|, offset) ==> s' == Fresh(s, c))
  {
    hide Alone, Acquired, LeastFree, StripeAt, FirstFull, Ahead, Handed;
    if offset <= |s.free| {
      n := ScanReturns(stripeOf, s, c, start, offset);
      AcquiredReturned(s, c, StripeAt(start, FirstFull(s.free, start, offset), |s.free|));
      forall i: nat | FirstAround(s.free, start % |s.free|, offset, i)
        ensures StripeAt(start, FirstFull(s.free, start, offset), |s.free|) == i
        ensures FirstFull(s.free, start, offset) < |s.free|
      {
        ScanTakesFrom(s.free, start, offset, i);
      }
      if NoneAround(s.free, start % |s.free|, offset) {
        ScanFindsNone(s.free, start, offset);
      }
    } else {
      AcquiredReturned(s, c, 0);
      NobodyAhead(s.free, start % |s.free|, offset);
      var here := At(s, c, ScanStripe(start, offset));
      OneTurn(stripeOf, here, c);
      AtTwice(s, c, ScanStripe(start, offset), FetchFresh);
      var m := FreshTries(stripeOf, s, c, s.active);
      AloneTwice(stripeOf, here, c, 1, m);
      n := 1 + m;
    }
  }

  lemma NobodyAhead(free: seq<seq<nat>>, r: nat, offset: nat)
    requires r < |free| <= offset
    ensures NoneAround(free, r, offset) && forall i: nat :: !FirstAround(free, r, offset, i)
  {
  }

  lemma AcquiredReturned(s: State, c: nat, i: nat)
    requires |s.free| > 0
    ensures Acquired(s, c).calls == s.calls && Fresh(s, c).calls == s.calls
    ensures i < |s.free| && s.free[i] != [] ==> Scanned(s, c, i).calls == s.calls
  {
    hide ScanOrder, AfterPops, FirstUsable, LeastFree;
  }

  lemma AtAgain(s: State, c: nat)
    requires c in s.calls
    ensures At(Return(s, c), c, s.calls[c]) == s && c !in Return(s, c).calls
  {
    assert (s.calls - {c})[c := s.calls[c]] == s.calls;
  }

  /** A release in progress frees the identifier and lists it on its stripe. */
  lemma ReleaseReturns(stripeOf: StripeOf, s: State, c: nat)
    requires Inv(s) && c in s.calls && (s.calls[c].EraseActive? || s.calls[c].PushFree?)
    ensures var id, n := s.calls[c].id, if s.calls[c].PushFree? then 1 else 2;
            var i := stripeOf(id) % |s.free|;
            var active := if s.calls[c].PushFree? then s.active else s.active - {id};
            Alone(stripeOf, s, c, n) == Return(s, c).(active := active, free := s.free[i := s.free[i] + [id]])
  {
    hide Alone, Owned, Accounted;
    var id := s.calls[c].id;
    OneTurn(stripeOf, s, c);
    if s.calls[c].EraseActive? {
      Erase(s, c, id);
      var erased := At(s.(active := s.active - {id}), c, PushFree(id));
      OneTurn(stripeOf, erased, c);
      AloneTwice(stripeOf, s, c, 1, 1);
      assert s.calls[c := PushFree(id)] - {c} == s.calls - {c};
    }
  }
}
