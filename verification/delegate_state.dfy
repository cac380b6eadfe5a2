/** The state of a multicast delegate: reusable slots with wrapping 32-bit generations, the
    append-only registration order with tombstones, and the two lists threaded through the slots. */
module DelegateState {
  import opened Options
  import opened Sequences

  /** A bound callable; only its identity matters here. */
  type Callback = nat

  const INVALID_SLOT: nat := 0xFFFF_FFFF
  /** Generations run through 1, ..., 2^32 - 1 and wrap around to 1. */
  const PERIOD: nat := 0xFFFF_FFFF
  const MAX_SLOTS: nat := 0xFFFF_FFFF
  const WORD: nat := 0x1_0000_0000

  /** `age` and `oldest` are history: how often the slot was retired, and the age of its oldest
      entry still in the order (its current age when it has none). */
  datatype Slot = Slot(callback: Option<Callback>, generation: nat, nextFree: nat, active: bool,
                       ghost age: nat, ghost oldest: nat)

  /** `serial` and `age` are history: the number of the registration, and its slot's age then. */
  datatype Entry = Entry(index: nat, generation: nat, ghost serial: nat, ghost age: nat)

  /** What a client sees of one registration. */
  datatype Registration = Registration(serial: nat, handle: nat, callback: Callback)

  /** All fields of the delegate but the broadcast depth, plus the two lists as sequences. */
  datatype State = State(
    slots: seq<Slot>,
    order: seq<Entry>,
    freeHead: nat,
    retiredHead: nat,
    activeCount: nat,
    tombstoneCount: nat,
    free: seq<nat>,
    retired: seq<nat>,
    next: nat)

  // ---------------------------------------------------------------------------
  // Handles and generations
  // ---------------------------------------------------------------------------

  function MakeHandle(slot: nat, generation: nat): nat {
    generation * WORD + slot + 1
  }

  /** The low half less one, in 32-bit arithmetic. */
  function SlotIndex(handle: nat): nat {
    (handle % WORD + WORD - 1) % WORD
  }

  function Generation(handle: nat): nat {
    handle / WORD
  }

  function NextGeneration(current: nat): nat {
    var incremented := (current + 1) % WORD;
    if incremented == 0 then 1 else incremented
  }

  ghost function GenerationAt(age: nat): (g: nat)
    ensures 1 <= g <= PERIOD
  {
    age % PERIOD + 1
  }

  lemma GenerationsFollow(age: nat)
    ensures NextGeneration(GenerationAt(age)) == GenerationAt(age + 1)
    ensures GenerationAt(0) == 1
  {
  }

  /** Every handle with a slot number within range splits back into its parts, and only that
      one handle does. */
  lemma HandleParts(slot: nat, generation: nat, handle: nat)
    requires slot < MAX_SLOTS && 1 <= generation <= PERIOD
    ensures 0 < MakeHandle(slot, generation) < WORD * WORD
    ensures handle == MakeHandle(slot, generation) <==> SlotIndex(handle) == slot && Generation(handle) == generation
  {
    var h := MakeHandle(slot, generation);
    assert h / WORD == generation && h % WORD == slot + 1;
    assert handle == handle / WORD * WORD + handle % WORD;
  }

  // ---------------------------------------------------------------------------
  // Active entries and the registrations they stand for
  // ---------------------------------------------------------------------------

  predicate IsActive(slots: seq<Slot>, index: nat, generation: nat) {
    index < |slots| && slots[index].active && slots[index].generation == generation
  }

  predicate Live(slots: seq<Slot>, e: Entry) {
    IsActive(slots, e.index, e.generation)
  }

  ghost function RegistrationOf(slots: seq<Slot>, e: Entry): Registration
    requires e.index < |slots|
  {
    Registration(e.serial, MakeHandle(e.index, e.generation),
                 match slots[e.index].callback case Some(c) => c case None => 0)
  }

  /** The live entries, in registration order. */
  ghost function Registered(slots: seq<Slot>, order: seq<Entry>): seq<Registration> {
    if order == [] then []
    else if Live(slots, order[0]) then [RegistrationOf(slots, order[0])] + Registered(slots, order[1..])
    else Registered(slots, order[1..])
  }

  /** What compaction keeps. */
  function LiveEntries(slots: seq<Slot>, order: seq<Entry>): seq<Entry> {
    if |order| == 0 then []
    else if Live(slots, order[0]) then [order[0]] + LiveEntries(slots, order[1..])
    else LiveEntries(slots, order[1..])
  }

  ghost function CountActive(slots: seq<Slot>): (n: nat)
    ensures n <= |slots|
  {
    if slots == [] then 0
    else CountActive(slots[..|slots| - 1]) + if slots[|slots| - 1].active then 1 else 0
  }

  // ---------------------------------------------------------------------------
  // Invariants
  // ---------------------------------------------------------------------------

  /** The age the slot's next entry will have. */
  ghost function NextAge(s: Slot): nat {
    if s.active then s.age + 1 else s.age
  }

  ghost predicate SlotOk(s: Slot) {
    && s.generation == GenerationAt(s.age)
    && s.oldest <= s.age
    && NextAge(s) - s.oldest <= PERIOD
    && (s.active ==> s.callback.Some?)
  }

  /** The entries of slot `i` have exactly the ages from `a` up to `b`, in order. */
  ghost predicate Consecutive(order: seq<Entry>, i: nat, a: nat, b: nat)
    decreases |order|
  {
    if order == [] then a == b
    else if order[0].index == i then order[0].age == a && a < b && Consecutive(order[1..], i, a + 1, b)
    else Consecutive(order[1..], i, a, b)
  }

  ghost predicate EntryOk(slots: seq<Slot>, e: Entry, next: nat) {
    e.index < |slots| && e.generation == GenerationAt(e.age) && e.serial < next
  }

  ghost predicate OrderOk(slots: seq<Slot>, order: seq<Entry>, next: nat) {
    && (forall p :: 0 <= p < |order| ==> EntryOk(slots, order[p], next))
    && (forall p, q :: 0 <= p < q < |order| ==> order[p].serial < order[q].serial)
    && (forall i: nat :: i < |slots| ==> Consecutive(order, i, slots[i].oldest, NextAge(slots[i])))
  }

  /** `list` is the list that starts at `head` and continues through `nextFree`. */
  ghost predicate Chain(slots: seq<Slot>, head: nat, list: seq<nat>) {
    && (forall k :: 0 <= k < |list| ==> list[k] < |slots|)
    && head == (if list == [] then INVALID_SLOT else list[0])
    && (forall k :: 0 <= k < |list| ==>
          slots[list[k]].nextFree == if k + 1 < |list| then list[k + 1] else INVALID_SLOT)
  }

  ghost predicate ListsOk(s: State) {
    && Chain(s.slots, s.freeHead, s.free)
    && Chain(s.slots, s.retiredHead, s.retired)
    && NoDuplicates(s.free)
    && NoDuplicates(s.retired)
    && (forall i :: i in s.free ==> i !in s.retired)
    && (forall i: nat :: i < |s.slots| ==> (!s.slots[i].active <==> i in s.free || i in s.retired))
    && (forall i: nat :: i < |s.slots| && i in s.free ==> s.slots[i].callback == None)
    && (forall i: nat :: i < |s.slots| && i in s.retired ==> s.slots[i].callback.Some?)
  }

  ghost predicate CountsOk(s: State) {
    && s.activeCount == |Registered(s.slots, s.order)|
    && s.activeCount == CountActive(s.slots)
    && s.tombstoneCount == |s.order| - s.activeCount
  }

  ghost predicate Base(s: State) {
    && |s.slots| <= MAX_SLOTS
    && (forall i: nat :: i < |s.slots| ==> SlotOk(s.slots[i]))
    && OrderOk(s.slots, s.order, s.next)
    && ListsOk(s)
    && CountsOk(s)
  }

  /** A slot that may be handed out again has fewer old entries than there are generations. */
  ghost predicate Reusable(s: State) {
    forall i: nat :: i < |s.slots| && i in s.free ==> s.slots[i].age - s.slots[i].oldest <= PERIOD - 1
  }

  /** What holds between operations, whatever the broadcast depth. */
  ghost predicate Inv(s: State) {
    Base(s) && Reusable(s)
  }

  // ---------------------------------------------------------------------------
  // Consecutive ages
  // ---------------------------------------------------------------------------

  lemma {:induction false} AgesWithin(order: seq<Entry>, i: nat, a: nat, b: nat)
    requires Consecutive(order, i, a, b)
    ensures a <= b
    ensures forall p :: 0 <= p < |order| && order[p].index == i ==> a <= order[p].age < b
    decreases |order|
  {
    if order != [] {
      AgesWithin(order[1..], i, if order[0].index == i then a + 1 else a, b);
      forall p | 0 <= p < |order| && order[p].index == i ensures a <= order[p].age < b {
        assert p > 0 ==> order[p] == order[1..][p - 1];
      }
    }
  }

  /** Entries of one slot have different ages. */
  lemma {:induction false} AgesIncrease(order: seq<Entry>, i: nat, a: nat, b: nat, p: nat, q: nat)
    requires Consecutive(order, i, a, b)
    requires p < q < |order| && order[p].index == i == order[q].index
    ensures order[p].age < order[q].age
    decreases |order|
  {
    if p == 0 {
      AgesWithin(order[1..], i, a + 1, b);
      assert order[q] == order[1..][q - 1];
    } else {
      AgesIncrease(order[1..], i, if order[0].index == i then a + 1 else a, b, p - 1, q - 1);
    }
  }

  lemma {:induction false} AgePresent(order: seq<Entry>, i: nat, a: nat, b: nat, x: nat) returns (p: nat)
    requires Consecutive(order, i, a, b) && a <= x < b
    ensures p < |order| && order[p].index == i && order[p].age == x
    decreases |order|
  {
    if order[0].index == i && order[0].age == x {
      p := 0;
    } else {
      p := AgePresent(order[1..], i, if order[0].index == i then a + 1 else a, b, x);
      p := p + 1;
    }
  }

  lemma {:induction false} ConsecutiveAppend(order: seq<Entry>, i: nat, a: nat, b: nat, e: Entry)
    requires Consecutive(order, i, a, b)
    requires e.index == i ==> e.age == b
    ensures Consecutive(order + [e], i, a, if e.index == i then b + 1 else b)
    decreases |order|
  {
    if order == [] {
      assert [e][1..] == [];
    } else {
      assert (order + [e])[1..] == order[1..] + [e];
      AgesWithin(order, i, a, b);
      ConsecutiveAppend(order[1..], i, if order[0].index == i then a + 1 else a, b, e);
    }
  }

  lemma {:induction false} ConsecutiveNone(order: seq<Entry>, i: nat, a: nat)
    requires forall p :: 0 <= p < |order| ==> order[p].index != i
    ensures Consecutive(order, i, a, a)
    decreases |order|
  {
    if order != [] {
      ConsecutiveNone(order[1..], i, a);
    }
  }

  // ---------------------------------------------------------------------------
  // Wrapping generations identify the current entry
  // ---------------------------------------------------------------------------

  /** Within one period generations do not repeat. */
  lemma GenerationsDiffer(a: nat, b: nat)
    requires a < b < a + PERIOD
    ensures GenerationAt(a) != GenerationAt(b)
  {
  }

  /** The comparison of wrapped generations is the comparison of unwrapped ages. */
  lemma LiveIsCurrent(s: State, p: nat)
    requires Base(s) && p < |s.order|
    ensures var e := s.order[p];
            e.index < |s.slots|
            && (Live(s.slots, e) <==> s.slots[e.index].active && e.age == s.slots[e.index].age)
  {
    hide GenerationAt, Consecutive, ListsOk, CountsOk;
    var e := s.order[p];
    assert EntryOk(s.slots, e, s.next) && SlotOk(s.slots[e.index]);
    var slot := s.slots[e.index];
    AgesWithin(s.order, e.index, slot.oldest, NextAge(slot));
    if slot.active && e.age < slot.age {
      GenerationsDiffer(e.age, slot.age);
    }
  }

  /** No two entries of the order are equal as the program sees them. */
  lemma EntriesAreDistinct(s: State, p: nat, q: nat)
    requires Base(s) && p < q < |s.order|
    ensures s.order[p].index != s.order[q].index || s.order[p].generation != s.order[q].generation
  {
    hide GenerationAt, Consecutive, ListsOk, CountsOk;
    assert EntryOk(s.slots, s.order[p], s.next) && EntryOk(s.slots, s.order[q], s.next);
    var i := s.order[p].index;
    if i == s.order[q].index {
      assert SlotOk(s.slots[i]);
      AgesIncrease(s.order, i, s.slots[i].oldest, NextAge(s.slots[i]), p, q);
      AgesWithin(s.order, i, s.slots[i].oldest, NextAge(s.slots[i]));
      GenerationsDiffer(s.order[p].age, s.order[q].age);
    }
  }

  // ---------------------------------------------------------------------------
  // Selecting registrations
  // ---------------------------------------------------------------------------

  ghost function Serials(list: seq<Registration>): set<nat> {
    set k: nat | k < |list| :: list[k].serial
  }

  /** The registrations whose serial is in `keep`, in order. */
  ghost function Keep(list: seq<Registration>, keep: set<nat>): seq<Registration> {
    if list == [] then []
    else if list[0].serial in keep then [list[0]] + Keep(list[1..], keep)
    else Keep(list[1..], keep)
  }

  ghost function Without(list: seq<Registration>, serial: nat): seq<Registration> {
    Keep(list, Serials(list) - {serial})
  }

  ghost predicate Ordered(list: seq<Registration>) {
    forall j, k :: 0 <= j < k < |list| ==> list[j].serial < list[k].serial
  }

  lemma {:induction false} KeepAll(list: seq<Registration>, keep: set<nat>)
    requires forall k :: 0 <= k < |list| ==> list[k].serial in keep
    ensures Keep(list, keep) == list
    decreases |list|
  {
    if list != [] {
      KeepAll(list[1..], keep);
    }
  }

  lemma {:induction false} KeepMembers(list: seq<Registration>, keep: set<nat>)
    ensures forall r :: r in Keep(list, keep) <==> r in list && r.serial in keep
    decreases |list|
  {
    if list != [] {
      KeepMembers(list[1..], keep);
      assert list == [list[0]] + list[1..];
    }
  }

  lemma {:induction false} KeepTwice(list: seq<Registration>, keep: set<nat>, keep': set<nat>)
    ensures Keep(Keep(list, keep), keep') == Keep(list, keep * keep')
    decreases |list|
  {
    if list != [] {
      KeepTwice(list[1..], keep, keep');
    }
  }

  lemma {:induction false} KeepSame(list: seq<Registration>, keep: set<nat>, keep': set<nat>)
    requires forall k :: 0 <= k < |list| ==> (list[k].serial in keep <==> list[k].serial in keep')
    ensures Keep(list, keep) == Keep(list, keep')
    decreases |list|
  {
    if list != [] {
      KeepSame(list[1..], keep, keep');
    }
  }

  /** Removing one serial from an ordered list deletes exactly that element. */
  lemma {:induction false} WithoutDeletes(list: seq<Registration>, j: nat)
    requires Ordered(list) && j < |list|
    ensures Without(list, list[j].serial) == list[..j] + list[j + 1..]
    ensures forall r :: r in Without(list, list[j].serial) <==> r in list && r.serial != list[j].serial
  {
    var keep := Serials(list) - {list[j].serial};
    assert list == list[..j] + ([list[j]] + list[j + 1..]);
    KeepConcat(list[..j], [list[j]] + list[j + 1..], keep);
    KeepAll(list[..j], keep);
    KeepAll(list[j + 1..], keep);
    assert ([list[j]] + list[j + 1..])[1..] == list[j + 1..];
    KeepMembers(list, keep);
  }

  lemma {:induction false} KeepConcat(a: seq<Registration>, b: seq<Registration>, keep: set<nat>)
    ensures Keep(a + b, keep) == Keep(a, keep) + Keep(b, keep)
    decreases |a|
  {
    if a == [] {
      assert a + b == b;
    } else {
      assert (a + b)[1..] == a[1..] + b;
      KeepConcat(a[1..], b, keep);
    }
  }

  // ---------------------------------------------------------------------------
  // Registrations of a segment of the order
  // ---------------------------------------------------------------------------

  lemma {:induction false} RegisteredConcat(slots: seq<Slot>, a: seq<Entry>, b: seq<Entry>)
    ensures Registered(slots, a + b) == Registered(slots, a) + Registered(slots, b)
    decreases |a|
  {
    if a == [] {
      assert a + b == b;
    } else {
      assert (a + b)[1..] == a[1..] + b;
      RegisteredConcat(slots, a[1..], b);
    }
  }

  /** If exactly the live entries with a serial in `keep` stay live, those are selected. */
  lemma {:induction false} RegisteredKeeps(slots: seq<Slot>, slots': seq<Slot>, seg: seq<Entry>, keep: set<nat>)
    requires |slots| <= |slots'| && forall p :: 0 <= p < |seg| ==> seg[p].index < |slots|
    requires forall p :: 0 <= p < |seg| ==> (Live(slots', seg[p]) <==> Live(slots, seg[p]) && seg[p].serial in keep)
    requires forall p :: 0 <= p < |seg| && Live(slots', seg[p])
               ==> RegistrationOf(slots', seg[p]) == RegistrationOf(slots, seg[p])
    ensures Registered(slots', seg) == Keep(Registered(slots, seg), keep)
    decreases |seg|
  {
    if seg != [] {
      assert forall p :: 0 <= p < |seg[1..]| ==> seg[1..][p] == seg[p + 1];
      RegisteredKeeps(slots, slots', seg[1..], keep);
    }
  }

  lemma {:induction false} RegisteredUnchanged(slots: seq<Slot>, slots': seq<Slot>, seg: seq<Entry>)
    requires |slots| <= |slots'| && forall p :: 0 <= p < |seg| ==> seg[p].index < |slots|
    requires forall p :: 0 <= p < |seg| ==> (Live(slots', seg[p]) <==> Live(slots, seg[p]))
    requires forall p :: 0 <= p < |seg| && Live(slots, seg[p])
               ==> RegistrationOf(slots', seg[p]) == RegistrationOf(slots, seg[p])
    ensures Registered(slots', seg) == Registered(slots, seg)
    decreases |seg|
  {
    if seg != [] {
      assert forall p :: 0 <= p < |seg[1..]| ==> seg[1..][p] == seg[p + 1];
      RegisteredUnchanged(slots, slots', seg[1..]);
    }
  }

  /** Live entries are registered, and every registration comes from a live entry. */
  lemma {:induction false} RegisteredHas(slots: seq<Slot>, seg: seq<Entry>, p: nat)
    requires p < |seg| && Live(slots, seg[p])
    ensures RegistrationOf(slots, seg[p]) in Registered(slots, seg)
    decreases |seg|
  {
    if p > 0 {
      RegisteredHas(slots, seg[1..], p - 1);
    }
  }

  lemma {:induction false} RegisteredFrom(slots: seq<Slot>, seg: seq<Entry>, j: nat) returns (p: nat)
    requires j < |Registered(slots, seg)|
    ensures j <= p < |seg| && Live(slots, seg[p]) && Registered(slots, seg)[j] == RegistrationOf(slots, seg[p])
    decreases |seg|
  {
    if Live(slots, seg[0]) {
      if j == 0 {
        p := 0;
      } else {
        p := RegisteredFrom(slots, seg[1..], j - 1);
        p := p + 1;
      }
    } else {
      p := RegisteredFrom(slots, seg[1..], j);
      p := p + 1;
    }
  }

  lemma {:induction false} RegisteredOrdered(slots: seq<Slot>, seg: seq<Entry>)
    requires forall p, q :: 0 <= p < q < |seg| ==> seg[p].serial < seg[q].serial
    ensures Ordered(Registered(slots, seg))
    decreases |seg|
  {
    if seg != [] {
      RegisteredOrdered(slots, seg[1..]);
      if Live(slots, seg[0]) {
        forall j | 0 < j < |Registered(slots, seg)| ensures seg[0].serial < Registered(slots, seg)[j].serial {
          var p := RegisteredFrom(slots, seg[1..], j - 1);
        }
      }
    }
  }

  lemma {:induction false} CompactedIsRegistered(slots: seq<Slot>, order: seq<Entry>)
    ensures Registered(slots, LiveEntries(slots, order)) == Registered(slots, order)
    ensures |LiveEntries(slots, order)| == |Registered(slots, order)|
    decreases |order|
  {
    if order != [] {
      CompactedIsRegistered(slots, order[1..]);
      if Live(slots, order[0]) {
        assert ([order[0]] + LiveEntries(slots, order[1..]))[1..] == LiveEntries(slots, order[1..]);
      }
    }
  }

  lemma {:induction false} CountActiveUpdate(slots: seq<Slot>, i: nat, slot: Slot)
    requires i < |slots|
    ensures CountActive(slots[i := slot])
            == CountActive(slots) - (if slots[i].active then 1 else 0) + (if slot.active then 1 else 0)
    decreases |slots|
  {
    var n := |slots| - 1;
    if i < n {
      assert slots[i := slot][..n] == slots[..n][i := slot];
      CountActiveUpdate(slots[..n], i, slot);
    } else {
      assert slots[i := slot][..n] == slots[..n];
    }
  }

  lemma {:induction false} CountActiveSame(slots: seq<Slot>, slots': seq<Slot>)
    requires |slots| == |slots'| && forall i :: 0 <= i < |slots| ==> slots[i].active == slots'[i].active
    ensures CountActive(slots) == CountActive(slots')
    decreases |slots|
  {
    if slots != [] {
      CountActiveSame(slots[..|slots| - 1], slots'[..|slots| - 1]);
    }
  }
}
