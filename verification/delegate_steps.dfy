/** The steps of a multicast delegate on its state, each shown to keep the invariant and to do
    to the list of registrations what it is meant to do. */
module DelegateSteps {
  import opened Options
  import opened DelegateState
  import opened Sequences

  /** The heads tell whether the lists are empty. */
  lemma Heads(s: State)
    requires Base(s)
    ensures s.freeHead == INVALID_SLOT <==> s.free == []
    ensures s.freeHead != INVALID_SLOT ==> s.freeHead < |s.slots| && s.free[0] == s.freeHead
    ensures s.retiredHead == INVALID_SLOT <==> s.retired == []
    ensures s.retiredHead != INVALID_SLOT ==>
              && s.retiredHead < |s.slots| && s.retired[0] == s.retiredHead
              && s.slots[s.retiredHead].callback.Some?
    ensures s.activeCount == |Registered(s.slots, s.order)|
    ensures |s.slots| <= MAX_SLOTS
  {
    assert s.free != [] ==> s.free[0] < |s.slots|;
    assert s.retired != [] ==> s.retired[0] < |s.slots| && s.retired[0] in s.retired;
  }

  // ---------------------------------------------------------------------------
  // Retiring a slot
  // ---------------------------------------------------------------------------

  function RetiredSlot(slot: Slot, nextFree: nat): Slot {
    slot.(active := false, generation := NextGeneration(slot.generation), nextFree := nextFree, age := slot.age + 1)
  }

  ghost function Retire(s: State, i: nat): State
    requires i < |s.slots| && s.activeCount > 0
  {
    s.(slots := s.slots[i := RetiredSlot(s.slots[i], s.retiredHead)],
       retiredHead := i,
       retired := [i] + s.retired,
       activeCount := s.activeCount - 1,
       tombstoneCount := s.tombstoneCount + 1)
  }

  /** The one live entry of an active slot. */
  lemma CurrentEntry(s: State, i: nat) returns (p: nat)
    requires Base(s) && i < |s.slots| && s.slots[i].active
    ensures p < |s.order| && s.order[p].index == i && Live(s.slots, s.order[p])
    ensures s.order[p].generation == s.slots[i].generation
    ensures forall q :: 0 <= q < |s.order| && s.order[q].index == i && Live(s.slots, s.order[q]) ==> q == p
    ensures s.activeCount > 0
  {
    assert SlotOk(s.slots[i]);
    p := AgePresent(s.order, i, s.slots[i].oldest, NextAge(s.slots[i]), s.slots[i].age);
    LiveIsCurrent(s, p);
    forall q: nat | q < |s.order| && s.order[q].index == i && Live(s.slots, s.order[q]) ensures q == p {
      LiveIsCurrent(s, q);
      if q < p {
        AgesIncrease(s.order, i, s.slots[i].oldest, NextAge(s.slots[i]), q, p);
      } else if p < q {
        AgesIncrease(s.order, i, s.slots[i].oldest, NextAge(s.slots[i]), p, q);
      }
    }
    RegisteredHas(s.slots, s.order, p);
  }

  lemma RetireRegistered(s: State, i: nat, p: nat)
    requires Base(s) && i < |s.slots| && s.slots[i].active && s.activeCount > 0
    requires p < |s.order| && s.order[p].index == i && Live(s.slots, s.order[p])
    requires forall q :: 0 <= q < |s.order| && s.order[q].index == i && Live(s.slots, s.order[q]) ==> q == p
    ensures var s' := Retire(s, i);
            && Registered(s'.slots, s.order) == Without(Registered(s.slots, s.order), s.order[p].serial)
            && |Registered(s'.slots, s.order)| == |Registered(s.slots, s.order)| - 1
  {
    hide Consecutive, SlotOk, ListsOk, NextGeneration, GenerationAt, Registered, Keep, CountActive;
    var s' := Retire(s, i);
    var list := Registered(s.slots, s.order);
    var keep := Serials(list) - {s.order[p].serial};
    RegisteredOrdered(s.slots, s.order);
    RegisteredHas(s.slots, s.order, p);
    var j: nat :| j < |list| && list[j] == RegistrationOf(s.slots, s.order[p]);
    WithoutDeletes(list, j);
    forall q: nat | q < |s.order|
      ensures Live(s'.slots, s.order[q]) <==> Live(s.slots, s.order[q]) && s.order[q].serial in keep
    {
      assert EntryOk(s.slots, s.order[q], s.next);
      if Live(s.slots, s.order[q]) {
        RegisteredHas(s.slots, s.order, q);
      }
    }
    assert forall q :: 0 <= q < |s.order| ==> EntryOk(s.slots, s.order[q], s.next);
    RegisteredKeeps(s.slots, s'.slots, s.order, keep);
  }

  lemma RetireKeepsInv(s: State, i: nat)
    requires Inv(s) && i < |s.slots| && s.slots[i].active
    ensures s.activeCount > 0 && Inv(Retire(s, i))
  {
    var p := CurrentEntry(s, i);
    RetireRegistered(s, i, p);
    RetireKeepsLists(s, i);
    RetireKeepsOrder(s, i);
    CountActiveUpdate(s.slots, i, Retire(s, i).slots[i]);
  }

  lemma RetireKeepsLists(s: State, i: nat)
    requires Base(s) && i < |s.slots| && s.slots[i].active && s.activeCount > 0
    ensures ListsOk(Retire(s, i))
  {
    hide OrderOk, CountsOk, NextGeneration;
    assert SlotOk(s.slots[i]);
    var s' := Retire(s, i);
    assert i !in s.free && i !in s.retired;
    PushedChain(s.slots, s'.slots, s.retiredHead, s.retired, i);
    KeptChain(s.slots, s'.slots, s.freeHead, s.free);
    assert forall x: nat :: x in s'.retired <==> x == i || x in s.retired;
  }

  /** Pushing a node in front of a list. */
  lemma PushedChain(slots: seq<Slot>, slots': seq<Slot>, head: nat, list: seq<nat>, i: nat)
    requires Chain(slots, head, list) && NoDuplicates(list) && i !in list
    requires i < |slots'| && |slots| <= |slots'| && slots'[i].nextFree == head
    requires forall x: nat :: x < |slots| && x in list ==> slots'[x].nextFree == slots[x].nextFree
    ensures Chain(slots', i, [i] + list) && NoDuplicates([i] + list)
  {
    forall k | 0 <= k < |[i] + list|
      ensures ([i] + list)[k] < |slots'|
      ensures slots'[([i] + list)[k]].nextFree == if k + 1 < |[i] + list| then ([i] + list)[k + 1] else INVALID_SLOT
    {
      if k > 0 {
        var x := list[k - 1];
        assert ([i] + list)[k] == x && x in list && x < |slots|;
        assert slots[x].nextFree == if k < |list| then list[k] else INVALID_SLOT;
        assert k < |list| ==> ([i] + list)[k + 1] == list[k];
      } else {
        assert list != [] ==> ([i] + list)[1] == list[0];
      }
    }
  }

  /** A list whose nodes keep their links. */
  lemma KeptChain(slots: seq<Slot>, slots': seq<Slot>, head: nat, list: seq<nat>)
    requires Chain(slots, head, list) && |slots| <= |slots'|
    requires forall x: nat :: x < |slots| && x in list ==> slots'[x].nextFree == slots[x].nextFree
    ensures Chain(slots', head, list)
  {
  }

  /** Removing the front node of a list. */
  lemma PoppedChain(slots: seq<Slot>, slots': seq<Slot>, head: nat, list: seq<nat>)
    requires Chain(slots, head, list) && NoDuplicates(list) && list != [] && |slots| <= |slots'|
    requires forall x: nat :: x < |slots| && x in list && x != list[0] ==> slots'[x].nextFree == slots[x].nextFree
    ensures list[0] == head < |slots| && Chain(slots', slots[head].nextFree, list[1..]) && NoDuplicates(list[1..])
    ensures forall x: nat :: x in list <==> x == head || x in list[1..]
    ensures head !in list[1..]
  {
    assert list == [list[0]] + list[1..];
    assert slots[list[0]].nextFree == if 1 < |list| then list[1] else INVALID_SLOT;
    forall k | 0 <= k < |list[1..]|
      ensures list[1..][k] < |slots'|
      ensures slots'[list[1..][k]].nextFree == if k + 1 < |list[1..]| then list[1..][k + 1] else INVALID_SLOT
    {
      assert list[1..][k] == list[k + 1] && list[k + 1] in list && list[k + 1] != list[0];
      assert slots[list[k + 1]].nextFree == if k + 2 < |list| then list[k + 2] else INVALID_SLOT;
      assert k + 1 < |list[1..]| ==> list[1..][k + 1] == list[k + 2];
    }
  }

  lemma RetireKeepsOrder(s: State, i: nat)
    requires Base(s) && i < |s.slots| && s.slots[i].active && s.activeCount > 0
    ensures var s' := Retire(s, i);
            OrderOk(s'.slots, s'.order, s'.next) && forall j: nat :: j < |s'.slots| ==> SlotOk(s'.slots[j])
  {
    hide ListsOk, CountsOk, NextGeneration, GenerationAt;
    GenerationsFollow(s.slots[i].age);
    assert SlotOk(s.slots[i]);
    var s' := Retire(s, i);
    forall p | 0 <= p < |s.order| ensures EntryOk(s'.slots, s.order[p], s'.next) {
      assert EntryOk(s.slots, s.order[p], s.next);
    }
  }

  // ---------------------------------------------------------------------------
  // Releasing a retired slot
  // ---------------------------------------------------------------------------

  ghost function ReleaseFirst(s: State): State
    requires s.retiredHead < |s.slots| && s.retired != []
  {
    var i := s.retiredHead;
    s.(slots := s.slots[i := s.slots[i].(callback := None, nextFree := s.freeHead)],
       retiredHead := s.slots[i].nextFree,
       retired := s.retired[1..],
       freeHead := i,
       free := [i] + s.free)
  }

  lemma ReleaseKeepsBase(s: State)
    requires Base(s) && s.retired != []
    ensures s.retiredHead < |s.slots| && s.slots[s.retiredHead].callback.Some?
    ensures var s' := ReleaseFirst(s); Base(s') && Registered(s'.slots, s'.order) == Registered(s.slots, s.order)
  {
    hide Consecutive, Registered, CountActive, GenerationAt;
    var i, s' := s.retired[0], ReleaseFirst(s);
    PoppedChain(s.slots, s'.slots, s.retiredHead, s.retired);
    assert i !in s.free && i in s.retired;
    PushedChain(s.slots, s'.slots, s.freeHead, s.free, i);
    assert forall x: nat :: x in s'.free <==> x == i || x in s.free;
    assert SlotOk(s.slots[i]);
    SameOrder(s, s');
    CountActiveSame(s.slots, s'.slots);
  }

  /** Changes that leave generations, ages and activity alone do not show in the order. */
  lemma SameOrder(s: State, s': State)
    requires OrderOk(s.slots, s.order, s.next) && |s'.slots| == |s.slots| && s'.order == s.order && s'.next == s.next
    requires forall i: nat :: i < |s.slots| ==> SlotOk(s.slots[i])
    requires forall i: nat :: i < |s.slots| ==>
               && s'.slots[i].active == s.slots[i].active && s'.slots[i].generation == s.slots[i].generation
               && s'.slots[i].age == s.slots[i].age && s'.slots[i].oldest == s.slots[i].oldest
               && (s.slots[i].active ==> s'.slots[i].callback == s.slots[i].callback)
    ensures OrderOk(s'.slots, s'.order, s'.next)
    ensures forall i: nat :: i < |s'.slots| ==> SlotOk(s'.slots[i])
    ensures Registered(s'.slots, s'.order) == Registered(s.slots, s.order)
  {
    hide Consecutive, Registered;
    forall p: nat | p < |s.order|
      ensures EntryOk(s'.slots, s'.order[p], s'.next)
      ensures Live(s'.slots, s.order[p]) <==> Live(s.slots, s.order[p])
    {
      assert EntryOk(s.slots, s.order[p], s.next);
    }
    forall i: nat | i < |s'.slots| ensures SlotOk(s'.slots[i]) {
      assert SlotOk(s.slots[i]);
    }
    RegisteredUnchanged(s.slots, s'.slots, s.order);
  }

  // ---------------------------------------------------------------------------
  // Compaction
  // ---------------------------------------------------------------------------

  ghost function ShouldCompact(s: State): bool {
    s.activeCount == 0 || (s.tombstoneCount >= 16 && s.tombstoneCount * 2 >= |s.order|)
  }

  ghost function Compacted(s: State): State {
    s.(order := LiveEntries(s.slots, s.order),
       slots := seq(|s.slots|, i requires 0 <= i < |s.slots| => s.slots[i].(oldest := s.slots[i].age)),
       tombstoneCount := 0)
  }

  /** The order holds the registrations and the tombstones; compacted, it holds no tombstone. */
  lemma OrderCounts(s: State)
    requires Base(s)
    ensures s.activeCount == |Registered(s.slots, s.order)| && |s.order| == s.activeCount + s.tombstoneCount
    ensures |Compacted(s).order| == s.activeCount
  {
    hide Registered, LiveEntries, OrderOk, ListsOk, SlotOk;
    CompactionKeepsInv(s);
  }

  /** All retired slots released, the one retired last first. */
  ghost function ReleasedAll(s: State): State
    decreases |s.retired|
  {
    if s.retired == [] || s.retiredHead >= |s.slots| then s else ReleasedAll(ReleaseFirst(s))
  }

  /** What is done once no broadcast is open. */
  ghost function Finalized(s: State): State {
    var released := ReleasedAll(s);
    if ShouldCompact(released) then Compacted(released) else released
  }

  /** Outside broadcasts a slot that is retired is free at once, and the first to be reused. */
  lemma FinalizedIsNext(s: State, i: nat)
    requires i < |s.slots| && s.activeCount > 0 && s.retired == []
    ensures var s' := Finalized(Retire(s, i));
            && s'.freeHead == i && s'.free == [i] + s.free && s'.retired == [] && s'.next == s.next
            && |s'.slots| == |s.slots| && s'.slots[i].age == s.slots[i].age + 1
  {
    var retired := Retire(s, i);
    var released := ReleaseFirst(retired);
    assert released.retired == [];
    assert ReleasedAll(released) == released;
    assert ReleasedAll(retired) == released;
  }

  /** Dead entries of slot `i` in a segment: those older than the slot. */
  lemma {:induction false} DeadEntries(slots: seq<Slot>, seg: seq<Entry>, i: nat, a: nat, b: nat)
    requires i < |slots| && Consecutive(seg, i, a, b)
    requires forall p :: 0 <= p < |seg| && seg[p].index == i && seg[p].age < slots[i].age ==> !Live(slots, seg[p])
    ensures |seg| - |Registered(slots, seg)| >= (if b <= slots[i].age then b else slots[i].age) - a
    ensures |Registered(slots, seg)| <= |seg|
    decreases |seg|
  {
    if seg != [] {
      DeadEntries(slots, seg[1..], i, if seg[0].index == i then a + 1 else a, b);
    }
  }

  /** Not compacting means few tombstones: fewer than 16, or fewer than active slots. */
  lemma SkippedCompactionIsReusable(s: State)
    requires Base(s) && !ShouldCompact(s)
    ensures Reusable(s)
  {
    forall i: nat | i < |s.slots| && i in s.free ensures s.slots[i].age - s.slots[i].oldest <= PERIOD - 1 {
      forall p: nat | p < |s.order| && s.order[p].index == i && s.order[p].age < s.slots[i].age
        ensures !Live(s.slots, s.order[p])
      {
        LiveIsCurrent(s, p);
      }
      DeadEntries(s.slots, s.order, i, s.slots[i].oldest, NextAge(s.slots[i]));
    }
  }

  ghost predicate NoneOf(seg: seq<Entry>, i: nat) {
    forall p :: 0 <= p < |seg| ==> seg[p].index != i
  }

  lemma {:induction false} CompactedConsecutive(slots: seq<Slot>, seg: seq<Entry>, i: nat, a: nat, b: nat)
    requires i < |slots| && Consecutive(seg, i, a, b)
    requires b <= NextAge(slots[i])
    requires forall p :: 0 <= p < |seg| && seg[p].index == i
               ==> (Live(slots, seg[p]) <==> slots[i].active && seg[p].age == slots[i].age)
    ensures var kept := LiveEntries(slots, seg);
            if slots[i].active && a <= slots[i].age < b then Consecutive(kept, i, slots[i].age, slots[i].age + 1)
            else NoneOf(kept, i)
    decreases |seg|
  {
    if seg != [] {
      var a' := if seg[0].index == i then a + 1 else a;
      CompactedConsecutive(slots, seg[1..], i, a', b);
      var rest, kept := LiveEntries(slots, seg[1..]), LiveEntries(slots, seg);
      assert kept == if Live(slots, seg[0]) then [seg[0]] + rest else rest;
      assert Live(slots, seg[0]) ==> kept[1..] == rest;
      assert NoneOf(rest, i) && seg[0].index != i ==> NoneOf(kept, i);
      if seg[0].index == i && Live(slots, seg[0]) {
        ConsecutiveNone(rest, i, a + 1);
      }
    }
  }

  lemma {:induction false} LiveEntryFrom(slots: seq<Slot>, order: seq<Entry>, j: nat) returns (p: nat)
    requires j < |LiveEntries(slots, order)|
    ensures j <= p < |order| && LiveEntries(slots, order)[j] == order[p] && Live(slots, order[p])
    decreases |order|
  {
    if Live(slots, order[0]) && j == 0 {
      p := 0;
    } else {
      p := LiveEntryFrom(slots, order[1..], if Live(slots, order[0]) then j - 1 else j);
      p := p + 1;
    }
  }

  lemma {:induction false} LiveEntriesOrdered(slots: seq<Slot>, order: seq<Entry>, j: nat, k: nat)
    requires forall p, q :: 0 <= p < q < |order| ==> order[p].serial < order[q].serial
    requires j < k < |LiveEntries(slots, order)|
    ensures LiveEntries(slots, order)[j].serial < LiveEntries(slots, order)[k].serial
    decreases |order|
  {
    if Live(slots, order[0]) && j == 0 {
      var p := LiveEntryFrom(slots, order[1..], k - 1);
    } else {
      var d := if Live(slots, order[0]) then 1 else 0;
      LiveEntriesOrdered(slots, order[1..], j - d, k - d);
    }
  }

  lemma CompactionKeepsInv(s: State)
    requires Base(s)
    ensures Inv(Compacted(s))
    ensures Registered(Compacted(s).slots, Compacted(s).order) == Registered(s.slots, s.order)
    ensures forall p :: 0 <= p < |Compacted(s).order| ==> Live(Compacted(s).slots, Compacted(s).order[p])
  {
    hide Registered, CountActive, LiveEntries, Consecutive, ListsOk, GenerationAt, SlotOk, CountsOk, Inv;
    var s' := Compacted(s);
    forall j: nat | j < |s'.order| ensures EntryOk(s'.slots, s'.order[j], s'.next) && Live(s.slots, s'.order[j]) {
      var p := LiveEntryFrom(s.slots, s.order, j);
      assert EntryOk(s.slots, s.order[p], s.next);
    }
    forall j: nat, k: nat | j < k < |s'.order| ensures s'.order[j].serial < s'.order[k].serial {
      LiveEntriesOrdered(s.slots, s.order, j, k);
    }
    forall i: nat | i < |s.slots| ensures Consecutive(s'.order, i, s'.slots[i].oldest, NextAge(s'.slots[i])) {
      CompactedSlot(s, i);
    }
    CompactedIsRegistered(s.slots, s.order);
    CompactedRest(s);
  }

  lemma CompactedSlot(s: State, i: nat)
    requires Base(s) && i < |s.slots|
    ensures var s' := Compacted(s); Consecutive(s'.order, i, s'.slots[i].oldest, NextAge(s'.slots[i]))
  {
    hide Registered, CountActive, LiveEntries, ListsOk, CountsOk, GenerationAt;
    forall p: nat | p < |s.order| && s.order[p].index == i
      ensures Live(s.slots, s.order[p]) <==> s.slots[i].active && s.order[p].age == s.slots[i].age
    {
      LiveIsCurrent(s, p);
    }
    assert SlotOk(s.slots[i]);
    CompactedConsecutive(s.slots, s.order, i, s.slots[i].oldest, NextAge(s.slots[i]));
    if !s.slots[i].active {
      ConsecutiveNone(Compacted(s).order, i, s.slots[i].age);
    }
  }

  lemma CompactedRest(s: State)
    requires Base(s)
    requires OrderOk(Compacted(s).slots, Compacted(s).order, s.next)
    requires forall p :: 0 <= p < |Compacted(s).order| ==> Live(s.slots, Compacted(s).order[p])
    requires Registered(s.slots, Compacted(s).order) == Registered(s.slots, s.order)
    requires |Compacted(s).order| == |Registered(s.slots, s.order)|
    ensures Inv(Compacted(s))
    ensures Registered(Compacted(s).slots, Compacted(s).order) == Registered(s.slots, s.order)
    ensures forall p :: 0 <= p < |Compacted(s).order| ==> Live(Compacted(s).slots, Compacted(s).order[p])
  {
    hide Consecutive, Registered, CountActive, LiveEntries;
    var s' := Compacted(s);
    RegisteredUnchanged(s.slots, s'.slots, s'.order);
    CountActiveSame(s.slots, s'.slots);
    forall i: nat | i < |s'.slots| ensures SlotOk(s'.slots[i]) {
      assert SlotOk(s.slots[i]);
    }
    KeptChain(s.slots, s'.slots, s.freeHead, s.free);
    KeptChain(s.slots, s'.slots, s.retiredHead, s.retired);
  }

  // ---------------------------------------------------------------------------
  // Adding a registration
  // ---------------------------------------------------------------------------

  /** A slot without a past, linked to `nextFree`. */
  function FreshSlot(nextFree: nat): Slot {
    Slot(None, 1, nextFree, false, 0, 0)
  }

  ghost function Bound(slot: Slot, callback: Callback): Slot {
    slot.(callback := Some(callback), nextFree := INVALID_SLOT, active := true)
  }

  ghost function EntryFor(s: State, i: nat): Entry
    requires i <= |s.slots|
  {
    var slot := if i < |s.slots| then s.slots[i] else FreshSlot(INVALID_SLOT);
    Entry(i, slot.generation, s.next, slot.age)
  }

  /** Binding the first free slot. */
  ghost function AddReusing(s: State, callback: Callback): State
    requires s.freeHead < |s.slots| && s.free != []
  {
    var i := s.freeHead;
    s.(slots := s.slots[i := Bound(s.slots[i], callback)],
       order := s.order + [EntryFor(s, i)],
       freeHead := s.slots[i].nextFree,
       free := s.free[1..],
       activeCount := s.activeCount + 1,
       next := s.next + 1)
  }

  /** Binding a new slot. */
  ghost function AddGrowing(s: State, callback: Callback): State {
    s.(slots := s.slots + [Bound(FreshSlot(INVALID_SLOT), callback)],
       order := s.order + [EntryFor(s, |s.slots|)],
       activeCount := s.activeCount + 1,
       next := s.next + 1)
  }

  /** A new slot whose registration could not be recorded goes to the free list. */
  ghost function GrowFree(s: State): State {
    s.(slots := s.slots + [FreshSlot(s.freeHead)], freeHead := |s.slots|, free := [|s.slots|] + s.free)
  }

  /** The old entries of slot `i` look exactly as live as before when it gets its next age. */
  lemma OldEntriesStay(s: State, slots': seq<Slot>, i: nat, callback: Callback)
    requires Inv(s) && i <= |s.slots|
    requires i < |s.slots| ==> i in s.free && slots' == s.slots[i := Bound(s.slots[i], callback)]
    requires i == |s.slots| ==> slots' == s.slots + [Bound(FreshSlot(INVALID_SLOT), callback)]
    ensures Registered(slots', s.order) == Registered(s.slots, s.order)
  {
    hide Registered, CountActive, Consecutive, CountsOk;
    forall p: nat | p < |s.order|
      ensures s.order[p].index < |s.slots|
      ensures Live(slots', s.order[p]) <==> Live(s.slots, s.order[p])
      ensures Live(s.slots, s.order[p]) ==> RegistrationOf(slots', s.order[p]) == RegistrationOf(s.slots, s.order[p])
    {
      var e := s.order[p];
      assert EntryOk(s.slots, e, s.next);
      if e.index == i {
        assert SlotOk(s.slots[i]);
        AgesWithin(s.order, i, s.slots[i].oldest, NextAge(s.slots[i]));
      }
    }
    RegisteredUnchanged(s.slots, slots', s.order);
  }

  lemma AddedOrder(s: State, slots': seq<Slot>, i: nat, callback: Callback)
    requires Inv(s) && i <= |s.slots|
    requires i < |s.slots| ==> i in s.free && slots' == s.slots[i := Bound(s.slots[i], callback)]
    requires i == |s.slots| ==> slots' == s.slots + [Bound(FreshSlot(INVALID_SLOT), callback)]
    ensures OrderOk(slots', s.order + [EntryFor(s, i)], s.next + 1)
    ensures forall j: nat :: j < |slots'| ==> SlotOk(slots'[j])
  {
    hide Consecutive, Registered, CountActive, ListsOk, GenerationAt;
    var e := EntryFor(s, i);
    var order' := s.order + [e];
    GenerationsFollow(0);
    if i < |s.slots| {
      InactiveFree(s, i);
    }
    forall p: nat | p < |order'| ensures EntryOk(slots', order'[p], s.next + 1) {
      if p < |s.order| {
        assert EntryOk(s.slots, s.order[p], s.next);
      } else {
        assert i < |s.slots| ==> SlotOk(s.slots[i]);
      }
    }
    forall j: nat | j < |slots'|
      ensures Consecutive(order', j, slots'[j].oldest, NextAge(slots'[j]))
      ensures SlotOk(slots'[j])
    {
      if j < |s.slots| {
        assert SlotOk(s.slots[j]);
        ConsecutiveAppend(s.order, j, s.slots[j].oldest, NextAge(s.slots[j]), e);
      } else {
        forall p: nat | p < |s.order| ensures s.order[p].index != j {
          assert EntryOk(s.slots, s.order[p], s.next);
        }
        ConsecutiveNone(s.order, j, 0);
        ConsecutiveAppend(s.order, j, 0, 0, e);
      }
    }
    forall p: nat, q: nat | p < q < |order'| ensures order'[p].serial < order'[q].serial {
      assert EntryOk(s.slots, s.order[p], s.next);
    }
  }

  lemma InactiveFree(s: State, i: nat)
    requires Base(s) && i in s.free
    ensures i < |s.slots| && !s.slots[i].active && i !in s.retired
  {
  }

  lemma AddReusingKeepsInv(s: State, callback: Callback)
    requires Inv(s) && s.free != []
    ensures s.freeHead < |s.slots|
    ensures Inv(AddReusing(s, callback))
    ensures var s' := AddReusing(s, callback);
            Registered(s'.slots, s'.order) == Registered(s.slots, s.order)
              + [Registration(s.next, MakeHandle(s.freeHead, s.slots[s.freeHead].generation), callback)]
  {
    var i := s.freeHead;
    InactiveFree(s, s.free[0]);
    var s' := AddReusing(s, callback);
    OldEntriesStay(s, s'.slots, i, callback);
    AddedOrder(s, s'.slots, i, callback);
    RegisteredConcat(s'.slots, s.order, [EntryFor(s, i)]);
    assert [EntryFor(s, i)][1..] == [];
    CountActiveUpdate(s.slots, i, s'.slots[i]);
    AddReusingLists(s, callback);
  }

  lemma AddReusingLists(s: State, callback: Callback)
    requires Inv(s) && s.free != []
    ensures s.freeHead < |s.slots|
    ensures ListsOk(AddReusing(s, callback)) && Reusable(AddReusing(s, callback))
  {
    hide OrderOk, CountsOk;
    var i := s.free[0];
    InactiveFree(s, i);
    var s' := AddReusing(s, callback);
    PoppedChain(s.slots, s'.slots, s.freeHead, s.free);
    KeptChain(s.slots, s'.slots, s.retiredHead, s.retired);
  }

  lemma AddGrowingKeepsInv(s: State, callback: Callback)
    requires Inv(s) && |s.slots| < MAX_SLOTS
    ensures Inv(AddGrowing(s, callback))
    ensures var s' := AddGrowing(s, callback);
            Registered(s'.slots, s'.order) == Registered(s.slots, s.order)
              + [Registration(s.next, MakeHandle(|s.slots|, 1), callback)]
  {
    var i, s' := |s.slots|, AddGrowing(s, callback);
    OldEntriesStay(s, s'.slots, i, callback);
    AddedOrder(s, s'.slots, i, callback);
    RegisteredConcat(s'.slots, s.order, [EntryFor(s, i)]);
    assert [EntryFor(s, i)][1..] == [];
    assert s'.slots[..|s'.slots| - 1] == s.slots;
    AddGrowingLists(s, callback);
  }

  lemma AddGrowingLists(s: State, callback: Callback)
    requires Inv(s)
    ensures ListsOk(AddGrowing(s, callback)) && Reusable(AddGrowing(s, callback))
  {
    hide OrderOk, CountsOk;
    var s' := AddGrowing(s, callback);
    KeptChain(s.slots, s'.slots, s.freeHead, s.free);
    KeptChain(s.slots, s'.slots, s.retiredHead, s.retired);
    assert |s.slots| !in s.free && |s.slots| !in s.retired;
  }

  lemma GrowFreeKeepsInv(s: State)
    requires Inv(s) && |s.slots| < MAX_SLOTS
    ensures Inv(GrowFree(s)) && Registered(GrowFree(s).slots, s.order) == Registered(s.slots, s.order)
  {
    hide Registered, CountActive, GenerationAt;
    var i, s' := |s.slots|, GrowFree(s);
    GenerationsFollow(0);
    forall p: nat | p < |s.order|
      ensures EntryOk(s'.slots, s.order[p], s.next) && s.order[p].index < i
      ensures Live(s'.slots, s.order[p]) <==> Live(s.slots, s.order[p])
    {
      assert EntryOk(s.slots, s.order[p], s.next);
    }
    RegisteredUnchanged(s.slots, s'.slots, s.order);
    ConsecutiveNone(s.order, i, 0);
    NewInactiveSlot(s.slots, s'.slots);
    GrowFreeLists(s);
  }

  lemma NewInactiveSlot(slots: seq<Slot>, slots': seq<Slot>)
    requires |slots'| == |slots| + 1 && slots'[..|slots|] == slots && !slots'[|slots|].active
    ensures CountActive(slots') == CountActive(slots)
  {
  }

  lemma GrowFreeLists(s: State)
    requires Inv(s)
    ensures ListsOk(GrowFree(s)) && Reusable(GrowFree(s))
  {
    hide OrderOk, CountsOk;
    var i, s' := |s.slots|, GrowFree(s);
    assert i !in s.free && i !in s.retired;
    PushedChain(s.slots, s'.slots, s.freeHead, s.free, i);
    KeptChain(s.slots, s'.slots, s.retiredHead, s.retired);
    assert forall x: nat :: x in s'.free <==> x == i || x in s.free;
  }

  // ---------------------------------------------------------------------------
  // What a broadcast in progress can rely on
  // ---------------------------------------------------------------------------

  /** Until the outermost broadcast ends: the order only grows, no entry becomes live again,
      and no bound callback is touched. */
  ghost predicate Evolves(s: State, s': State) {
    && s.order <= s'.order
    && |s.slots| <= |s'.slots|
    && s.next <= s'.next
    && (forall p :: |s.order| <= p < |s'.order| ==> s'.order[p].serial >= s.next)
    && (forall p :: 0 <= p < |s.order| && Live(s'.slots, s.order[p]) ==> Live(s.slots, s.order[p]))
    && (forall i: nat :: i < |s.slots| && s.slots[i].callback.Some? ==> s'.slots[i].callback == s.slots[i].callback)
  }

  lemma EvolvesTransitive(a: State, b: State, c: State)
    requires Evolves(a, b) && Evolves(b, c)
    ensures Evolves(a, c)
  {
    forall p | |a.order| <= p < |c.order| ensures c.order[p].serial >= a.next {
      if p < |b.order| {
        assert c.order[p] == b.order[p];
      }
    }
    forall p | 0 <= p < |a.order| && Live(c.slots, a.order[p]) ensures Live(a.slots, a.order[p]) {
      assert b.order[p] == a.order[p];
    }
  }

  lemma RetireEvolves(s: State, i: nat)
    requires Base(s) && i < |s.slots| && s.activeCount > 0 && s.slots[i].active
    ensures Evolves(s, Retire(s, i))
  {
    hide Consecutive, Registered, CountActive, ListsOk;
    var s' := Retire(s, i);
    forall p: nat | p < |s.order| && Live(s'.slots, s.order[p]) ensures Live(s.slots, s.order[p]) {
      assert EntryOk(s.slots, s.order[p], s.next);
    }
  }

  lemma AddReusingEvolves(s: State, callback: Callback)
    requires Inv(s) && s.free != []
    ensures s.freeHead < |s.slots| && Evolves(s, AddReusing(s, callback))
  {
    hide Consecutive, Registered, CountActive;
    InactiveFree(s, s.free[0]);
    var i, s' := s.free[0], AddReusing(s, callback);
    forall p: nat | p < |s.order| && Live(s'.slots, s.order[p]) ensures Live(s.slots, s.order[p]) {
      assert EntryOk(s.slots, s.order[p], s.next) && SlotOk(s.slots[i]);
      if s.order[p].index == i {
        AgesWithin(s.order, i, s.slots[i].oldest, NextAge(s.slots[i]));
      }
    }
  }

  lemma AddGrowingEvolves(s: State, callback: Callback)
    requires Inv(s)
    ensures Evolves(s, AddGrowing(s, callback)) && Evolves(s, GrowFree(s))
  {
    hide Consecutive, Registered, CountActive, ListsOk;
    forall p: nat | p < |s.order| ensures s.order[p].index < |s.slots| {
      assert EntryOk(s.slots, s.order[p], s.next);
    }
  }

  /** A registration is listed exactly when its own entry is live. */
  lemma ListedIffLive(s: State, e: Entry, p: nat)
    requires Base(s) && p < |s.order| && s.order[p].serial == e.serial
    ensures Live(s.slots, s.order[p]) <==> e.serial in Serials(Registered(s.slots, s.order))
  {
    hide Consecutive, Registered, CountActive, ListsOk, SlotOk;
    var list := Registered(s.slots, s.order);
    assert EntryOk(s.slots, s.order[p], s.next);
    if Live(s.slots, s.order[p]) {
      RegisteredHas(s.slots, s.order, p);
      var j: nat :| j < |list| && list[j] == RegistrationOf(s.slots, s.order[p]);
      assert list[j].serial in Serials(list);
    }
    if e.serial in Serials(list) {
      var j: nat :| j < |list| && list[j].serial == e.serial;
      var q := RegisteredFrom(s.slots, s.order, j);
      assert EntryOk(s.slots, s.order[q], s.next);
      assert q < p ==> s.order[q].serial < s.order[p].serial;
      assert p < q ==> s.order[p].serial < s.order[q].serial;
    }
  }

  /** While a broadcast is open, what a stretch of its order still stands for is what it
      stood for, less the registrations removed in between. */
  lemma StretchShrinks(s: State, s': State, a: nat, b: nat)
    requires Base(s) && Base(s') && Evolves(s, s') && a <= b <= |s.order|
    ensures Registered(s'.slots, s'.order[a..b])
            == Keep(Registered(s.slots, s.order[a..b]), Serials(Registered(s'.slots, s'.order)))
  {
    var seg, keep := s.order[a..b], Serials(Registered(s'.slots, s'.order));
    assert s'.order[a..b] == seg;
    forall p: nat | p < |seg|
      ensures seg[p].index < |s.slots|
      ensures Live(s'.slots, seg[p]) <==> Live(s.slots, seg[p]) && seg[p].serial in keep
      ensures Live(s'.slots, seg[p]) ==> RegistrationOf(s'.slots, seg[p]) == RegistrationOf(s.slots, seg[p])
    {
      hide Consecutive, Registered, CountActive, ListsOk, Serials;
      assert seg[p] == s.order[a + p] == s'.order[a + p];
      assert EntryOk(s.slots, s.order[a + p], s.next);
      ListedIffLive(s', seg[p], a + p);
      assert SlotOk(s.slots[seg[p].index]);
    }
    RegisteredKeeps(s.slots, s'.slots, seg, keep);
  }

  /** Nothing that was unlisted before comes back. */
  lemma NothingReturns(s: State, s': State)
    requires Base(s) && Base(s') && Evolves(s, s')
    ensures forall x :: x in Serials(Registered(s'.slots, s'.order)) && x < s.next
                        ==> x in Serials(Registered(s.slots, s.order))
  {
    hide Consecutive, CountActive, ListsOk, Registered, SlotOk;
    var list' := Registered(s'.slots, s'.order);
    forall x | x in Serials(list') && x < s.next ensures x in Serials(Registered(s.slots, s.order)) {
      var j: nat :| j < |list'| && list'[j].serial == x;
      var p := RegisteredFrom(s'.slots, s'.order, j);
      assert p < |s.order| && s.order[p] == s'.order[p];
      ListedIffLive(s, s.order[p], p);
    }
  }
}
