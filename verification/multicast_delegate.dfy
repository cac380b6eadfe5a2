/** The multicast delegate: ordered callbacks behind reusable handles, with broadcasts whose
    callbacks may add, remove, clear and broadcast again. */
module MulticastDelegates {
  import opened Options
  import opened DelegateState
  import opened DelegateSteps
  import opened DelegateLog
  import opened DelegateScripts

  lemma {:induction false} WithoutIsOtherThan(list: seq<Registration>, keep: set<nat>, j: nat)
    requires j < |list| && HandlesDiffer(list)
    requires forall k :: 0 <= k < |list| ==> (list[k].serial in keep <==> k != j)
    ensures Keep(list, keep) == OtherThan(list, list[j].handle)
    decreases |list|
  {
    if j == 0 {
      assert forall k :: 0 <= k < |list[1..]| ==> list[1..][k] == list[k + 1];
      KeepAll(list[1..], keep);
      NoneToRemove(list[1..], list[0].handle);
    } else {
      WithoutIsOtherThan(list[1..], keep, j - 1);
    }
  }

  /** Registrations have different slots, hence different handles, and each handle leads back
      to the slot of its registration. */
  lemma ListedHandles(s: State)
    requires Base(s)
    ensures HandlesDiffer(Registered(s.slots, s.order))
    ensures forall handle: nat ::
              HasHandle(Registered(s.slots, s.order), handle)
              <==> handle != 0 && IsActive(s.slots, SlotIndex(handle), Generation(handle))
  {
    hide Consecutive, CountActive, ListsOk, MakeHandle, SlotIndex, Generation, Registered, LiveEntries;
    var list := Registered(s.slots, s.order);
    forall j: nat, k: nat | j < k < |list| ensures list[j].handle != list[k].handle {
      DifferentHandles(s, j, k);
    }
    forall handle: nat
      ensures HasHandle(list, handle) <==> handle != 0 && IsActive(s.slots, SlotIndex(handle), Generation(handle))
    {
      if HasHandle(list, handle) {
        var j: nat :| j < |list| && list[j].handle == handle;
        var p := RegisteredFrom(s.slots, s.order, j);
        assert EntryOk(s.slots, s.order[p], s.next);
        HandleParts(s.order[p].index, s.order[p].generation, handle);
      }
      if handle != 0 && IsActive(s.slots, SlotIndex(handle), Generation(handle)) {
        var j, p := ActiveListed(s, SlotIndex(handle));
        assert SlotOk(s.slots[SlotIndex(handle)]);
        HandleParts(SlotIndex(handle), Generation(handle), handle);
        assert list[j].handle == handle;
      }
    }
  }

  lemma ListOrdered(s: State)
    requires Base(s)
    ensures Ordered(Registered(s.slots, s.order))
  {
    RegisteredOrdered(s.slots, s.order);
  }

  lemma DifferentHandles(s: State, j: nat, k: nat)
    requires Base(s) && j < k < |Registered(s.slots, s.order)|
    ensures Registered(s.slots, s.order)[j].handle != Registered(s.slots, s.order)[k].handle
  {
    hide Consecutive, CountActive, ListsOk, MakeHandle;
    var list := Registered(s.slots, s.order);
    var p := RegisteredFrom(s.slots, s.order, j);
    var q := RegisteredFrom(s.slots, s.order, k);
    assert EntryOk(s.slots, s.order[p], s.next) && EntryOk(s.slots, s.order[q], s.next);
    RegisteredOrdered(s.slots, s.order);
    assert list[j].serial < list[k].serial;
    assert p != q;
    if p < q {
      EntriesAreDistinct(s, p, q);
    } else {
      EntriesAreDistinct(s, q, p);
    }
    HandleParts(s.order[p].index, s.order[p].generation, list[j].handle);
    HandleParts(s.order[q].index, s.order[q].generation, list[k].handle);
  }

  /** Where the registration of an active slot stands, in the order and in the list. */
  lemma ActiveListed(s: State, i: nat) returns (j: nat, p: nat)
    requires Base(s) && i < |s.slots| && s.slots[i].active
    ensures p < |s.order| && s.order[p].index == i && Live(s.slots, s.order[p])
    ensures s.order[p].generation == s.slots[i].generation
    ensures forall q :: 0 <= q < |s.order| && s.order[q].index == i && Live(s.slots, s.order[q]) ==> q == p
    ensures var list := Registered(s.slots, s.order);
            j < |list| && list[j] == RegistrationOf(s.slots, s.order[p]) && s.order[p].serial in Serials(list)
  {
    p := CurrentEntry(s, i);
    RegisteredHas(s.slots, s.order, p);
    var list := Registered(s.slots, s.order);
    j :| 0 <= j < |list| && list[j] == RegistrationOf(s.slots, s.order[p]);
    assert list[j].serial in Serials(list);
  }

  class MulticastDelegate {
    var slots: seq<Slot>
    var order: seq<Entry>
    var freeHead: nat
    var retiredHead: nat
    var activeCount: nat
    var broadcastDepth: nat
    var tombstoneCount: nat
    ghost var free: seq<nat>
    ghost var retired: seq<nat>
    ghost var next: nat
    ghost var open: seq<seq<Registration>>
    ghost var log: seq<Event>

    ghost function Current(): State
      reads this
    {
      State(slots, order, freeHead, retiredHead, activeCount, tombstoneCount, free, retired, next)
    }

    /** The registrations, in registration order. */
    ghost function Listeners(): seq<Registration>
      reads this
    {
      Registered(slots, order)
    }

    /** What the log so far comes to. */
    ghost function Now(): Machine
      reads this
    {
      Machine(Listeners(), open, next)
    }

    /** The bookkeeping is sound, and everything observable so far is a log the simple machine
        accepts, ending in the present list of listeners. */
    ghost predicate Valid()
      reads this
    {
      && Inv(Current())
      && |open| == broadcastDepth
      && (broadcastDepth == 0 ==> retired == [])
      && Replay(log) == Some(Now())
    }

    constructor ()
      ensures Valid() && Listeners() == [] && broadcastDepth == 0 && log == []
    {
      slots, order, freeHead, retiredHead := [], [], INVALID_SLOT, INVALID_SLOT;
      activeCount, broadcastDepth, tombstoneCount := 0, 0, 0;
      free, retired, next, open, log := [], [], 0, [], [];
    }

    // -------------------------------------------------------------------------
    // Slots
    // -------------------------------------------------------------------------

    method AcquireSlot() returns (slot: Option<nat>)
      requires Inv(Current())
      modifies `slots, `freeHead
      ensures old(free) != [] ==>
                && old(freeHead) < |old(slots)| && slot == Some(old(freeHead))
                && slots == old(slots)[old(freeHead) := old(slots)[old(freeHead)].(nextFree := INVALID_SLOT)]
                && freeHead == old(slots)[old(freeHead)].nextFree
      ensures old(free) == [] && |old(slots)| < MAX_SLOTS ==>
                && slot == Some(|old(slots)|) && freeHead == old(freeHead)
                && slots == old(slots) + [FreshSlot(INVALID_SLOT)]
      ensures old(free) == [] && |old(slots)| == MAX_SLOTS ==>
                slot == None && slots == old(slots) && freeHead == old(freeHead)
    {
      assert free != [] ==> free[0] < |slots|;
      if freeHead != INVALID_SLOT {
        var i := freeHead;
        freeHead := slots[i].nextFree;
        slots := slots[i := slots[i].(nextFree := INVALID_SLOT)];
        return Some(i);
      }
      if |slots| >= MAX_SLOTS {
        return None;
      }
      slots := slots + [FreshSlot(INVALID_SLOT)];
      slot := Some(|slots| - 1);
    }

    method ReleaseUnboundSlot(i: nat)
      requires i < |slots|
      modifies `slots, `freeHead
      ensures slots == old(slots)[i := old(slots)[i].(nextFree := old(freeHead))] && freeHead == i
    {
      slots := slots[i := slots[i].(nextFree := freeHead)];
      freeHead := i;
    }

    method RetireSlot(i: nat)
      requires Inv(Current()) && i < |slots| && slots[i].active
      modifies this
      ensures old(activeCount) > 0 && Current() == Retire(old(Current()), i)
      ensures broadcastDepth == old(broadcastDepth) && open == old(open) && log == old(log)
    {
      hide Base, Reusable, Registered, NextGeneration;
      RetireKeepsInv(Current(), i);
      slots := slots[i := RetiredSlot(slots[i], retiredHead)];
      retiredHead := i;
      retired := [i] + retired;
      activeCount := activeCount - 1;
      tombstoneCount := tombstoneCount + 1;
    }

    method ReleaseFirstRetired()
      requires Base(Current()) && open == [] && retiredHead != INVALID_SLOT
      requires Replay(log) == Some(Now())
      modifies this
      ensures old(retired) != [] && Base(Current()) && retired == old(retired)[1..]
      ensures old(retiredHead) < |old(slots)| && Current() == ReleaseFirst(old(Current()))
      ensures Listeners() == old(Listeners()) && order == old(order) && next == old(next)
      ensures open == [] && broadcastDepth == old(broadcastDepth)
      ensures Replay(log) == Some(Now())
      ensures Grows(old(log), log, |open|) && Shows(old(log), log, [])
    {
      hide Base, Registered, Replay, Step;
      Heads(Current());
      ReleaseKeepsBase(Current());
      ghost var was := Current();
      var i := retiredHead;
      ghost var callback := slots[i].callback.value;
      retiredHead := slots[i].nextFree;
      slots := slots[i := slots[i].(callback := None)];
      slots := slots[i := slots[i].(nextFree := freeHead)];
      freeHead := i;
      free, retired := [i] + free, retired[1..];
      assert Current() == ReleaseFirst(was);
      ReplayOne(log, Reset(callback));
      StepReset(Machine(Listeners(), open, next), callback);
      GrowsByOne(log, Reset(callback), |open|);
      ShownOne(log, Reset(callback));
      log := log + [Reset(callback)];
    }

    /** Resets the callbacks of retired slots and hands the slots to the free list. */
    method ReleaseRetiredSlots()
      requires Base(Current()) && open == []
      requires Replay(log) == Some(Now())
      modifies this
      ensures Base(Current()) && retired == [] && open == [] && broadcastDepth == old(broadcastDepth)
      ensures Current() == ReleasedAll(old(Current()))
      ensures Listeners() == old(Listeners()) && order == old(order) && next == old(next)
      ensures Replay(log) == Some(Now())
      ensures Grows(old(log), log, 0) && Shows(old(log), log, [])
    {
      hide Base, Registered, Replay, Step, Grows, Shows;
      Heads(Current());
      GrowsReflexive(log, 0);
      ShowsNothing(log);
      while retiredHead != INVALID_SLOT
        invariant Base(Current()) && open == [] && broadcastDepth == old(broadcastDepth)
        invariant Listeners() == old(Listeners()) && order == old(order) && next == old(next)
        invariant Replay(log) == Some(Now())
        invariant retiredHead == INVALID_SLOT <==> retired == []
        invariant ReleasedAll(Current()) == ReleasedAll(old(Current()))
        invariant Grows(old(log), log, 0) && Shows(old(log), log, [])
        decreases |retired|
      {
        ghost var before := log;
        ReleaseFirstRetired();
        GrowsTransitive(old(log), before, log, 0);
        GrowsIsPrefix(before, log, 0);
        ShowsThrough(old(log), before, log, [], []);
        Heads(Current());
      }
    }

    method CompactOrder()
      requires Base(Current())
      modifies `order, `slots, `tombstoneCount
      ensures Current() == Compacted(old(Current()))
    {
      order := LiveEntries(slots, order);
      var was := slots;
      slots := seq(|was|, i requires 0 <= i < |was| => was[i].(oldest := was[i].age));
      assert slots == Compacted(old(Current())).slots;
      tombstoneCount := 0;
    }

    /** Once no broadcast is open: release what was retired, and compact when worth it. */
    method FinalizeRetiredSlots()
      requires Base(Current()) && open == [] && broadcastDepth == 0
      requires Replay(log) == Some(Now())
      modifies this
      ensures Valid() && broadcastDepth == 0 && Listeners() == old(Listeners()) && next == old(next)
      ensures Current() == Finalized(old(Current()))
      ensures Listeners() == [] ==> order == []
      ensures retired == [] && (tombstoneCount < 16 || tombstoneCount * 2 < |order|)
      ensures order != old(order) ==> |old(order)| >= 2 * |order| == 2 * |Listeners()|
      ensures Grows(old(log), log, 0) && Shows(old(log), log, [])
    {
      hide Base, Reusable, Registered, Replay, Step, LiveEntries, Shows;
      ReleaseRetiredSlots();
      OrderCounts(Current());
      if activeCount == 0 || (tombstoneCount >= 16 && tombstoneCount * 2 >= |order|) {
        CompactionKeepsInv(Current());
        CompactOrder();
      } else {
        SkippedCompactionIsReusable(Current());
      }
    }

    // -------------------------------------------------------------------------
    // Public operations
    // -------------------------------------------------------------------------

    /** Appends a registration under a handle no present one has; fails only when the order
        cannot grow or every slot is taken, and then changes no registration. */
    method Add(callback: Callback, allocationFails: bool) returns (handle: Option<nat>)
      requires Valid()
      modifies this
      ensures Valid() && broadcastDepth == old(broadcastDepth) && open == old(open)
      ensures handle == None <==> allocationFails || (old(free) == [] && |old(slots)| == MAX_SLOTS)
      ensures handle.Some? ==>
                && !HasHandle(old(Listeners()), handle.value)
                && Listeners() == old(Listeners()) + [Registration(old(next), handle.value, callback)]
      ensures handle == None ==> Listeners() == old(Listeners())
      ensures handle.Some? && old(free) != [] ==>
                old(freeHead) < |old(slots)| && Current() == AddReusing(old(Current()), callback)
                && handle.value == MakeHandle(old(freeHead), old(slots)[old(freeHead)].generation)
      ensures handle.Some? && old(free) == [] ==>
                Current() == AddGrowing(old(Current()), callback) && handle.value == MakeHandle(|old(slots)|, 1)
      ensures Evolves(old(Current()), Current())
      ensures Grows(old(log), log, |open|) && Did(DoAdd(callback, allocationFails), old(Now()), old(log), log, Now())
    {
      hide Base, Reusable, Registered, Replay, Step, Evolves, MakeHandle, Grows, Did;
      Heads(Current());
      EvolvesReflexive(Current());
      GrowsReflexive(log, |open|);
      ghost var was := Current();
      var slot := AcquireSlot();
      if slot == None {
        assert Current() == was;
        LogRefused(true);
        DidRefuse(callback, allocationFails, Now(), old(log), true);
        return None;
      }
      var i := slot.value;
      if allocationFails {
        ReleaseUnboundSlot(i);
        if was.free == [] {
          free := [i] + free;
          GrowFreeKeepsInv(was);
          AddGrowingEvolves(was, callback);
          assert Current() == GrowFree(was);
        } else {
          assert Current() == was;
        }
        LogRefused(false);
        DidRefuse(callback, true, Now(), old(log), false);
        return None;
      }
      handle := Bind(was, i, callback);
      DidAdd(old(Now()), old(log), Registration(was.next, handle.value, callback));
    }

    /** Records slot `i`, just acquired from state `was`, in the order and binds it. */
    method Bind(ghost was: State, i: nat, callback: Callback) returns (handle: Option<nat>)
      requires Inv(was) && (was.free == [] ==> |was.slots| < MAX_SLOTS)
      requires was.free != [] ==>
                 && was.freeHead < |was.slots| && i == was.freeHead && freeHead == was.slots[i].nextFree
                 && slots == was.slots[i := was.slots[i].(nextFree := INVALID_SLOT)]
      requires was.free == [] ==>
                 i == |was.slots| && freeHead == was.freeHead && slots == was.slots + [FreshSlot(INVALID_SLOT)]
      requires Current() == was.(slots := slots, freeHead := freeHead)
      requires Replay(log) == Some(Machine(Registered(was.slots, was.order), open, was.next))
      modifies this
      ensures Inv(Current()) && Evolves(was, Current()) && retired == was.retired
      ensures broadcastDepth == old(broadcastDepth) && open == old(open)
      ensures Replay(log) == Some(Now())
      ensures handle.Some? && !HasHandle(Registered(was.slots, was.order), handle.value)
      ensures Listeners() == Registered(was.slots, was.order) + [Registration(was.next, handle.value, callback)]
      ensures was.free != [] ==>
                Current() == AddReusing(was, callback) && handle.value == MakeHandle(i, was.slots[i].generation)
      ensures was.free == [] ==> Current() == AddGrowing(was, callback) && handle.value == MakeHandle(i, 1)
      ensures Grows(old(log), log, |open|)
      ensures log == old(log) + [Added(Registration(was.next, handle.value, callback))]
    {
      hide Base, Reusable, Registered, Replay, Step, Evolves, MakeHandle, HasHandle, Grows;
      order := order + [Entry(i, slots[i].generation, next, slots[i].age)];
      slots := slots[i := slots[i].(callback := Some(callback))];
      slots := slots[i := slots[i].(active := true)];
      activeCount := activeCount + 1;
      next := next + 1;
      if was.free == [] {
        AddGrowingKeepsInv(was, callback);
        AddGrowingEvolves(was, callback);
        assert Current() == AddGrowing(was, callback);
      } else {
        free := free[1..];
        AddReusingKeepsInv(was, callback);
        AddReusingEvolves(was, callback);
        assert Current() == AddReusing(was, callback);
      }
      handle := Some(MakeHandle(i, slots[i].generation));
      LogAdded(was, Registration(was.next, handle.value, callback));
    }

    ghost method LogRefused(full: bool)
      requires Replay(log) == Some(Now())
      modifies `log
      ensures Replay(log) == Some(Now()) && log == old(log) + [Refused(full)] && Grows(old(log), log, |open|)
    {
      hide Registered, Replay;
      ReplayOne(log, Refused(full));
      GrowsByOne(log, Refused(full), |open|);
      log := log + [Refused(full)];
    }

    ghost method LogAdded(was: State, r: Registration)
      requires Base(Current()) && next == was.next + 1 && r.serial == was.next
      requires Listeners() == Registered(was.slots, was.order) + [r]
      requires Replay(log) == Some(Machine(Registered(was.slots, was.order), open, was.next))
      modifies `log
      ensures Replay(log) == Some(Now())
      ensures !HasHandle(Registered(was.slots, was.order), r.handle)
      ensures Grows(old(log), log, |open|) && log == old(log) + [Added(r)]
    {
      hide Base, Registered, Replay, MakeHandle, Evolves;
      ListedHandles(Current());
      var list := Registered(was.slots, was.order);
      assert forall k :: 0 <= k < |list| ==> list[k] == Listeners()[k];
      assert Listeners()[|list|] == r;
      ReplayOne(log, Added(r));
      GrowsByOne(log, Added(r), |open|);
      log := log + [Added(r)];
    }

    /** Whether some registration has this handle. */
    method Contains(handle: nat) returns (present: bool)
      requires Valid()
      ensures present <==> HasHandle(Listeners(), handle)
    {
      hide Base, Reusable, Registered, Replay, SlotIndex, Generation;
      ListedHandles(Current());
      present := handle != 0 && IsActive(slots, SlotIndex(handle), Generation(handle));
    }

    method Size() returns (n: nat)
      requires Valid()
      ensures n == |Listeners()|
    {
      Heads(Current());
      n := activeCount;
    }

    /** Removes exactly the registration with this handle, if there is one. */
    method Remove(handle: nat) returns (removed: bool)
      requires Valid()
      modifies this
      ensures Valid() && broadcastDepth == old(broadcastDepth) && open == old(open)
      ensures removed <==> HasHandle(old(Listeners()), handle)
      ensures Listeners() == OtherThan(old(Listeners()), handle)
      ensures !removed ==> Current() == old(Current())
      ensures removed ==> old(activeCount) > 0 && handle != 0 && SlotIndex(handle) < |old(slots)|
      ensures removed ==> Current() == (var s := Retire(old(Current()), SlotIndex(handle));
                                        if broadcastDepth == 0 then Finalized(s) else s)
      ensures broadcastDepth > 0 ==> Evolves(old(Current()), Current())
      ensures Grows(old(log), log, |open|) && Did(DoRemove(handle), old(Now()), old(log), log, Now())
    {
      hide Base, Reusable, Registered, Replay, Step, Evolves, MakeHandle, SlotIndex, Generation, Grows, Did, Shows;
      GrowsReflexive(log, |open|);
      ListedHandles(Current());
      EvolvesReflexive(Current());
      var present := Contains(handle);
      if !present {
        NoneToRemove(Listeners(), handle);
        DidRemoveNone(handle, Now(), log);
        return false;
      }
      var i := SlotIndex(handle);
      ActiveHandle(Current(), handle);
      Detach(i);
      DidRemove(handle, old(Now()), old(log));
      if broadcastDepth == 0 {
        ghost var before, between := log, Now();
        FinalizeRetiredSlots();
        GrowsTransitive(old(log), before, log, 0);
        DidShowNothing(DoRemove(handle), old(Now()), old(log), before, log, between);
      }
      removed := true;
    }

    /** Retires slot `i`: its registration leaves the list, all others stay. */
    method Detach(i: nat)
      requires Inv(Current()) && i < |slots| && slots[i].active
      requires Replay(log) == Some(Now())
      modifies this
      ensures old(activeCount) > 0 && Inv(Current()) && Current() == Retire(old(Current()), i)
      ensures Evolves(old(Current()), Current())
      ensures broadcastDepth == old(broadcastDepth) && open == old(open) && next == old(next)
      ensures order == old(order) && Replay(log) == Some(Now())
      ensures Listeners() == OtherThan(old(Listeners()), MakeHandle(i, old(slots)[i].generation))
      ensures |Listeners()| < |old(Listeners())| && HandlesDiffer(old(Listeners()))
      ensures HasHandle(old(Listeners()), MakeHandle(i, old(slots)[i].generation))
      ensures Grows(old(log), log, |open|)
      ensures log == old(log) + [Removed(SerialOf(old(Listeners()), MakeHandle(i, old(slots)[i].generation)))]
    {
      hide Base, Reusable, Registered, Replay, Evolves, MakeHandle, NextGeneration, OtherThan, HandlesDiffer, Grows;
      ghost var was := Current();
      var j, p := ActiveListed(was, i);
      ListedHandles(was);
      ListOrdered(was);
      ghost var list := Listeners();
      RetireKeepsInv(was, i);
      RetireRegistered(was, i, p);
      RetireEvolves(was, i);
      WithoutIsOtherThan(list, Serials(list) - {list[j].serial}, j);
      SerialAt(list, j);
      ReplayOne(log, Removed(order[p].serial));
      GrowsByOne(log, Removed(order[p].serial), |open|);
      log := log + [Removed(order[p].serial)];
      RetireSlot(i);
    }

    /** Removes every registration. */
    method Clear()
      requires Valid()
      modifies this
      ensures Valid() && broadcastDepth == old(broadcastDepth) && open == old(open)
      ensures Listeners() == []
      ensures broadcastDepth > 0 ==> Evolves(old(Current()), Current())
      ensures Grows(old(log), log, |open|) && Did(DoClear, old(Now()), old(log), log, Now())
    {
      hide Base, Reusable, Registered, Replay, Step, Evolves, Grows, Shows, ClearedTo, Did, MakeHandle;
      EvolvesReflexive(Current());
      GrowsReflexive(log, |open|);
      NothingRegistered(slots);
      StartTo(NoReactions, Now());
      ShowsNothing(log);
      ghost var seen: seq<Event> := [];
      var k := 0;
      assert order[..k] == [];
      while k < |order|
        invariant k <= |order| && order == old(order)
        invariant Inv(Current()) && broadcastDepth == old(broadcastDepth) && open == old(open) && next == old(next)
        invariant Replay(log) == Some(Now())
        invariant Evolves(old(Current()), Current())
        invariant Registered(slots, order[..k]) == []
        invariant Grows(old(log), log, |open|)
        invariant Shows(old(log), log, seen) && ClearedTo(old(Now()), seen, Now())
      {
        ghost var was, before, machine := Current(), log, Now();
        if IsActive(slots, order[k].index, order[k].generation) {
          FirstIsListed(was, k);
          Detach(order[k].index);
          EvolvesTransitive(old(Current()), was, Current());
          GrowsTransitive(old(log), before, log, |open|);
          ClearedNext(old(Now()), seen, machine, Now(), old(log), before, log);
          seen := seen + [Removed(machine.list[0].serial)];
        }
        StillNone(was, Current(), k);
        k := k + 1;
      }
      assert order[..k] == order;
      DidClear(old(Now()), seen, Now(), old(log), log);
      if broadcastDepth == 0 {
        ghost var before, between := log, Now();
        FinalizeRetiredSlots();
        GrowsTransitive(old(log), before, log, 0);
        DidShowNothing(DoClear, old(Now()), old(log), before, log, between);
      }
    }

    /** Calls, in registration order, the listeners registered at the start and still
        registered when reached; the log's machine refuses anything else. What is shown is this
        broadcast, each callback doing what its reaction says. */
    method Broadcast(reactions: Reactions)
      requires Valid()
      modifies this
      ensures Valid() && broadcastDepth == old(broadcastDepth) && open == old(open)
      ensures broadcastDepth > 0 ==> Evolves(old(Current()), Current())
      ensures Grows(old(log), log, |open|) && Did(DoBroadcast(reactions), old(Now()), old(log), log, Now())
      ensures At(log, |old(log)|).list == old(Listeners())
      ensures exists e: nat :: IsBroadcast(log, |old(log)|, e)
      decreases reactions, 2
    {
      hide Base, Reusable, Registered, Replay, Step, Evolves, Considered, Grows, IsBroadcast, At, Shows, Did;
      ghost var before, machine := log, Now();
      EvolvesReflexive(Current());
      broadcastDepth := broadcastDepth + 1;
      LogBegan();
      ghost var inside := CallListeners(reactions, before, machine);
      broadcastDepth := broadcastDepth - 1;
      if broadcastDepth == 0 {
        ghost var ended, between := log, Now();
        FinalizeRetiredSlots();
        GrowsTransitive(before, ended, log, 0);
        GrowsIsPrefix(ended, log, 0);
        DidShowNothing(DoBroadcast(reactions), machine, before, ended, log, between);
      }
      WholeBroadcast(before, inside, log);
    }

    /** The loop of a broadcast that has just begun: everything registered then and still
        registered when reached. */
    method CallListeners(reactions: Reactions, ghost before: seq<Event>, ghost machine: Machine)
      returns (ghost inside: seq<Event>)
      requires Valid() && broadcastDepth > 0 && Replay(before) == Some(machine) && log == before + [Began]
      requires Now() == machine.(open := machine.open + [machine.list]) && machine.list == Listeners()
      modifies this
      ensures Inv(Current()) && broadcastDepth == old(broadcastDepth) && Replay(log) == Some(Now())
      ensures open == machine.open && Evolves(old(Current()), Current())
      ensures Grows(before, log, |open|) && Did(DoBroadcast(reactions), machine, before, log, Now())
      ensures Replay(before + [Began]) != None && Grows(before + [Began], inside, |open| + 1)
      ensures |Replay(inside).value.open| == |open| + 1 && inside + [Ended] <= log
      decreases reactions, 1
    {
      hide Base, Reusable, Registered, Replay, Step, Evolves, Considered, Grows, At, Shows, CalledTo, Did;
      ghost var start, begun, first := Current(), log, Now();
      ghost var seen: seq<Event> := [];
      StartConsidered(start);
      EvolvesReflexive(start);
      GrowsReflexive(log, |open|);
      StartTo(reactions, first);
      ShowsNothing(log);
      var initialOrderSize := |order|;
      var pending := reactions;
      var k := 0;
      while k < initialOrderSize
        invariant k <= initialOrderSize == |start.order| <= |order|
        invariant pending == reactions || pending < reactions
        invariant Valid() && broadcastDepth == old(broadcastDepth) && |open| == |machine.open| + 1
        invariant open[..|open| - 1] == machine.open
        invariant Evolves(start, Current())
        invariant Considered(start, Current(), open[|open| - 1], k)
        invariant Grows(begun, log, |open|)
        invariant Shows(begun, log, seen)
        invariant CalledTo(reactions, first, seen, pending, Now())
      {
        LiveWithin(Current(), k);
        if IsActive(slots, order[k].index, order[k].generation) {
          pending, seen := CallListener(pending, k, start, reactions, first, begun, seen);
        } else {
          SkippedConsidered(start, Current(), open[|open| - 1], k);
        }
        k := k + 1;
      }
      inside := log;
      ghost var last := Now();
      LogEnded(start);
      GrowsThrough(before, inside, log, |open|);
      DidBroadcast(reactions, machine, seen, pending, last, Now(), before, begun, inside);
    }

    /** Calls the listener at position `k` of the order; its callback does what the next reaction
        says, if there is one. `machine` is where the broadcast began, `seen` what it has shown. */
    method CallListener(pending: Reactions, k: nat, ghost start: State, ghost reactions: Reactions,
                        ghost machine: Machine, ghost begun: seq<Event>, ghost seen: seq<Event>)
      returns (later: Reactions, ghost seen': seq<Event>)
      requires Valid() && broadcastDepth > 0 && k < |start.order| <= |order| && Live(slots, order[k])
      requires Evolves(start, Current()) && Considered(start, Current(), open[|open| - 1], k)
      requires Grows(begun, log, |open|) && Shows(begun, log, seen)
      requires CalledTo(reactions, machine, seen, pending, Now())
      modifies this
      ensures Valid() && broadcastDepth == old(broadcastDepth) && |open| == |old(open)|
      ensures open[..|open| - 1] == old(open)[..|open| - 1] && |start.order| <= |order|
      ensures Evolves(start, Current()) && Considered(start, Current(), open[|open| - 1], k + 1)
      ensures Grows(begun, log, |open|) && Shows(begun, log, seen')
      ensures CalledTo(reactions, machine, seen', later, Now())
      ensures if pending.React? then later == pending.later else later == pending
      decreases pending, 0
    {
      hide Base, Reusable, Registered, Replay, Step, Evolves, Considered, RegistrationOf, Grows, Shows, CalledTo,
           DidAll;
      ghost var earlier, from := log, Now();
      ghost var registration := RegistrationOf(slots, order[k]);
      LogCalled(start, registration, k);
      GrowsTransitive(begun, earlier, log, |open|);
      ghost var called, answered := Now(), log;
      later := pending;
      if pending.React? {
        ghost var was, listeners := Current(), open[|open| - 1];
        Run(pending.operations);
        later := pending.later;
        StillConsidered(start, was, Current(), listeners, k + 1);
        EvolvesTransitive(start, was, Current());
        GrowsTransitive(begun, answered, log, |open|);
      }
      OrderCovers(start, Current(), open[|open| - 1], k + 1);
      seen' := CalledNext(reactions, machine, seen, pending, from, called, Now(), begun, earlier, answered, log);
    }

    /** What a callback, or the client at top level, does: each operation in turn, and nothing else. */
    method Run(operations: Operations)
      requires Valid()
      modifies this
      ensures Valid() && broadcastDepth == old(broadcastDepth) && open == old(open)
      ensures broadcastDepth > 0 ==> Evolves(old(Current()), Current())
      ensures Grows(old(log), log, |open|) && DidAll(operations, old(Now()), old(log), log, Now())
      decreases operations
    {
      hide Base, Reusable, Registered, Replay, Step, Evolves, Grows, Did, DidAll;
      EvolvesReflexive(Current());
      GrowsReflexive(log, |open|);
      DidDone(Now(), log);
      if operations.Then? {
        ghost var before := Current();
        match operations.first {
          case DoAdd(callback, allocationFails) => var _ := Add(callback, allocationFails);
          case DoRemove(handle) => var _ := Remove(handle);
          case DoClear => Clear();
          case DoBroadcast(reactions) => Broadcast(reactions);
        }
        ghost var between, earlier, machine := Current(), log, Now();
        Run(operations.rest);
        GrowsTransitive(old(log), earlier, log, |open|);
        DidThen(operations.first, operations.rest, old(Now()), machine, Now(), old(log), earlier, log);
        if broadcastDepth > 0 {
          EvolvesTransitive(before, between, Current());
        }
      }
    }

    ghost method LogBegan()
      requires Inv(Current()) && Replay(log) == Some(Now())
      modifies `log, `open
      ensures Replay(log) == Some(Now())
      ensures open == old(open) + [Listeners()] && Considered(Current(), Current(), Listeners(), 0)
      ensures log == old(log) + [Began] && Grows(log, log, |open|)
    {
      hide Base, Reusable, Registered, Replay;
      ReplayOne(log, Began);
      log := log + [Began];
      open := open + [Listeners()];
      GrowsReflexive(log, |open|);
      StartConsidered(Current());
    }

    ghost method LogCalled(start: State, registration: Registration, k: nat)
      requires Valid() && broadcastDepth > 0 && k < |start.order| <= |order|
      requires Evolves(start, Current()) && Considered(start, Current(), open[|open| - 1], k)
      requires Live(slots, order[k]) && registration == RegistrationOf(slots, order[k])
      modifies `log, `open
      ensures Valid() && |open| == |old(open)| && open[..|open| - 1] == old(open)[..|open| - 1]
      ensures Considered(start, Current(), open[|open| - 1], k + 1)
      ensures log == old(log) + [Called(registration)] && NextCall(old(Now()), registration, Now())
      ensures Grows(old(log), log, |open|)
    {
      hide Base, Reusable, Registered, Replay, Evolves;
      var last, listeners := |open| - 1, open[|open| - 1];
      var first := NextListener(start, Current(), listeners, k);
      ReplayOne(log, Called(registration));
      GrowsByOne(log, Called(registration), |open|);
      log := log + [Called(registration)];
      open := open[last := listeners[first + 1..]];
    }

    ghost method LogEnded(start: State)
      requires Valid() && broadcastDepth > 0 && |start.order| <= |order|
      requires Considered(start, Current(), open[|open| - 1], |start.order|)
      modifies `log, `open
      ensures Replay(log) == Some(Now()) && open == old(open)[..|old(open)| - 1]
      ensures log == old(log) + [Ended] && NoCallLeft(old(Now()))
    {
      hide Base, Reusable, Registered, Replay;
      var last := |open| - 1;
      NobodyLeft(start, Current(), open[last]);
      ReplayOne(log, Ended);
      log := log + [Ended];
      open := open[..last];
    }
  }

  /** The first entry that is live is the first registration. */
  lemma FirstIsListed(s: State, k: nat)
    requires Base(s) && k < |s.order| && Registered(s.slots, s.order[..k]) == [] && Live(s.slots, s.order[k])
    ensures var list := Registered(s.slots, s.order);
            list != [] && s.slots[s.order[k].index].active
            && list[0].handle == MakeHandle(s.order[k].index, s.slots[s.order[k].index].generation)
  {
    assert s.order == s.order[..k] + s.order[k..];
    RegisteredConcat(s.slots, s.order[..k], s.order[k..]);
  }

  /** The age of a slot when it was bound under this generation, up to whole periods, decides
      whether the handle given out then is found. */
  lemma HandleResolvesAfterWholePeriods(s: State, i: nat, a: nat)
    requires Base(s) && i < MAX_SLOTS
    ensures HasHandle(Registered(s.slots, s.order), MakeHandle(i, GenerationAt(a)))
            <==> i < |s.slots| && s.slots[i].active && s.slots[i].age % PERIOD == a % PERIOD
  {
    hide Registered, OrderOk, ListsOk, CountsOk, MakeHandle, SlotIndex, Generation;
    ListedHandles(s);
    HandleParts(i, GenerationAt(a), MakeHandle(i, GenerationAt(a)));
    if i < |s.slots| {
      assert SlotOk(s.slots[i]);
    }
  }

  lemma {:induction false} LastRemoved(list: seq<Registration>, r: Registration)
    requires !HasHandle(list, r.handle)
    ensures OtherThan(list + [r], r.handle) == list
    decreases |list|
  {
    if list == [] {
      assert [r][1..] == [];
    } else {
      assert list[0].handle != r.handle;
      assert forall k :: 0 <= k < |list[1..]| ==> list[1..][k] == list[k + 1];
      LastRemoved(list[1..], r);
      assert (list + [r])[1..] == list[1..] + [r];
    }
  }

  lemma SerialsBelow(s: State)
    requires Base(s)
    ensures forall r :: r in Registered(s.slots, s.order) ==> r.serial < s.next
  {
    var list := Registered(s.slots, s.order);
    forall r | r in list ensures r.serial < s.next {
      var j: nat :| j < |list| && list[j] == r;
      var p := RegisteredFrom(s.slots, s.order, j);
      assert EntryOk(s.slots, s.order[p], s.next);
    }
  }

  /** The slot a listed handle names, and that slot's age. */
  lemma NamedSlot(s: State, handle: nat) returns (i: nat, age: nat)
    requires Base(s) && HasHandle(Registered(s.slots, s.order), handle)
    ensures i == SlotIndex(handle) < |s.slots| && age == s.slots[i].age
    ensures handle == MakeHandle(i, GenerationAt(age)) && s.activeCount > 0
  {
    hide Registered, OrderOk, ListsOk, CountsOk, MakeHandle, SlotIndex, Generation, GenerationAt;
    ListedHandles(s);
    ActiveHandle(s, handle);
    i := SlotIndex(handle);
    age := s.slots[i].age;
    assert SlotOk(s.slots[i]);
    var p := CurrentEntry(s, i);
  }

  /** The handle a slot's next registration gets. */
  lemma NextHandle(s: State, i: nat)
    requires Base(s) && i < |s.slots|
    ensures var handle := MakeHandle(i, s.slots[i].generation);
            handle == MakeHandle(i, GenerationAt(s.slots[i].age)) && SlotIndex(handle) == i
  {
    hide Registered, OrderOk, ListsOk, CountsOk, MakeHandle, SlotIndex, Generation, GenerationAt;
    assert SlotOk(s.slots[i]);
    HandleParts(i, s.slots[i].generation, MakeHandle(i, s.slots[i].generation));
  }

  lemma WholePeriod(age: nat)
    ensures GenerationAt(age + PERIOD) == GenerationAt(age)
  {
  }

  /** Adds a callback and removes it again: the slot is free as before, and one older. */
  method AddAndRemove(d: MulticastDelegate, callback: Callback, ghost i: nat)
    requires d.Valid() && d.broadcastDepth == 0 && d.free != [] && d.freeHead == i < |d.slots|
    modifies d
    ensures d.Valid() && d.broadcastDepth == 0 && d.free != [] && d.freeHead == i < |d.slots|
    ensures d.slots[i].age == old(d.slots)[i].age + 1 && d.next == old(d.next) + 1
    ensures d.Listeners() == old(d.Listeners())
  {
    hide Base, Reusable, Registered, Replay, Retire, Finalized, MakeHandle, SlotIndex, OtherThan, Evolves, Grows;
    NextHandle(d.Current(), i);
    var h := d.Add(callback, false);
    LastRemoved(old(d.Listeners()), Registration(old(d.next), h.value, callback));
    FinalizedIsNext(d.Current(), i);
    assert d.Listeners()[|old(d.Listeners())|].handle == h.value;
    var _ := d.Remove(h.value);
  }

  /** Every handle of every delegate can come to name another registration: remove it, add and
      remove a callback PERIOD - 1 times, and add one more. */
  method ReuseHandle(d: MulticastDelegate, handle: nat, callback: Callback) returns (again: Option<nat>)
    requires d.Valid() && d.broadcastDepth == 0 && HasHandle(d.Listeners(), handle)
    modifies d
    ensures d.Valid() && again == Some(handle)
    ensures d.Listeners() == OtherThan(old(d.Listeners()), handle)
                             + [Registration(old(d.next) + PERIOD - 1, handle, callback)]
    ensures forall r :: r in old(d.Listeners()) ==> r.serial < old(d.next)
  {
    hide Base, Reusable, Registered, Replay, Retire, Finalized, MakeHandle, SlotIndex, OtherThan, Evolves, Grows,
         GenerationAt, HasHandle;
    SerialsBelow(d.Current());
    ghost var i, age := NamedSlot(d.Current(), handle);
    FinalizedIsNext(d.Current(), i);
    var _ := d.Remove(handle);
    var k: nat := 0;
    while k < PERIOD - 1
      invariant k <= PERIOD - 1 && d.Valid() && d.broadcastDepth == 0 && d.next == old(d.next) + k
      invariant d.free != [] && d.freeHead == i < |d.slots| && d.slots[i].age == age + 1 + k
      invariant d.Listeners() == OtherThan(old(d.Listeners()), handle)
    {
      AddAndRemove(d, callback, i);
      k := k + 1;
    }
    NextHandle(d.Current(), i);
    WholePeriod(age);
    again := d.Add(callback, false);
  }

  /** Position `k` of a broadcast that began in state `start`: those of the remaining listeners
      that are still listed are exactly the live entries from `k` up to the order's length then. */
  ghost predicate Considered(start: State, now: State, listeners: seq<Registration>, k: nat) {
    && k <= |start.order| <= |now.order|
    && (forall j :: 0 <= j < |listeners| ==> listeners[j].serial < start.next)
    && Keep(listeners, Serials(Registered(now.slots, now.order)))
       == Registered(now.slots, now.order[k..|start.order|])
  }

  lemma OrderCovers(start: State, now: State, listeners: seq<Registration>, k: nat)
    requires Considered(start, now, listeners, k)
    ensures |start.order| <= |now.order|
  {
  }

  lemma StartConsidered(s: State)
    requires Base(s)
    ensures Considered(s, s, Registered(s.slots, s.order), 0)
  {
    var list := Registered(s.slots, s.order);
    assert s.order[0..|s.order|] == s.order;
    forall j: nat | j < |list| ensures list[j].serial < s.next && list[j].serial in Serials(list) {
      var p := RegisteredFrom(s.slots, s.order, j);
      assert EntryOk(s.slots, s.order[p], s.next);
    }
    KeepAll(list, Serials(list));
  }

  lemma LiveWithin(s: State, k: nat)
    requires Base(s) && k < |s.order|
    ensures s.order[k].index < |s.slots|
    ensures Live(s.slots, s.order[k]) ==> s.slots[s.order[k].index].callback.Some?
  {
    assert EntryOk(s.slots, s.order[k], s.next) && SlotOk(s.slots[s.order[k].index]);
  }

  lemma SkippedConsidered(start: State, now: State, listeners: seq<Registration>, k: nat)
    requires Considered(start, now, listeners, k) && k < |start.order| && !Live(now.slots, now.order[k])
    ensures Considered(start, now, listeners, k + 1)
  {
    assert now.order[k..|start.order|][1..] == now.order[k + 1..|start.order|];
  }

  lemma NextListener(start: State, now: State, listeners: seq<Registration>, k: nat) returns (first: nat)
    requires Considered(start, now, listeners, k) && k < |start.order| && Live(now.slots, now.order[k])
    ensures first == FirstListed(listeners, Serials(Registered(now.slots, now.order))) < |listeners|
    ensures listeners[first] == RegistrationOf(now.slots, now.order[k])
    ensures Considered(start, now, listeners[first + 1..], k + 1)
  {
    var listed := Serials(Registered(now.slots, now.order));
    first := FirstListed(listeners, listed);
    FirstListedSplits(listeners, listed);
    assert now.order[k..|start.order|][1..] == now.order[k + 1..|start.order|];
    assert Keep(listeners, listed)[1..] == Keep(listeners[first + 1..], listed);
  }

  lemma NobodyLeft(start: State, now: State, listeners: seq<Registration>)
    requires Considered(start, now, listeners, |start.order|)
    ensures FirstListed(listeners, Serials(Registered(now.slots, now.order))) == |listeners|
  {
    FirstListedSplits(listeners, Serials(Registered(now.slots, now.order)));
    assert now.order[|start.order|..|start.order|] == [];
  }

  lemma StillConsidered(start: State, was: State, now: State, listeners: seq<Registration>, k: nat)
    requires Considered(start, was, listeners, k) && Base(was) && Base(now)
    requires Evolves(start, was) && Evolves(was, now)
    ensures Considered(start, now, listeners, k)
  {
    hide Base, Registered;
    var listed, listed' := Serials(Registered(was.slots, was.order)), Serials(Registered(now.slots, now.order));
    StretchShrinks(was, now, k, |start.order|);
    NothingReturns(was, now);
    KeepTwice(listeners, listed, listed');
    KeepSame(listeners, listed * listed', listed');
    assert now.order[k..|start.order|] == was.order[k..|start.order|];
  }

  /** From before a broadcast to after it. */
  lemma GrowsThrough(before: seq<Event>, inside: seq<Event>, after: seq<Event>, depth: nat)
    requires Replay(before) != None && |Replay(before).value.open| == depth
    requires Replay(before + [Began]) != None && Grows(before + [Began], inside, depth + 1)
    requires after == inside + [Ended] && Replay(after) != None && |Replay(after).value.open| == depth
    ensures Grows(before, after, depth)
    ensures inside + [Ended] <= after && |Replay(inside).value.open| >= depth + 1
  {
    hide Step, Replay;
    assert inside[..|inside|] == inside && |At(inside, |inside|).open| >= depth + 1;
    forall n: nat | |before| <= n <= |after| ensures |At(after, n).open| >= depth {
      if n == |before| {
        assert after[..n] == before;
      } else if n <= |inside| {
        assert after[..n] == inside[..n] && |At(inside, n).open| >= depth + 1;
      } else {
        assert after[..n] == after;
      }
    }
  }

  lemma GrowsIsPrefix(before: seq<Event>, after: seq<Event>, depth: nat)
    requires Grows(before, after, depth)
    ensures before <= after
  {
  }

  lemma NothingRegistered(slots: seq<Slot>)
    ensures Registered(slots, []) == []
  {
  }

  lemma ActiveHandle(s: State, handle: nat)
    requires Base(s) && handle != 0 && IsActive(s.slots, SlotIndex(handle), Generation(handle))
    ensures MakeHandle(SlotIndex(handle), s.slots[SlotIndex(handle)].generation) == handle
  {
    assert SlotOk(s.slots[SlotIndex(handle)]);
    HandleParts(SlotIndex(handle), Generation(handle), handle);
  }

  lemma EvolvesReflexive(s: State)
    ensures Evolves(s, s)
  {
  }

  lemma StepReset(m: Machine, callback: Callback)
    requires m.open == []
    ensures Step(m, Reset(callback)) == Some(m)
  {
  }

  lemma StillNone(was: State, now: State, k: nat)
    requires Base(was) && Base(now) && Evolves(was, now) && was.order == now.order && k < |was.order|
    requires Registered(was.slots, was.order[..k]) == []
    requires !Live(now.slots, now.order[k])
    ensures Registered(now.slots, now.order[..k + 1]) == []
  {
    assert was.order[..k] == was.order[0..k];
    StretchShrinks(was, now, 0, k);
    assert now.order[0..k] == now.order[..k];
    assert now.order[..k + 1] == now.order[..k] + [now.order[k]];
    RegisteredConcat(now.slots, now.order[..k], [now.order[k]]);
  }
}
