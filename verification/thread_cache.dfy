/** A thread's cache of free blocks, one list per size class, with a second list per class of
    blocks on their way back to the central pool. Whether a freed block belongs to another
    shard, and what the central pool hands out, are inputs. */
module ThreadCaches {
  import opened CacheBalance
  import opened CacheState
  import opened CacheWeights
  import opened CentralFetch
  import opened Numbers

  class ThreadCache {
    const config: Config
    const maxCounts: seq<nat>
    ghost const blocks: seq<set<nat>>
    var lists: seq<seq<nat>>
    var counts: seq<nat>
    var deferred: seq<seq<nat>>
    var deferredCounts: seq<nat>
    var currentBytes: nat
    var deferredBytes: nat
    var lastDrain: nat
    var lastDeferredDrain: nat
    ghost var central: seq<multiset<nat>>
    ghost var user: seq<multiset<nat>>

    ghost function Current(): Cache
      reads this
    {
      Cache(lists, deferred, lastDrain, lastDeferredDrain)
    }

    /** The counters record the lists and, but for those of class `c` in `hand`, all blocks are
        accounted for. */
    ghost predicate Sound(c: nat, hand: multiset<nat>)
      reads this
    {
      && Counted(lists, counts, currentBytes) && Counted(deferred, deferredCounts, deferredBytes)
      && Balanced(lists, deferred, central, user, blocks, c, hand)
      && Shaped(Current()) && |counts| == |deferredCounts| == |maxCounts| == NUM_CLASSES
      && forall i: nat :: i < NUM_CLASSES ==> maxCounts[i] == MaxCount(config, i)
    }

    ghost predicate Valid()
      reads this
    {
      Sound(0, multiset{})
    }

    constructor (config: Config, ghost blocks: seq<set<nat>>)
      requires |blocks| == NUM_CLASSES
      ensures Valid() && Current() == EmptyCache() && this.config == config && this.blocks == blocks
    {
      this.config, this.blocks := config, blocks;
      maxCounts := seq(NUM_CLASSES, c requires 0 <= c < NUM_CLASSES => MaxCount(config, c));
      lists, deferred := NoLists(), NoLists();
      counts, deferredCounts := seq(NUM_CLASSES, c => 0), seq(NUM_CLASSES, c => 0);
      currentBytes, deferredBytes, lastDrain, lastDeferredDrain := 0, 0, 0, 0;
      central := seq(NUM_CLASSES, c requires 0 <= c < NUM_CLASSES => multiset(blocks[c]));
      user := seq(NUM_CLASSES, c => multiset{});
      new;
      WeightOfNothing(lists, NUM_CLASSES);
    }

    lemma SoundFacts(c: nat, hand: multiset<nat>)
      requires Sound(c, hand)
      ensures Shaped(Current()) && |counts| == |deferredCounts| == |maxCounts| == NUM_CLASSES
      ensures |central| == |user| == |blocks| == NUM_CLASSES
      ensures forall i: nat :: i < NUM_CLASSES ==>
                && counts[i] == Wrap(|lists[i]|) && deferredCounts[i] == Wrap(|deferred[i]|)
                && maxCounts[i] == MaxCount(config, i)
      ensures currentBytes == Total(lists) && deferredBytes == Total(deferred)
    {
    }

    lemma SoundAnywhere(c: nat, d: nat)
      requires Sound(c, multiset{})
      ensures Sound(d, multiset{})
    {
    }

    /** Every block is in exactly one place. */
    lemma InOnePlace(c: nat, b: nat)
      requires Valid() && c < NUM_CLASSES
      ensures |lists| == |deferred| == |central| == |user| == |blocks| == NUM_CLASSES
      ensures multiset(lists[c])[b] + multiset(deferred[c])[b] + central[c][b] + user[c][b]
              == if b in blocks[c] then 1 else 0
    {
      assert Whereabouts(lists, deferred, central, user, c)[b] == multiset(blocks[c])[b];
    }

    // -------------------------------------------------------------------------
    // One block at a time
    // -------------------------------------------------------------------------

    method Pop(c: nat, ghost hand: multiset<nat>) returns (b: nat)
      requires Sound(c, hand) && c < NUM_CLASSES && lists[c] != []
      modifies `lists, `counts, `currentBytes
      ensures Sound(c, hand + multiset{b}) && b == old(lists)[c][0] && lists == old(lists)[c := old(lists)[c][1..]]
    {
      hide Counted, Balanced, Whereabouts, BlockSize, MaxCount, Wrap;
      SoundFacts(c, hand);
      PopCounted(lists, counts, currentBytes, c);
      PopBalanced(lists, deferred, central, user, blocks, c, hand);
      b := lists[c][0];
      lists := lists[c := lists[c][1..]];
      counts := counts[c := Wrap(counts[c] + MAX_UINT16)];
      currentBytes := currentBytes - BlockSize(c);
    }

    method Push(c: nat, b: nat, ghost hand: multiset<nat>)
      requires Sound(c, hand + multiset{b}) && c < NUM_CLASSES
      modifies `lists, `counts, `currentBytes
      ensures Sound(c, hand) && lists == old(lists)[c := [b] + old(lists)[c]]
    {
      hide Counted, Balanced, Whereabouts, BlockSize, MaxCount, Wrap;
      SoundFacts(c, hand + multiset{b});
      PushCounted(lists, counts, currentBytes, c, b);
      PushBalanced(lists, deferred, central, user, blocks, c, hand, b);
      lists := lists[c := [b] + lists[c]];
      counts := counts[c := Wrap(counts[c] + 1)];
      currentBytes := currentBytes + BlockSize(c);
    }

    method PopDeferred(c: nat, ghost hand: multiset<nat>) returns (b: nat)
      requires Sound(c, hand) && c < NUM_CLASSES && deferred[c] != []
      modifies `deferred, `deferredCounts, `deferredBytes
      ensures Sound(c, hand + multiset{b}) && b == old(deferred)[c][0]
      ensures deferred == old(deferred)[c := old(deferred)[c][1..]]
    {
      hide Counted, Balanced, Whereabouts, BlockSize, MaxCount, Wrap;
      SoundFacts(c, hand);
      PopCounted(deferred, deferredCounts, deferredBytes, c);
      DeferredMirrored(lists, deferred, central, user, blocks, c, hand);
      PopBalanced(deferred, lists, central, user, blocks, c, hand);
      DeferredMirrored(deferred[c := deferred[c][1..]], lists, central, user, blocks, c,
                       hand + multiset{deferred[c][0]});
      b := deferred[c][0];
      deferred := deferred[c := deferred[c][1..]];
      deferredCounts := deferredCounts[c := Wrap(deferredCounts[c] + MAX_UINT16)];
      deferredBytes := deferredBytes - BlockSize(c);
    }

    method PushDeferred(c: nat, b: nat, ghost hand: multiset<nat>)
      requires Sound(c, hand + multiset{b}) && c < NUM_CLASSES
      modifies `deferred, `deferredCounts, `deferredBytes
      ensures Sound(c, hand) && deferred == old(deferred)[c := [b] + old(deferred)[c]]
    {
      hide Counted, Balanced, Whereabouts, BlockSize, MaxCount, Wrap;
      SoundFacts(c, hand + multiset{b});
      PushCounted(deferred, deferredCounts, deferredBytes, c, b);
      DeferredMirrored(lists, deferred, central, user, blocks, c, hand + multiset{b});
      PushBalanced(deferred, lists, central, user, blocks, c, hand, b);
      DeferredMirrored(deferred[c := [b] + deferred[c]], lists, central, user, blocks, c, hand);
      deferred := deferred[c := [b] + deferred[c]];
      deferredCounts := deferredCounts[c := Wrap(deferredCounts[c] + 1)];
      deferredBytes := deferredBytes + BlockSize(c);
    }

    // -------------------------------------------------------------------------
    // Moving blocks between the lists and the central pool
    // -------------------------------------------------------------------------

    /** Moves up to `requested` blocks from the list of a class to its deferred list. */
    method SpillToDeferred(c: nat, requested: nat)
      requires Sound(c, multiset{}) && c < NUM_CLASSES
      modifies `lists, `counts, `currentBytes, `deferred, `deferredCounts, `deferredBytes
      ensures Sound(c, multiset{}) && Shaped(old(Current())) && Current() == Spilled(old(Current()), c, requested)
    {
      hide Counted, Balanced, Rest, Piled, MaxCount;
      SoundFacts(c, multiset{});
      ghost var list, onto := lists[c], deferred[c];
      NothingMoved(list, onto);
      var spilled: nat := 0;
      while spilled < requested && lists[c] != []
        invariant Sound(c, multiset{}) && spilled <= requested && spilled <= |list|
        invariant |lists| == |deferred| == NUM_CLASSES && |lists[c]| == |list| - spilled
        invariant lists == old(lists)[c := Rest(list, spilled)]
        invariant deferred == old(deferred)[c := Piled(list, spilled, onto)]
      {
        OneMoved(list, spilled, onto);
        var b := Pop(c, multiset{});
        PushDeferred(c, b, multiset{});
        spilled := spilled + 1;
      }
      AllMoved(list, spilled, requested, onto);
    }

    /** Moves up to a refill's worth of blocks from the deferred list back. */
    method RefillFromDeferred(c: nat)
      requires Sound(c, multiset{}) && c < NUM_CLASSES
      modifies `lists, `counts, `currentBytes, `deferred, `deferredCounts, `deferredBytes
      ensures Sound(c, multiset{}) && Shaped(old(Current()))
      ensures Current() == Refilled(old(Current()), c, RefillTarget(config))
    {
      hide Counted, Balanced, Rest, Piled, MaxCount;
      SoundFacts(c, multiset{});
      ghost var list, onto := deferred[c], lists[c];
      NothingMoved(list, onto);
      var target := RefillTarget(config);
      var moved: nat := 0;
      while moved < target && deferred[c] != []
        invariant Sound(c, multiset{}) && moved <= target && moved <= |list|
        invariant |lists| == |deferred| == NUM_CLASSES && |deferred[c]| == |list| - moved
        invariant deferred == old(deferred)[c := Rest(list, moved)]
        invariant lists == old(lists)[c := Piled(list, moved, onto)]
      {
        OneMoved(list, moved, onto);
        var b := PopDeferred(c, multiset{});
        Push(c, b, multiset{});
        moved := moved + 1;
      }
      AllMoved(list, moved, target, onto);
    }

    /** Gives up to `requested` blocks of a deferred list back to the central pool. */
    method DrainDeferredClassToCentral(c: nat, requested: nat)
      requires Sound(c, multiset{}) && c < NUM_CLASSES
      modifies `deferred, `deferredCounts, `deferredBytes, `central
      ensures Sound(c, multiset{}) && |old(deferred)| == NUM_CLASSES
      ensures deferred == old(deferred)[c := Rest(old(deferred)[c], requested)]
    {
      hide Counted, Balanced, Whereabouts, Rest, Piled, MaxCount;
      SoundFacts(c, multiset{});
      ghost var list := deferred[c];
      NothingMoved(list, []);
      var drained: nat := 0;
      ghost var chain: multiset<nat> := multiset{};
      while drained < requested && deferred[c] != []
        invariant Sound(c, chain) && drained <= requested && drained <= |list| && |deferred| == NUM_CLASSES
        invariant deferred == old(deferred)[c := Rest(list, drained)] && |deferred[c]| == |list| - drained
      {
        OneMoved(list, drained, []);
        var b := PopDeferred(c, chain);
        chain := chain + multiset{b};
        drained := drained + 1;
      }
      AllMoved(list, drained, requested, []);
      SoundFacts(c, chain);
      GiveBalanced(lists, deferred, central, user, blocks, c, chain);
      central := central[c := central[c] + chain];
    }

    /** Gives up to `requested` blocks of a list back to the central pool. */
    method DrainToCentral(c: nat, requested: nat)
      requires Sound(c, multiset{}) && c < NUM_CLASSES
      modifies `lists, `counts, `currentBytes, `central
      ensures Sound(c, multiset{}) && |old(lists)| == NUM_CLASSES
      ensures lists == old(lists)[c := Rest(old(lists)[c], requested)]
    {
      hide Counted, Balanced, Whereabouts, Rest, Piled, MaxCount;
      SoundFacts(c, multiset{});
      ghost var list := lists[c];
      NothingMoved(list, []);
      var drained: nat := 0;
      ghost var chain: multiset<nat> := multiset{};
      while drained < requested && lists[c] != []
        invariant Sound(c, chain) && drained <= requested && drained <= |list| && |lists| == NUM_CLASSES
        invariant lists == old(lists)[c := Rest(list, drained)] && |lists[c]| == |list| - drained
      {
        OneMoved(list, drained, []);
        var b := Pop(c, chain);
        chain := chain + multiset{b};
        drained := drained + 1;
      }
      AllMoved(list, drained, requested, []);
      SoundFacts(c, chain);
      GiveBalanced(lists, deferred, central, user, blocks, c, chain);
      central := central[c := central[c] + chain];
    }

    // -------------------------------------------------------------------------
    // Draining class after class
    // -------------------------------------------------------------------------

    method DrainAllDeferred()
      requires Valid()
      modifies `deferred, `deferredCounts, `deferredBytes, `central
      ensures Valid() && |old(deferred)| == NUM_CLASSES && deferred == AllDrained(old(deferred))
    {
      hide Counted, Balanced, Weight, Rest, MaxCount, Wrap;
      SoundFacts(0, multiset{});
      var i: nat := 0;
      while i < NUM_CLASSES
        invariant i <= NUM_CLASSES && Valid() && |deferred| == NUM_CLASSES
        invariant forall c: nat :: c < i ==> deferred[c] == Rest(old(deferred)[c], Wrap(|old(deferred)[c]|))
        invariant forall c: nat :: i <= c < NUM_CLASSES ==> deferred[c] == old(deferred)[c]
      {
        SoundFacts(0, multiset{});
        SoundAnywhere(0, i);
        DrainDeferredClassToCentral(i, deferredCounts[i]);
        SoundAnywhere(i, 0);
        i := i + 1;
      }
    }

    method DrainAll()
      requires Valid()
      modifies `lists, `counts, `currentBytes, `central
      ensures Valid() && |old(lists)| == NUM_CLASSES && lists == AllDrained(old(lists))
    {
      hide Counted, Balanced, Weight, Rest, MaxCount, Wrap;
      SoundFacts(0, multiset{});
      var i: nat := 0;
      while i < NUM_CLASSES
        invariant i <= NUM_CLASSES && Valid() && |lists| == NUM_CLASSES
        invariant forall c: nat :: c < i ==> lists[c] == Rest(old(lists)[c], Wrap(|old(lists)[c]|))
        invariant forall c: nat :: i <= c < NUM_CLASSES ==> lists[c] == old(lists)[c]
      {
        SoundFacts(0, multiset{});
        SoundAnywhere(0, i);
        DrainToCentral(i, counts[i]);
        SoundAnywhere(i, 0);
        i := i + 1;
      }
    }

    /** Finds the first class at or behind the cursor with deferred blocks. */
    method NextDeferred() returns (offset: nat)
      requires |deferred| == NUM_CLASSES && lastDeferredDrain < NUM_CLASSES
      ensures offset == FirstFrom(deferred, lastDeferredDrain, false, 0)
    {
      offset := 0;
      while offset < NUM_CLASSES && deferred[Probe(lastDeferredDrain, offset)] == []
        invariant offset <= NUM_CLASSES
        invariant FirstFrom(deferred, lastDeferredDrain, false, 0)
                  == FirstFrom(deferred, lastDeferredDrain, false, offset)
      {
        offset := offset + 1;
      }
    }

    method NextListed() returns (offset: nat)
      requires Valid()
      ensures |lists| == NUM_CLASSES && lastDrain < NUM_CLASSES && offset == FirstFrom(lists, lastDrain, true, 0)
    {
      hide Counted, Balanced, MaxCount, Wrap, Probe;
      SoundFacts(0, multiset{});
      offset := 0;
      while offset < NUM_CLASSES && (lists[Probe(lastDrain, offset)] == [] || counts[Probe(lastDrain, offset)] == 0)
        invariant offset <= NUM_CLASSES
        invariant FirstFrom(lists, lastDrain, true, 0) == FirstFrom(lists, lastDrain, true, offset)
      {
        offset := offset + 1;
      }
    }

    method DrainDeferredRoundRobin()
      requires Valid()
      modifies `deferred, `deferredCounts, `deferredBytes, `central, `lastDeferredDrain
      ensures Valid() && Shaped(old(Current())) && Current() == DeferredDrained(config, old(Current()), false)
    {
      hide Counted, Balanced, MaxCount, Wrap, Probe, Weight, FirstFrom, OneBatch;
      SoundFacts(0, multiset{});
      var batches := NUM_CLASSES * BATCHES_FACTOR;
      ghost var was := Current();
      ghost var goal := RoundRobin(deferred, lastDeferredDrain, Budget(config), DrainBatch(config), false, batches);
      var batch: nat := 0;
      while batch < batches && deferredBytes > Budget(config)
        invariant Valid() && batch <= batches && |deferred| == NUM_CLASSES && lastDeferredDrain < NUM_CLASSES
        invariant deferredBytes == Total(deferred)
        invariant goal == RoundRobin(deferred, lastDeferredDrain, Budget(config), DrainBatch(config), false,
                                     batches - batch)
      {
        SoundFacts(0, multiset{});
        var offset := NextDeferred();
        if offset == NUM_CLASSES {
          break;
        }
        var c := Probe(lastDeferredDrain, offset);
        SoundAnywhere(0, c);
        BatchIs(deferred[c], DrainBatch(config));
        DrainDeferredClassToCentral(c, Min(deferredCounts[c], DrainBatch(config)));
        SoundAnywhere(c, 0);
        lastDeferredDrain := Probe(c, 1);
        SoundFacts(0, multiset{});
        batch := batch + 1;
      }
      assert Current() == was.(deferred := goal.0, lastDeferredDrain := goal.1);
    }

    method DrainToTarget(target: nat)
      requires Valid()
      modifies `lists, `counts, `currentBytes, `central, `lastDrain
      ensures Valid() && Shaped(old(Current()))
      ensures (lists, lastDrain)
              == RoundRobin(old(lists), old(lastDrain), target, DrainChunk(config), true, NUM_CLASSES * BATCHES_FACTOR)
    {
      hide Counted, Balanced, MaxCount, Wrap, Probe, Weight, FirstFrom, OneBatch;
      SoundFacts(0, multiset{});
      var batches := NUM_CLASSES * BATCHES_FACTOR;
      ghost var goal := RoundRobin(lists, lastDrain, target, DrainChunk(config), true, batches);
      var batch: nat := 0;
      while batch < batches && currentBytes > target
        invariant Valid() && batch <= batches && |lists| == NUM_CLASSES && lastDrain < NUM_CLASSES
        invariant currentBytes == Total(lists)
        invariant goal == RoundRobin(lists, lastDrain, target, DrainChunk(config), true, batches - batch)
      {
        SoundFacts(0, multiset{});
        var offset := NextListed();
        if offset == NUM_CLASSES {
          break;
        }
        var c := Probe(lastDrain, offset);
        SoundAnywhere(0, c);
        BatchIs(lists[c], DrainChunk(config));
        DrainToCentral(c, Min(counts[c], DrainChunk(config)));
        SoundAnywhere(c, 0);
        lastDrain := Probe(c, 1);
        SoundFacts(0, multiset{});
        batch := batch + 1;
      }
    }

    method DrainDeferredToCentral(force: bool)
      requires Valid()
      modifies `deferred, `deferredCounts, `deferredBytes, `central, `lastDeferredDrain
      ensures Valid() && Shaped(old(Current())) && Current() == DeferredDrained(config, old(Current()), force)
    {
      hide Counted, Balanced, MaxCount, Weight, RoundRobin;
      SoundFacts(0, multiset{});
      if !force && deferredBytes <= Budget(config) {
        RoundRobinWithin(deferred, lastDeferredDrain, Budget(config), DrainBatch(config), false,
                         NUM_CLASSES * BATCHES_FACTOR);
        return;
      }
      if force {
        DrainAllDeferred();
        return;
      }
      DrainDeferredRoundRobin();
    }

    method TrimToBudget(force: bool)
      requires Valid()
      modifies `lists, `counts, `currentBytes, `deferred, `deferredCounts, `deferredBytes, `central, `lastDrain,
               `lastDeferredDrain
      ensures Valid() && Shaped(old(Current())) && Current() == Trimmed(config, old(Current()), force)
    {
      hide Counted, Balanced, MaxCount, Weight, RoundRobin, DeferredDrained;
      SoundFacts(0, multiset{});
      if !force && currentBytes + deferredBytes <= config.maxBytes {
        return;
      }
      DrainDeferredToCentral(force);
      if force {
        DrainAll();
        return;
      }
      DrainToTarget(config.maxBytes * 9 / 8);
    }

    // -------------------------------------------------------------------------
    // The operations
    // -------------------------------------------------------------------------

    /** Frees a block of class `c`; `route` tells whether its span belongs to another shard. */
    method Deallocate(c: nat, ptr: nat, route: bool)
      requires Valid() && (c < NUM_CLASSES ==> ptr in user[c])
      modifies this
      ensures Valid() && Shaped(old(Current())) && |old(user)| == NUM_CLASSES
      ensures Current() == if c < NUM_CLASSES then Freed(config, old(Current()), c, ptr, route) else old(Current())
      ensures user == if c < NUM_CLASSES then old(user)[c := old(user)[c] - multiset{ptr}] else old(user)
      ensures c >= NUM_CLASSES ==> central == old(central)
    {
      hide Counted, Balanced, MaxCount, Weight, DeferredDrained, Trimmed, TakenIn, Relieved;
      SoundFacts(0, multiset{});
      if c < NUM_CLASSES {
        TakeBack(c, ptr, route);
        ghost var taken := Current();
        SoundFacts(0, multiset{});
        if deferredBytes > Budget(config) {
          DrainDeferredToCentral(false);
        } else {
          NotDrained(config, taken);
        }
        SoundFacts(0, multiset{});
        if currentBytes + deferredBytes > config.maxBytes * 5 / 4 {
          TrimToBudget(false);
        }
      }
    }

    /** The first half of freeing: the block goes on one of the two lists, and what makes the
        list too long goes on to the other. */
    method TakeBack(c: nat, ptr: nat, route: bool)
      requires Valid() && c < NUM_CLASSES && ptr in user[c]
      modifies `lists, `counts, `currentBytes, `deferred, `deferredCounts, `deferredBytes, `user
      ensures Valid() && Shaped(old(Current())) && |old(user)| == NUM_CLASSES
      ensures Current() == Relieved(config, TakenIn(old(Current()), c, ptr, route), c)
      ensures user == old(user)[c := old(user)[c] - multiset{ptr}]
    {
      hide Counted, Weight, MaxCount, Wrap, Spilled;
      SoundFacts(0, multiset{});
      TakeOffUser(c, ptr);
      if route {
        PushDeferred(c, ptr, multiset{});
      } else {
        Push(c, ptr, multiset{});
      }
      SoundFacts(c, multiset{});
      if counts[c] > maxCounts[c] || currentBytes > config.maxBytes {
        SpillToDeferred(c, SpillCount(maxCounts[c], config.refillBatch));
      }
      SoundAnywhere(c, 0);
    }

    ghost method TakeOffUser(c: nat, ptr: nat)
      requires Valid() && c < NUM_CLASSES && ptr in user[c]
      modifies `user
      ensures Sound(c, multiset{} + multiset{ptr}) && |old(user)| == NUM_CLASSES
      ensures user == old(user)[c := old(user)[c] - multiset{ptr}]
    {
      hide Counted;
      SoundAnywhere(0, c);
      user := user[c := user[c] - multiset{ptr}];
    }

    /** Hands out a block of class `c`. `batch` is what the central pool gives when asked. */
    method Allocate(c: nat, batch: seq<nat>) returns (result: Allocation)
      requires Valid() && |batch| <= Min(config.refillBatch, MAX_BATCH)
      requires c < NUM_CLASSES ==> multiset(batch) <= central[c]
      modifies this
      ensures Valid() && Shaped(old(Current())) && |old(user)| == |old(central)| == NUM_CLASSES
      ensures (Current(), result)
              == if c < NUM_CLASSES then Allocated(config, old(Current()), c, batch) else (old(Current()), Nothing)
      ensures result.Nothing? ==> user == old(user)
      ensures !result.Nothing? ==> c < NUM_CLASSES && user == old(user)[c := old(user)[c] + multiset{result.block}]
      ensures !result.FromCentral? ==> central == old(central)
      ensures result.FromCentral? ==> c < NUM_CLASSES && central == old(central)[c := old(central)[c] - multiset(batch)]
    {
      hide Counted, Balanced, Whereabouts, Weight, MaxCount, Wrap, Refilled;
      SoundFacts(0, multiset{});
      if c >= NUM_CLASSES {
        return Nothing;
      }
      SoundAnywhere(0, c);
      if lists[c] == [] {
        RefillFromDeferred(c);
      }
      SoundFacts(c, multiset{});
      if lists[c] != [] {
        var block := Pop(c, multiset{});
        GiveToUser(c, block);
        return Cached(block);
      }
      SoundAnywhere(c, 0);
      if batch == [] {
        return Nothing;
      }
      Restock(c, batch);
      return FromCentral(batch[0]);
    }

    ghost method GiveToUser(c: nat, block: nat)
      requires Sound(c, multiset{} + multiset{block}) && c < NUM_CLASSES
      modifies `user
      ensures Valid() && |old(user)| == NUM_CLASSES && user == old(user)[c := old(user)[c] + multiset{block}]
    {
      hide Counted;
      user := user[c := user[c] + multiset{block}];
      assert Sound(c, multiset{});
      SoundAnywhere(c, 0);
    }

    /** Takes a batch from the central pool: its first block for the user, the rest for the list. */
    method Restock(c: nat, batch: seq<nat>)
      requires Sound(c, multiset{}) && c < NUM_CLASSES && lists[c] == [] && batch != [] && multiset(batch) <= central[c]
      modifies `lists, `counts, `currentBytes, `central, `user
      ensures Valid() && |old(central)| == |old(user)| == |old(lists)| == NUM_CLASSES
      ensures central == old(central)[c := old(central)[c] - multiset(batch)]
      ensures user == old(user)[c := old(user)[c] + multiset{batch[0]}]
      ensures lists == old(lists)[c := Reversed(batch[1..])]
    {
      hide Counted, Balanced, Reversed;
      TakeFromCentral(c, batch);
      FirstHand(batch);
      NothingReversed();
      assert batch[1..1] == [];
      var i: nat := 1;
      while i < |batch|
        invariant 1 <= i <= |batch| && Sound(c, multiset(batch[i..]) + multiset{batch[0]})
        invariant |lists| == NUM_CLASSES && lists == old(lists)[c := Reversed(batch[1..i])]
        invariant user == old(user) && |central| == |old(central)| == NUM_CLASSES
        invariant central == old(central)[c := old(central)[c] - multiset(batch)]
      {
        NextHand(batch, i);
        assert batch[1..i + 1] == batch[1..i] + [batch[i]];
        ReversedLonger(batch[1..i], batch[i]);
        Push(c, batch[i], multiset(batch[i + 1..]) + multiset{batch[0]});
        i := i + 1;
      }
      LastHand(batch);
      assert batch[1..i] == batch[1..];
      GiveToUser(c, batch[0]);
    }

    ghost method TakeFromCentral(c: nat, batch: seq<nat>)
      requires Sound(c, multiset{}) && c < NUM_CLASSES && multiset(batch) <= central[c]
      modifies `central
      ensures Sound(c, multiset(batch)) && |old(central)| == |user| == |lists| == NUM_CLASSES
      ensures central == old(central)[c := old(central)[c] - multiset(batch)]
    {
      hide Counted;
      central := central[c := central[c] - multiset(batch)];
    }

    /** Gives back what the recorded counts say. */
    method OnIdle()
      requires Valid()
      modifies this
      ensures Valid() && user == old(user) && Shaped(old(Current())) && Current() == Idled(config, old(Current()))
    {
      hide Counted, Balanced, Weight, MaxCount, DeferredDrained, Trimmed;
      DrainDeferredToCentral(true);
      TrimToBudget(true);
    }

    method FlushAll()
      requires Valid()
      modifies this
      ensures Valid() && user == old(user) && Shaped(old(Current())) && Current() == Flushed(config, old(Current()))
    {
      hide Counted, Balanced, Weight, MaxCount;
      DrainDeferredToCentral(true);
      DrainAll();
    }

    /** With nothing on any list, what the user does not hold is in the central pool, and no
        byte is counted. */
    lemma GivenBack()
      requires Valid() && forall c: nat :: c < NUM_CLASSES ==> Current().lists[c] == [] && Current().deferred[c] == []
      ensures currentBytes == deferredBytes == 0 && |central| == |user| == |blocks| == NUM_CLASSES
      ensures forall c: nat :: c < NUM_CLASSES ==> multiset(blocks[c]) == central[c] + user[c]
    {
      hide Weight, MaxCount;
      SoundFacts(0, multiset{});
      WeightOfNothing(lists, NUM_CLASSES);
      WeightOfNothing(deferred, NUM_CLASSES);
      forall c: nat | c < NUM_CLASSES ensures multiset(blocks[c]) == central[c] + user[c] {
        assert multiset(blocks[c]) == Whereabouts(lists, deferred, central, user, c) + multiset{};
      }
    }
  }

  lemma BatchIs(list: seq<nat>, batch: nat)
    ensures OneBatch(list, batch) == Rest(list, Min(Wrap(|list|), batch))
  {
  }

  lemma NothingReversed()
    ensures Reversed([]) == []
  {
  }

  lemma NotDrained(g: Config, k: Cache)
    requires Shaped(k) && Total(k.deferred) <= Budget(g)
    ensures DeferredDrained(g, k, false) == k
  {
    RoundRobinWithin(k.deferred, k.lastDeferredDrain, Budget(g), DrainBatch(g), false, NUM_CLASSES * BATCHES_FACTOR);
  }
}
