/** What the operations of a thread cache do, as functions of its lists. Counts and byte
    totals are derived: a recorded count is what 16 bits keep of a length. */
module CacheState {
  import opened CacheWeights
  import opened CentralFetch
  import opened Numbers

  datatype Config = Config(maxBytes: nat, maxPerClass: uint16, refillBatch: uint16)

  /** The two lists of every class, the last block put in first, and the two cursors. */
  datatype Cache = Cache(lists: seq<seq<nat>>, deferred: seq<seq<nat>>, lastDrain: nat, lastDeferredDrain: nat)

  datatype Allocation = Nothing | Cached(block: nat) | FromCentral(block: nat)

  predicate Shaped(k: Cache) {
    |k.lists| == |k.deferred| == NUM_CLASSES && k.lastDrain < NUM_CLASSES && k.lastDeferredDrain < NUM_CLASSES
  }

  function NoLists(): (lists: seq<seq<nat>>)
    ensures |lists| == NUM_CLASSES && forall c: nat :: c < NUM_CLASSES ==> lists[c] == []
  {
    seq(NUM_CLASSES, c => [])
  }

  function EmptyCache(): (k: Cache)
    ensures Shaped(k)
  {
    Cache(NoLists(), NoLists(), 0, 0)
  }

  // ---------------------------------------------------------------------------
  // Configuration
  // ---------------------------------------------------------------------------

  function Budget(g: Config): nat { Max(1, g.maxBytes / 2) }

  function MaxCount(g: Config, c: nat): (n: uint16)
    requires c < NUM_CLASSES
  {
    Min(Max(MIN_OBJECTS_PER_CLASS, Cut(1, Max(MIN_BYTES_PER_CLASS, g.maxBytes / NUM_CLASSES), BlockSize(c))),
        g.maxPerClass)
  }

  function SpillCount(maxCount: nat, refillBatch: nat): (n: nat)
    ensures n > 0
  {
    if maxCount > 0 then Max(SPILL_MIN, Min(refillBatch, maxCount / 4 + 1)) else 1
  }

  function RefillTarget(g: Config): nat { Max(1, g.refillBatch) }

  function DrainBatch(g: Config): nat { Max(DRAIN_MIN, Min(DRAIN_MAX, g.refillBatch)) }

  function DrainChunk(g: Config): nat { Max(1, Min(TRIM_MAX_CHUNK, Max(TRIM_MIN_CHUNK, g.refillBatch / 2))) }

  /** What a 16-bit counter keeps. */
  function Wrap(n: nat): uint16 { n % (MAX_UINT16 + 1) }

  /** The bytes on all lists. */
  function Total(lists: seq<seq<nat>>): nat
    requires |lists| == NUM_CLASSES
  {
    Weight(lists, NUM_CLASSES)
  }

  // ---------------------------------------------------------------------------
  // Moving blocks
  // ---------------------------------------------------------------------------

  function Reversed(list: seq<nat>): (r: seq<nat>)
    ensures |r| == |list|
  {
    if list == [] then [] else Reversed(list[1..]) + [list[0]]
  }

  /** What is left of a list when `n` blocks, or all, have been taken off its front. */
  function Rest(list: seq<nat>, n: nat): (rest: seq<nat>)
    ensures |rest| == |list| - Min(n, |list|)
  {
    list[Min(n, |list|)..]
  }

  /** What `n` pops from one list pushed onto another make of the other. */
  function Piled(from: seq<nat>, n: nat, onto: seq<nat>): (piled: seq<nat>)
    ensures |piled| == |onto| + Min(n, |from|)
  {
    Reversed(from[..Min(n, |from|)]) + onto
  }

  function Spilled(k: Cache, c: nat, n: nat): (k': Cache)
    requires Shaped(k) && c < NUM_CLASSES
    ensures Shaped(k')
  {
    k.(lists := k.lists[c := Rest(k.lists[c], n)], deferred := k.deferred[c := Piled(k.lists[c], n, k.deferred[c])])
  }

  function Refilled(k: Cache, c: nat, n: nat): (k': Cache)
    requires Shaped(k) && c < NUM_CLASSES
    ensures Shaped(k')
  {
    k.(deferred := k.deferred[c := Rest(k.deferred[c], n)], lists := k.lists[c := Piled(k.deferred[c], n, k.lists[c])])
  }

  // ---------------------------------------------------------------------------
  // Giving blocks back
  // ---------------------------------------------------------------------------

  /** Whether the search for a list to drain passes over this one; where `counted`, a recorded
      count of nothing is enough. */
  function Skips(list: seq<nat>, counted: bool): bool {
    list == [] || (counted && Wrap(|list|) == 0)
  }

  /** How far from the cursor the first list to drain is, from `offset` on. */
  function FirstFrom(lists: seq<seq<nat>>, cursor: nat, counted: bool, offset: nat): (first: nat)
    requires |lists| == NUM_CLASSES && cursor < NUM_CLASSES && offset <= NUM_CLASSES
    ensures offset <= first <= NUM_CLASSES
    ensures first < NUM_CLASSES ==> !Skips(lists[Probe(cursor, first)], counted)
    ensures forall o: nat :: offset <= o < first ==> Skips(lists[Probe(cursor, o)], counted)
    decreases NUM_CLASSES - offset
  {
    if offset == NUM_CLASSES || !Skips(lists[Probe(cursor, offset)], counted) then offset
    else FirstFrom(lists, cursor, counted, offset + 1)
  }

  /** A list after one batch of it, as far as its recorded count goes, was given back. */
  function OneBatch(list: seq<nat>, batch: nat): (rest: seq<nat>)
    ensures |rest| == |list| - Min(Wrap(|list|), batch)
  {
    Rest(list, Min(Wrap(|list|), batch))
  }

  /** Draining batches from class after class until the limit is met, `n` at most: the lists
      and the cursor afterwards. */
  function RoundRobin(lists: seq<seq<nat>>, cursor: nat, limit: nat, batch: nat, counted: bool, n: nat)
    : (r: (seq<seq<nat>>, nat))
    requires |lists| == NUM_CLASSES && cursor < NUM_CLASSES
    ensures |r.0| == NUM_CLASSES && r.1 < NUM_CLASSES
    decreases n
  {
    if n == 0 || Total(lists) <= limit then (lists, cursor)
    else
      var first := FirstFrom(lists, cursor, counted, 0);
      if first == NUM_CLASSES then (lists, cursor)
      else
        var c := Probe(cursor, first);
        RoundRobin(lists[c := OneBatch(lists[c], batch)], Probe(c, 1), limit, batch, counted, n - 1)
  }

  /** Every list after as many blocks were given back as its recorded count says. */
  function AllDrained(lists: seq<seq<nat>>): (r: seq<seq<nat>>)
    requires |lists| == NUM_CLASSES
    ensures |r| == NUM_CLASSES && forall c: nat :: c < NUM_CLASSES ==> r[c] == Rest(lists[c], Wrap(|lists[c]|))
  {
    seq(NUM_CLASSES, c requires 0 <= c < NUM_CLASSES => Rest(lists[c], Wrap(|lists[c]|)))
  }

  function DeferredDrained(g: Config, k: Cache, force: bool): (k': Cache)
    requires Shaped(k)
    ensures Shaped(k')
  {
    if force then k.(deferred := AllDrained(k.deferred))
    else
      var r := RoundRobin(k.deferred, k.lastDeferredDrain, Budget(g), DrainBatch(g), false,
                          NUM_CLASSES * BATCHES_FACTOR);
      k.(deferred := r.0, lastDeferredDrain := r.1)
  }

  function Trimmed(g: Config, k: Cache, force: bool): (k': Cache)
    requires Shaped(k)
    ensures Shaped(k')
  {
    if !force && Total(k.lists) + Total(k.deferred) <= g.maxBytes then k
    else
      var drained := DeferredDrained(g, k, force);
      if force then drained.(lists := AllDrained(k.lists))
      else
        var r := RoundRobin(k.lists, k.lastDrain, g.maxBytes * 9 / 8, DrainChunk(g), true,
                            NUM_CLASSES * BATCHES_FACTOR);
        drained.(lists := r.0, lastDrain := r.1)
  }

  // ---------------------------------------------------------------------------
  // The operations
  // ---------------------------------------------------------------------------

  /** The freed block is on one of the two lists. */
  function TakenIn(k: Cache, c: nat, ptr: nat, route: bool): (k': Cache)
    requires Shaped(k) && c < NUM_CLASSES
    ensures Shaped(k')
  {
    if route then k.(deferred := k.deferred[c := [ptr] + k.deferred[c]])
    else k.(lists := k.lists[c := [ptr] + k.lists[c]])
  }

  /** A list recorded as too long, or too many bytes on all, spill. */
  function Relieved(g: Config, k: Cache, c: nat): (k': Cache)
    requires Shaped(k) && c < NUM_CLASSES
    ensures Shaped(k')
  {
    if Wrap(|k.lists[c]|) > MaxCount(g, c) || Total(k.lists) > g.maxBytes
    then Spilled(k, c, SpillCount(MaxCount(g, c), g.refillBatch)) else k
  }

  function Settled(g: Config, k: Cache): (k': Cache)
    requires Shaped(k)
    ensures Shaped(k')
  {
    var drained := DeferredDrained(g, k, false);
    if Total(drained.lists) + Total(drained.deferred) > g.maxBytes * 5 / 4 then Trimmed(g, drained, false) else drained
  }

  function Freed(g: Config, k: Cache, c: nat, ptr: nat, route: bool): (k': Cache)
    requires Shaped(k) && c < NUM_CLASSES
    ensures Shaped(k')
  {
    Settled(g, Relieved(g, TakenIn(k, c, ptr, route), c))
  }

  /** `batch` is what the central pool gives when asked. */
  function Allocated(g: Config, k: Cache, c: nat, batch: seq<nat>): (r: (Cache, Allocation))
    requires Shaped(k) && c < NUM_CLASSES
    ensures Shaped(r.0)
  {
    var ready := if k.lists[c] == [] then Refilled(k, c, RefillTarget(g)) else k;
    if ready.lists[c] != [] then (ready.(lists := ready.lists[c := ready.lists[c][1..]]), Cached(ready.lists[c][0]))
    else if batch == [] then (ready, Nothing)
    else (ready.(lists := ready.lists[c := Reversed(batch[1..])]), FromCentral(batch[0]))
  }

  function Flushed(g: Config, k: Cache): (k': Cache)
    requires Shaped(k)
    ensures Shaped(k')
  {
    DeferredDrained(g, k, true).(lists := AllDrained(k.lists))
  }

  function Idled(g: Config, k: Cache): (k': Cache)
    requires Shaped(k)
    ensures Shaped(k')
  {
    Trimmed(g, DeferredDrained(g, k, true), true)
  }

  /** Nothing is to be done when the limit is met. */
  lemma RoundRobinWithin(lists: seq<seq<nat>>, cursor: nat, limit: nat, batch: nat, counted: bool, n: nat)
    requires |lists| == NUM_CLASSES && cursor < NUM_CLASSES && Total(lists) <= limit
    ensures RoundRobin(lists, cursor, limit, batch, counted, n) == (lists, cursor)
  {
  }

  lemma Unwrapped(n: nat)
    requires n <= MAX_UINT16
    ensures Wrap(n) == n
  {
    SmallRemainder(MAX_UINT16 + 1, n);
  }
}
