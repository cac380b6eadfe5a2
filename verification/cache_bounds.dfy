/** Why a thread cache whose counts fit their 16 bits keeps its counts and its budget: what one
    operation can add, and what draining takes away. */
module CacheBounds {
  import opened CacheBalance
  import opened CacheState
  import opened CacheWeights
  import opened CentralFetch
  import opened Numbers

  /** With larger refill batches one free could add more than two drain batches take away. */
  const MAX_REFILL: nat := 2 * DRAIN_MAX - 1

  // ---------------------------------------------------------------------------
  // The condition
  // ---------------------------------------------------------------------------

  /** The most blocks one free can add to a deferred list that is as long as the budget allows. */
  function Gain(maxCount: nat, refillBatch: nat): (n: nat)
    ensures n > 0
  {
    if refillBatch <= 1 then Min(maxCount + 1, SPILL_MIN)
    else if maxCount >= 2 then 1 + SpillCount(maxCount, refillBatch)
    else if maxCount == 1 && refillBatch >= 6 then 3
    else 2
  }

  /** How many blocks of the smallest size the budget admits. */
  function Admitted(g: Config): nat { Budget(g) / MAX_ALIGN }

  predicate CountsFit(g: Config) {
    Admitted(g) + Gain(MaxCount(g, 0), g.refillBatch) <= MAX_UINT16
  }

  // ---------------------------------------------------------------------------
  // The invariant
  // ---------------------------------------------------------------------------

  function ListCap(maxCount: nat, refillBatch: nat): nat {
    Max(maxCount, if refillBatch == 0 then 0 else refillBatch - 1)
  }

  /** A list that is longer than its class admits came from a refill, which shortened the
      deferred list first. */
  predicate RefillShows(admitted: nat, maxCount: nat, refillBatch: nat, listed: nat, deferred: nat) {
    admitted >= MAX_REFILL && maxCount == 1 && listed >= 2 ==> deferred + 2 * listed <= admitted + refillBatch - 2
  }

  predicate ListsBounded(g: Config, k: Cache)
    requires Shaped(k)
  {
    forall c: nat :: c < NUM_CLASSES ==>
      && |k.lists[c]| <= ListCap(MaxCount(g, c), g.refillBatch)
      && RefillShows(Admitted(g), MaxCount(g, c), g.refillBatch, |k.lists[c]|, |k.deferred[c]|)
  }

  predicate AtRest(g: Config, k: Cache) {
    && Shaped(k) && Total(k.deferred) <= Budget(g)
    && (g.refillBatch <= 1 ==> Total(k.lists) <= g.maxBytes)
    && ListsBounded(g, k)
  }

  /** Every recorded count is the length of its list. */
  predicate Exact(k: Cache) {
    && (forall c: nat :: c < |k.lists| ==> |k.lists[c]| <= MAX_UINT16)
    && (forall c: nat :: c < |k.deferred| ==> |k.deferred[c]| <= MAX_UINT16)
  }

  // ---------------------------------------------------------------------------
  // One free, in numbers
  // ---------------------------------------------------------------------------

  function Moved(maxCount: nat, refillBatch: nat, listed: nat, over: bool): nat {
    if listed > maxCount || over then Min(SpillCount(maxCount, refillBatch), listed) else 0
  }

  lemma FreeInNumbers(admitted: nat, m: nat, r: nat, l: nat, d: nat, route: bool, over: bool)
    requires r <= MAX_REFILL && l <= ListCap(m, r) && d <= admitted && (r <= 1 && route ==> !over)
    requires RefillShows(admitted, m, r, l, d)
    ensures var listed := l + if route then 0 else 1;
            var moved := Moved(m, r, listed, over);
            var deferred := d + moved + if route then 1 else 0;
            && moved <= listed && deferred <= d + 1 + SpillCount(m, r) && SpillCount(m, r) <= MAX_REFILL
            && (admitted >= MAX_REFILL ==> deferred <= admitted + Gain(m, r))
            && listed - moved <= ListCap(m, r) && RefillShows(admitted, m, r, listed - moved, deferred)
            && (over && !route ==> moved >= 1)
  {
  }

  /** One free adds no more deferred blocks than two drain batches take away. */
  lemma OneFreeFitsTwoBatches(g: Config, maxCount: nat)
    requires g.refillBatch <= MAX_REFILL
    ensures 1 + SpillCount(maxCount, g.refillBatch) <= 2 * DrainBatch(g)
  {
  }

  // ---------------------------------------------------------------------------
  // Block sizes against the budget
  // ---------------------------------------------------------------------------

  lemma BlocksInBudget(lists: seq<seq<nat>>, budget: nat, c: nat)
    requires |lists| == NUM_CLASSES && c < NUM_CLASSES && Total(lists) <= budget
    ensures |lists[c]| <= budget / MAX_ALIGN
    ensures c >= 2 ==> |lists[c]| <= budget / (2 * MAX_ALIGN)
  {
    WeightOfOne(lists, NUM_CLASSES, c);
    AtLeast(budget, MAX_ALIGN, |lists[c]|);
    if c >= 2 {
      SmallestBlocks(c);
      TimesGrows(|lists[c]|, 2 * MAX_ALIGN, BlockSize(c));
      AtLeast(budget, 2 * MAX_ALIGN, |lists[c]|);
    }
  }

  lemma TimesGrows(n: nat, a: nat, b: nat)
    requires a <= b
    ensures Times(n, a) <= Times(n, b)
  {
    ProductGrows(a, b, n);
    assert Times(n, a) == a * n && Times(n, b) == b * n;
  }

  /** The two smallest classes have one size, and so one maximum. */
  lemma SmallestAlike(g: Config, c: nat)
    requires c < 2
    ensures MaxCount(g, c) == MaxCount(g, 0)
  {
    SmallestBlocks(0);
    SmallestBlocks(c);
  }

  /** Where counts fit, the deferred list that one free makes longer is still counted right. */
  lemma RoomForOneFree(g: Config, c: nat, deferred: nat, before: nat)
    requires CountsFit(g) && c < NUM_CLASSES && before <= Admitted(g)
    requires c >= 2 ==> before <= Budget(g) / (2 * MAX_ALIGN)
    requires deferred <= before + 1 + MAX_REFILL
    requires Admitted(g) >= MAX_REFILL ==> deferred <= Admitted(g) + Gain(MaxCount(g, c), g.refillBatch)
    ensures deferred <= MAX_UINT16
  {
    if c < 2 {
      SmallestAlike(g, c);
    }
  }

  /** Where counts fit, lists are short. */
  lemma ShortLists(g: Config, c: nat)
    requires CountsFit(g) && c < NUM_CLASSES
    ensures MaxCount(g, c) <= 2340
  {
    var share := Max(MIN_BYTES_PER_CLASS, g.maxBytes / NUM_CLASSES);
    QuotientBounds(Budget(g), MAX_ALIGN);
    assert Admitted(g) < MAX_UINT16;
    assert Budget(g) <= 1048559;
    assert g.maxBytes <= 2097119;
    assert share <= 37448;
    QuotientBounds(share, BlockSize(c));
    ProductGrows(16, BlockSize(c), 2341);
    assert 2341 * BlockSize(c) == BlockSize(c) * 2341;
    LessByProduct(Cut(1, share, BlockSize(c)), 2341, BlockSize(c));
  }

  // ---------------------------------------------------------------------------
  // Draining
  // ---------------------------------------------------------------------------

  lemma {:induction false} RoundRobinShrinks(lists: seq<seq<nat>>, cursor: nat, limit: nat, batch: nat, counted: bool,
                                             n: nat)
    requires |lists| == NUM_CLASSES && cursor < NUM_CLASSES
    ensures forall c: nat :: c < NUM_CLASSES ==>
              |RoundRobin(lists, cursor, limit, batch, counted, n).0[c]| <= |lists[c]|
    ensures Total(RoundRobin(lists, cursor, limit, batch, counted, n).0) <= Total(lists)
    decreases n
  {
    hide Weight, Probe, FirstFrom, OneBatch, Wrap;
    if n > 0 && Total(lists) > limit {
      var first := FirstFrom(lists, cursor, counted, 0);
      if first < NUM_CLASSES {
        var c := Probe(cursor, first);
        RoundRobinShrinks(lists[c := OneBatch(lists[c], batch)], Probe(c, 1), limit, batch, counted, n - 1);
      }
    }
    WeightMonotone(RoundRobin(lists, cursor, limit, batch, counted, n).0, lists, NUM_CLASSES);
  }

  /** With every list counted right, the limit is met in the end, or every list is empty or two
      batches shorter than it was at first. */
  lemma {:induction false} RoundRobinProgress(before: seq<seq<nat>>, lists: seq<seq<nat>>, cursor: nat, limit: nat,
                                              batch: nat, counted: bool, n: nat)
    requires |before| == |lists| == NUM_CLASSES && cursor < NUM_CLASSES && n <= NUM_CLASSES * BATCHES_FACTOR
    requires forall c: nat :: c < NUM_CLASSES ==> |lists[c]| <= MAX_UINT16
    requires forall c: nat :: c < NUM_CLASSES ==>
               Progress(NUM_CLASSES * BATCHES_FACTOR - n, cursor, c, |lists[c]|, |before[c]|, batch)
    ensures var after := RoundRobin(lists, cursor, limit, batch, counted, n).0;
            Total(after) <= limit
            || forall c: nat :: c < NUM_CLASSES ==> |after[c]| == 0 || |after[c]| + 2 * batch <= |before[c]|
    decreases n
  {
    hide Weight, Probe, FirstFrom, OneBatch, Wrap, Progress, Skips;
    if n == 0 {
      forall c: nat | c < NUM_CLASSES ensures |lists[c]| == 0 || |lists[c]| + 2 * batch <= |before[c]| {
        ProgressDone(cursor, c, |lists[c]|, |before[c]|, batch);
      }
    } else if Total(lists) > limit {
      var first := FirstFrom(lists, cursor, counted, 0);
      if first == NUM_CLASSES {
        forall c: nat | c < NUM_CLASSES ensures |lists[c]| == 0 {
          AllSkipped(lists, cursor, counted, c);
        }
      } else {
        var c := Probe(cursor, first);
        var lists' := lists[c := OneBatch(lists[c], batch)];
        forall x: nat | x < NUM_CLASSES
          ensures Progress(NUM_CLASSES * BATCHES_FACTOR - (n - 1), Probe(c, 1), x, |lists'[x]|, |before[x]|, batch)
        {
          OneBatchProgress(before, lists, cursor, batch, counted, NUM_CLASSES * BATCHES_FACTOR - n, x);
        }
        RoundRobinProgress(before, lists', Probe(c, 1), limit, batch, counted, n - 1);
      }
    }
  }

  lemma AllSkipped(lists: seq<seq<nat>>, cursor: nat, counted: bool, c: nat)
    requires |lists| == NUM_CLASSES && cursor < NUM_CLASSES && c < NUM_CLASSES && |lists[c]| <= MAX_UINT16
    requires FirstFrom(lists, cursor, counted, 0) > Lag(cursor, c)
    ensures |lists[c]| == 0
  {
    LagProbe(cursor, c);
    Unwrapped(|lists[c]|);
    assert Skips(lists[Probe(cursor, Lag(cursor, c))], counted);
  }

  lemma OneBatchProgress(before: seq<seq<nat>>, lists: seq<seq<nat>>, cursor: nat, batch: nat, counted: bool, n: nat,
                         x: nat)
    requires |before| == |lists| == NUM_CLASSES && cursor < NUM_CLASSES && x < NUM_CLASSES
    requires forall c: nat :: c < NUM_CLASSES ==> |lists[c]| <= MAX_UINT16
    requires Progress(n, cursor, x, |lists[x]|, |before[x]|, batch)
    requires FirstFrom(lists, cursor, counted, 0) < NUM_CLASSES
    ensures var c := Probe(cursor, FirstFrom(lists, cursor, counted, 0));
            Progress(n + 1, Probe(c, 1), x, |lists[c := OneBatch(lists[c], batch)][x]|, |before[x]|, batch)
  {
    hide Probe, FirstFrom, OneBatch, Progress;
    var first := FirstFrom(lists, cursor, counted, 0);
    var c := Probe(cursor, first);
    if Lag(cursor, x) < first {
      AllSkipped(lists, cursor, counted, x);
    }
    Unwrapped(|lists[c]|);
    ProgressKept(n, cursor, first, x, |lists[x]|, |lists[c := OneBatch(lists[c], batch)][x]|, |before[x]|, batch);
  }

  /** A whole draining: in the end the limit is met, or every list is empty or two batches shorter. */
  lemma DrainingReaches(lists: seq<seq<nat>>, cursor: nat, limit: nat, batch: nat, counted: bool)
    requires |lists| == NUM_CLASSES && cursor < NUM_CLASSES
    requires forall c: nat :: c < NUM_CLASSES ==> |lists[c]| <= MAX_UINT16
    ensures var after := RoundRobin(lists, cursor, limit, batch, counted, NUM_CLASSES * BATCHES_FACTOR).0;
            Total(after) <= limit
            || forall c: nat :: c < NUM_CLASSES ==> |after[c]| == 0 || |after[c]| + 2 * batch <= |lists[c]|
  {
    hide Weight, RoundRobin, Progress;
    forall c: nat | c < NUM_CLASSES ensures Progress(0, cursor, c, |lists[c]|, |lists[c]|, batch) {
      ProgressStart(cursor, c, |lists[c]|, batch);
    }
    RoundRobinProgress(lists, lists, cursor, limit, batch, counted, NUM_CLASSES * BATCHES_FACTOR);
  }

  /** Draining after a free that added no more than two batches to one deferred list brings
      the deferred bytes back within budget. */
  lemma DrainedWithinBudget(g: Config, start: seq<seq<nat>>, k: Cache, c: nat)
    requires Shaped(k) && |start| == NUM_CLASSES && c < NUM_CLASSES && Total(start) <= Budget(g)
    requires k.deferred == start[c := k.deferred[c]] && |k.deferred[c]| <= |start[c]| + 2 * DrainBatch(g)
    requires forall x: nat :: x < NUM_CLASSES ==> |k.deferred[x]| <= MAX_UINT16
    ensures Total(DeferredDrained(g, k, false).deferred) <= Budget(g)
    ensures forall x: nat :: x < NUM_CLASSES ==> |DeferredDrained(g, k, false).deferred[x]| <= |k.deferred[x]|
  {
    hide Weight, RoundRobin, Progress;
    var batches := NUM_CLASSES * BATCHES_FACTOR;
    RoundRobinShrinks(k.deferred, k.lastDeferredDrain, Budget(g), DrainBatch(g), false, batches);
    DrainingReaches(k.deferred, k.lastDeferredDrain, Budget(g), DrainBatch(g), false);
    WithinBudget(start, k.deferred, DeferredDrained(g, k, false).deferred, c, DrainBatch(g), Budget(g));
  }

  /** Deferred lists within budget gain what one free adds; then either they are drained to
      the budget again, or every class loses at least as much. */
  lemma WithinBudget(start: seq<seq<nat>>, taken: seq<seq<nat>>, end: seq<seq<nat>>, c: nat, batch: nat, budget: nat)
    requires c < NUM_CLASSES == |start| == |taken| == |end| && taken == start[c := taken[c]]
    requires Total(start) <= budget && |taken[c]| <= |start[c]| + 2 * batch
    requires Total(end) <= budget
             || forall i: nat :: i < NUM_CLASSES ==> |end[i]| == 0 || |end[i]| + 2 * batch <= |taken[i]|
    ensures Total(end) <= budget
  {
    hide Weight;
    if Total(end) > budget {
      forall i: nat | i < NUM_CLASSES ensures |end[i]| <= |start[i]| {
        assert i != c ==> taken[i] == start[i];
      }
      WeightMonotone(end, start, NUM_CLASSES);
    }
  }

  // ---------------------------------------------------------------------------
  // The operations keep the invariant
  // ---------------------------------------------------------------------------

  /** Both lists of a class after a block was taken in and the list relieved, in numbers. */
  lemma RelievedLengths(g: Config, k: Cache, c: nat, ptr: nat, route: bool)
    requires Shaped(k) && c < NUM_CLASSES && |k.lists[c]| < MAX_UINT16
    ensures var k1 := TakenIn(k, c, ptr, route);
            var k2 := Relieved(g, k1, c);
            var listed := |k.lists[c]| + if route then 0 else 1;
            var moved := Moved(MaxCount(g, c), g.refillBatch, listed, Total(k1.lists) > g.maxBytes);
            && |k1.lists[c]| == listed && |k2.lists[c]| == listed - moved
            && |k2.deferred[c]| == |k.deferred[c]| + moved + (if route then 1 else 0)
            && k2.lists == k.lists[c := k2.lists[c]] && k2.deferred == k.deferred[c := k2.deferred[c]]
            && k2.lastDrain == k.lastDrain && k2.lastDeferredDrain == k.lastDeferredDrain
  {
    hide Weight, MaxCount, SpillCount;
    Unwrapped(|TakenIn(k, c, ptr, route).lists[c]|);
  }

  /** Refills apart, bytes on the lists do not pass the maximum for good. */
  lemma RelievedBytes(g: Config, k: Cache, c: nat, ptr: nat, route: bool)
    requires Shaped(k) && c < NUM_CLASSES && |k.lists[c]| < MAX_UINT16 && Total(k.lists) <= g.maxBytes
    ensures Total(Relieved(g, TakenIn(k, c, ptr, route), c).lists) <= g.maxBytes
    ensures route ==> Total(TakenIn(k, c, ptr, route).lists) <= g.maxBytes
  {
    hide Weight, MaxCount, SpillCount;
    RelievedLengths(g, k, c, ptr, route);
    var k1 := TakenIn(k, c, ptr, route);
    var k2 := Relieved(g, k1, c);
    if Total(k1.lists) > g.maxBytes {
      WeightMonotone(k2.lists, k.lists, NUM_CLASSES);
    } else {
      WeightMonotone(k2.lists, k1.lists, NUM_CLASSES);
    }
  }

  lemma RelievedAtRest(g: Config, k: Cache, c: nat, ptr: nat, route: bool)
    requires AtRest(g, k) && CountsFit(g) && g.refillBatch <= MAX_REFILL && c < NUM_CLASSES
    ensures var k2 := Relieved(g, TakenIn(k, c, ptr, route), c);
            && ListsBounded(g, k2) && Exact(k2) && Exact(TakenIn(k, c, ptr, route))
            && (g.refillBatch <= 1 ==> Total(k2.lists) <= g.maxBytes)
            && k2.deferred == k.deferred[c := k2.deferred[c]] && |k2.deferred[c]| <= |k.deferred[c]| + 2 * DrainBatch(g)
  {
    hide Weight, MaxCount, Relieved, TakenIn, RefillShows, Exact, Gain, Moved, SpillCount;
    RestIsExact(g, k);
    ShortLists(g, c);
    OneFreeFitsTwoBatches(g, MaxCount(g, c));
    RelievedLengths(g, k, c, ptr, route);
    if g.refillBatch <= 1 {
      RelievedBytes(g, k, c, ptr, route);
    }
    var k1 := TakenIn(k, c, ptr, route);
    BlocksInBudget(k.deferred, Budget(g), c);
    FreeInNumbers(Admitted(g), MaxCount(g, c), g.refillBatch, |k.lists[c]|, |k.deferred[c]|, route,
                  Total(k1.lists) > g.maxBytes);
    RoomForOneFree(g, c, |Relieved(g, k1, c).deferred[c]|, |k.deferred[c]|);
    TakenInExact(g, k, c, ptr, route);
    OneClassBounded(g, k, Relieved(g, k1, c), c);
  }

  lemma OneClassBounded(g: Config, k: Cache, k': Cache, c: nat)
    requires Shaped(k) && Shaped(k') && ListsBounded(g, k) && Exact(k) && c < NUM_CLASSES
    requires k'.lists == k.lists[c := k'.lists[c]] && k'.deferred == k.deferred[c := k'.deferred[c]]
    requires |k'.lists[c]| <= ListCap(MaxCount(g, c), g.refillBatch)
    requires RefillShows(Admitted(g), MaxCount(g, c), g.refillBatch, |k'.lists[c]|, |k'.deferred[c]|)
    requires |k'.lists[c]| <= MAX_UINT16 && |k'.deferred[c]| <= MAX_UINT16
    ensures ListsBounded(g, k') && Exact(k')
  {
    hide MaxCount, RefillShows;
  }

  lemma TakenInExact(g: Config, k: Cache, c: nat, ptr: nat, route: bool)
    requires Shaped(k) && Exact(k) && c < NUM_CLASSES && |k.lists[c]| < MAX_UINT16 && |k.deferred[c]| < MAX_UINT16
    ensures Exact(TakenIn(k, c, ptr, route))
  {
  }

  /** Between operations every count has room for one more. */
  lemma RestIsExact(g: Config, k: Cache)
    requires AtRest(g, k) && CountsFit(g) && g.refillBatch <= MAX_REFILL
    ensures Exact(k)
    ensures forall c: nat :: c < NUM_CLASSES ==> |k.lists[c]| < MAX_UINT16 && |k.deferred[c]| < MAX_UINT16
  {
    hide Weight, MaxCount;
    forall c: nat | c < NUM_CLASSES ensures |k.lists[c]| < MAX_UINT16 && |k.deferred[c]| < MAX_UINT16 {
      ShortLists(g, c);
      BlocksInBudget(k.deferred, Budget(g), c);
    }
  }

  /** Shorter lists are as good. */
  lemma ShorterLists(g: Config, k: Cache, k': Cache)
    requires Shaped(k) && Shaped(k') && ListsBounded(g, k)
    requires forall c: nat :: c < NUM_CLASSES ==> |k'.lists[c]| <= |k.lists[c]| && |k'.deferred[c]| <= |k.deferred[c]|
    ensures ListsBounded(g, k') && Total(k'.lists) <= Total(k.lists) && Total(k'.deferred) <= Total(k.deferred)
  {
    hide MaxCount, Weight;
    WeightMonotone(k'.lists, k.lists, NUM_CLASSES);
    WeightMonotone(k'.deferred, k.deferred, NUM_CLASSES);
  }

  lemma TrimShrinks(g: Config, k: Cache)
    requires Shaped(k)
    ensures forall c: nat :: c < NUM_CLASSES ==>
              |Trimmed(g, k, false).lists[c]| <= |k.lists[c]| && |Trimmed(g, k, false).deferred[c]| <= |k.deferred[c]|
  {
    hide Weight, RoundRobin;
    RoundRobinShrinks(k.deferred, k.lastDeferredDrain, Budget(g), DrainBatch(g), false, NUM_CLASSES * BATCHES_FACTOR);
    RoundRobinShrinks(k.lists, k.lastDrain, g.maxBytes * 9 / 8, DrainChunk(g), true, NUM_CLASSES * BATCHES_FACTOR);
  }

  /** A free keeps the invariant, and on the way every count. */
  lemma FreedAtRest(g: Config, k: Cache, c: nat, ptr: nat, route: bool)
    requires AtRest(g, k) && CountsFit(g) && g.refillBatch <= MAX_REFILL && c < NUM_CLASSES
    ensures AtRest(g, Freed(g, k, c, ptr, route))
    ensures Exact(TakenIn(k, c, ptr, route)) && Exact(Relieved(g, TakenIn(k, c, ptr, route), c))
  {
    hide Weight, MaxCount, Relieved, TakenIn, DeferredDrained, Trimmed, ListsBounded;
    RelievedAtRest(g, k, c, ptr, route);
    var k2 := Relieved(g, TakenIn(k, c, ptr, route), c);
    DrainedWithinBudget(g, k.deferred, k2, c);
    var k3 := DeferredDrained(g, k2, false);
    ListsKeptByDrain(g, k2);
    ShorterLists(g, k2, k3);
    TrimShrinks(g, k3);
    ShorterLists(g, k3, Trimmed(g, k3, false));
  }

  lemma ListsKeptByDrain(g: Config, k: Cache)
    requires Shaped(k)
    ensures DeferredDrained(g, k, false).lists == k.lists
  {
  }

  lemma AllocatedAtRest(g: Config, k: Cache, c: nat, batch: seq<nat>)
    requires AtRest(g, k) && g.refillBatch <= MAX_REFILL && c < NUM_CLASSES && |batch| <= g.refillBatch
    ensures AtRest(g, Allocated(g, k, c, batch).0)
  {
    hide Weight, MaxCount;
    var k' := Allocated(g, k, c, batch).0;
    BlocksInBudget(k.deferred, Budget(g), c);
    WeightMonotone(k'.deferred, k.deferred, NUM_CLASSES);
    if g.refillBatch <= 1 || k.lists[c] != [] {
      WeightMonotone(k'.lists, k.lists, NUM_CLASSES);
    }
  }

  /** With exact counts everything goes back. */
  lemma AllDrainedIsEmpty(lists: seq<seq<nat>>)
    requires |lists| == NUM_CLASSES && forall c: nat :: c < NUM_CLASSES ==> |lists[c]| <= MAX_UINT16
    ensures AllDrained(lists) == NoLists()
  {
    forall c: nat | c < NUM_CLASSES ensures AllDrained(lists)[c] == [] {
      Unwrapped(|lists[c]|);
    }
  }

  lemma FlushedIsEmpty(g: Config, k: Cache)
    requires Shaped(k) && Exact(k)
    ensures Flushed(g, k).lists == Flushed(g, k).deferred == NoLists()
    ensures Idled(g, k).lists == Idled(g, k).deferred == NoLists()
  {
    hide AllDrained, RoundRobin, Weight;
    AllDrainedIsEmpty(k.lists);
    AllDrainedIsEmpty(k.deferred);
    AllDrainedIsEmpty(NoLists());
  }

  lemma EmptyAtRest(g: Config, k: Cache)
    requires Shaped(k) && k.lists == k.deferred == NoLists()
    ensures AtRest(g, k)
  {
    hide MaxCount;
    WeightOfNothing(k.lists, NUM_CLASSES);
  }

  // ---------------------------------------------------------------------------
  // The limits
  // ---------------------------------------------------------------------------

  /** What the configured limits come to: the budget is half the maximum; a class admits the most
      blocks that fit its share of the bytes, eight in any case, but no more than configured; and
      a spill is the most that is within the refill batch and a quarter of that, two in any case. */
  lemma LimitsAreLargest(g: Config, c: nat)
    requires c < NUM_CLASSES
    ensures g.maxBytes <= 2 * Budget(g) + 1 && (2 * Budget(g) <= g.maxBytes || Budget(g) == 1)
    ensures var n, size := MaxCount(g, c), BlockSize(c);
            && n <= g.maxPerClass
            && (n > 8 ==> n * size <= 256 || 56 * (n * size) <= g.maxBytes)
            && (n < g.maxPerClass ==> n >= 8 && (n + 1) * size > 256 && 56 * ((n + 1) * size) > g.maxBytes)
    ensures var m, r := MaxCount(g, c), g.refillBatch;
            var spill := SpillCount(m, r);
            if m == 0 then spill == 1
            else spill >= 2 && (spill > 2 ==> spill <= r && 4 * (spill - 1) <= m) && (spill + 1 > r || 4 * spill > m)
    ensures RefillTarget(g) >= 1 && (g.refillBatch >= 1 ==> RefillTarget(g) == g.refillBatch)
    ensures g.refillBatch == 0 ==> RefillTarget(g) == 1
    ensures 16 <= DrainBatch(g) <= 128 && (16 < DrainBatch(g) < 128 ==> DrainBatch(g) == g.refillBatch)
    ensures DrainBatch(g) == 16 ==> g.refillBatch <= 16
    ensures DrainBatch(g) == 128 ==> g.refillBatch >= 128
    ensures 8 <= DrainChunk(g) <= 32 && (8 < DrainChunk(g) ==> 2 * DrainChunk(g) <= g.refillBatch)
    ensures DrainChunk(g) < 32 ==> g.refillBatch <= 2 * DrainChunk(g) + 1
  {
    hide BlockSize;
    var share, size := Max(MIN_BYTES_PER_CLASS, g.maxBytes / NUM_CLASSES), BlockSize(c);
    var fits := Cut(1, share, size);
    QuotientBounds(share, size);
    assert (fits + 1) * size == fits * size + size;
    QuotientBounds(g.maxBytes, NUM_CLASSES);
    var n: nat := MaxCount(g, c);
    if n > 8 {
      ProductGrows(n, fits, size);
    }
    if n < g.maxPerClass {
      ProductGrows(fits + 1, n + 1, size);
    }
  }

  // ---------------------------------------------------------------------------
  // What one operation amounts to
  // ---------------------------------------------------------------------------

  lemma {:induction false} ReversedFirst(list: seq<nat>)
    requires list != []
    ensures Reversed(list)[0] == list[|list| - 1]
  {
    if |list| > 1 {
      ReversedFirst(list[1..]);
    }
  }

  /** The central pool is asked only when both lists of the class are empty; otherwise the block
      put in last is handed out, of the deferred list the last of the refill. */
  lemma AllocatedFromLists(g: Config, k: Cache, c: nat, batch: seq<nat>)
    requires Shaped(k) && c < NUM_CLASSES
    ensures var (k', result) := Allocated(g, k, c, batch);
            && (result.Cached? <==> k.lists[c] != [] || k.deferred[c] != [])
            && (k.lists[c] != [] ==>
                  k.lists[c] == [result.block] + k'.lists[c] && k'.lists == k.lists[c := k'.lists[c]]
                  && k'.deferred == k.deferred)
            && (k.lists[c] == [] && k.deferred[c] != [] ==>
                  var n := Min(RefillTarget(g), |k.deferred[c]|);
                  result.block == k.deferred[c][n - 1] && k'.deferred == k.deferred[c := k.deferred[c][n..]]
                  && [result.block] + k'.lists[c] == Reversed(k.deferred[c][..n]))
            && (result.Nothing? ==> k' == k && batch == [])
            && (result.FromCentral? ==>
                  batch != [] && result.block == batch[0] && k'.lists[c] == Reversed(batch[1..])
                  && k'.deferred == k.deferred)
  {
    if k.lists[c] == [] {
      var n := Min(RefillTarget(g), |k.deferred[c]|);
      var piled := Piled(k.deferred[c], RefillTarget(g), []);
      assert piled == Reversed(k.deferred[c][..n]);
      if k.deferred[c] != [] {
        ReversedFirst(k.deferred[c][..n]);
        assert piled == [piled[0]] + piled[1..];
      } else {
        assert k.lists[c := []] == k.lists && k.deferred[c := []] == k.deferred;
      }
    }
  }

  /** A block that comes back goes in front of one of the two lists, and a list recorded as too
      long, or too many bytes on all, spill its first blocks. */
  lemma RelievedExactly(g: Config, k: Cache, c: nat, ptr: nat, route: bool)
    requires Shaped(k) && c < NUM_CLASSES && |k.lists[c]| < MAX_UINT16
    ensures var k' := Relieved(g, TakenIn(k, c, ptr, route), c);
            var list := if route then k.lists[c] else [ptr] + k.lists[c];
            var onto := if route then [ptr] + k.deferred[c] else k.deferred[c];
            var over := Total(k.lists) + (if route then 0 else BlockSize(c)) > g.maxBytes;
            var moved := Moved(MaxCount(g, c), g.refillBatch, |list|, over);
            && moved <= |list|
            && k'.lists == k.lists[c := list[moved..]] && k'.deferred == k.deferred[c := Reversed(list[..moved]) + onto]
            && k'.lastDrain == k.lastDrain && k'.lastDeferredDrain == k.lastDeferredDrain
  {
    hide Weight, MaxCount, SpillCount, Wrap, BlockSize;
    var k1 := TakenIn(k, c, ptr, route);
    TakenInTotal(g, k, c, ptr, route);
    Unwrapped(|k1.lists[c]|);
    assert k1.lists[c][..0] == [] && Reversed([]) + k1.deferred[c] == k1.deferred[c];
    assert k.lists[c := k.lists[c]] == k.lists && k.deferred[c := k.deferred[c]] == k.deferred;
  }

  /** A free that passes no limit moves the block and what spills, and that is all. */
  lemma FreedWithinLimits(g: Config, k: Cache, c: nat, ptr: nat, route: bool)
    requires Shaped(k) && c < NUM_CLASSES
    requires var k2 := Relieved(g, TakenIn(k, c, ptr, route), c);
             Total(k2.deferred) <= Budget(g) && Total(k2.lists) + Total(k2.deferred) <= g.maxBytes * 5 / 4
    ensures Freed(g, k, c, ptr, route) == Relieved(g, TakenIn(k, c, ptr, route), c)
  {
    hide Weight, MaxCount, SpillCount, Settled, TakenIn, Relieved, Budget;
    SettledWithinLimits(g, Relieved(g, TakenIn(k, c, ptr, route), c));
  }

  lemma SettledWithinLimits(g: Config, k: Cache)
    requires Shaped(k) && Total(k.deferred) <= Budget(g)
    requires Total(k.lists) + Total(k.deferred) <= g.maxBytes * 5 / 4
    ensures Settled(g, k) == k
  {
    hide Weight, RoundRobin;
    RoundRobinWithin(k.deferred, k.lastDeferredDrain, Budget(g), DrainBatch(g), false, NUM_CLASSES * BATCHES_FACTOR);
  }

  // ---------------------------------------------------------------------------
  // What a free leaves behind
  // ---------------------------------------------------------------------------

  /** Every list is what is left of it, its last blocks. */
  predicate Shortened(before: seq<seq<nat>>, after: seq<seq<nat>>) {
    |after| == |before| && forall c: nat :: c < |before| ==>
      |after[c]| <= |before[c]| && after[c] == before[c][|before[c]| - |after[c]|..]
  }

  lemma ShortenedTwice(a: seq<seq<nat>>, b: seq<seq<nat>>, c: seq<seq<nat>>)
    requires Shortened(a, b) && Shortened(b, c)
    ensures Shortened(a, c)
  {
    forall i: nat | i < |a| ensures c[i] == a[i][|a[i]| - |c[i]|..] {
      assert b[i] == a[i][|a[i]| - |b[i]|..];
    }
  }

  /** The last batch was needed: it came from the class before the cursor, and with it the limit
      was passed. */
  predicate JustMet(lists: seq<seq<nat>>, cursor: nat, limit: nat, batch: nat)
    requires |lists| == NUM_CLASSES
  {
    Total(lists) + Times(batch, BlockSize((cursor + NUM_CLASSES - 1) % NUM_CLASSES)) > limit
  }

  lemma NotShortened(lists: seq<seq<nat>>)
    ensures Shortened(lists, lists)
  {
  }

  /** Draining takes blocks off the fronts of lists only, and no batch that is not needed. */
  lemma {:induction false} DrainingIsNeeded(lists: seq<seq<nat>>, cursor: nat, limit: nat, batch: nat, counted: bool,
                                            n: nat)
    requires |lists| == NUM_CLASSES && cursor < NUM_CLASSES
    ensures var (after, cursor') := RoundRobin(lists, cursor, limit, batch, counted, n);
            Shortened(lists, after) && (after != lists || cursor' != cursor ==> JustMet(after, cursor', limit, batch))
    decreases n
  {
    hide Weight, Probe, FirstFrom, OneBatch, BlockSize, Times, Shortened, Wrap;
    var (after, cursor') := RoundRobin(lists, cursor, limit, batch, counted, n);
    NotShortened(lists);
    if n > 0 && Total(lists) > limit {
      var first := FirstFrom(lists, cursor, counted, 0);
      if first < NUM_CLASSES {
        var c := Probe(cursor, first);
        var lists' := lists[c := OneBatch(lists[c], batch)];
        OneBatchShortens(lists, c, batch);
        DrainingIsNeeded(lists', Probe(c, 1), limit, batch, counted, n - 1);
        ShortenedTwice(lists, lists', after);
        BehindProbe(c);
      }
    }
  }

  lemma BehindProbe(c: nat)
    requires c < NUM_CLASSES
    ensures (Probe(c, 1) + NUM_CLASSES - 1) % NUM_CLASSES == c
  {
  }

  lemma OneBatchShortens(lists: seq<seq<nat>>, c: nat, batch: nat)
    requires |lists| == NUM_CLASSES && c < NUM_CLASSES
    ensures var lists' := lists[c := OneBatch(lists[c], batch)];
            Shortened(lists, lists') && Total(lists') + Times(batch, BlockSize(c)) >= Total(lists)
  {
    hide Weight, BlockSize, Wrap;
    var rest := OneBatch(lists[c], batch);
    WeightUpdated(lists, NUM_CLASSES, c, rest);
    ProductGrows(|lists[c]|, |rest| + batch, BlockSize(c));
    assert (|rest| + batch) * BlockSize(c) == |rest| * BlockSize(c) + batch * BlockSize(c);
  }

  /** The lengths of both lists of class `x` before draining, when class `c` took a block in. */
  function Arrived(g: Config, k: Cache, c: nat, route: bool, over: bool, x: nat): (lengths: (nat, nat))
    requires Shaped(k) && c < NUM_CLASSES && x < NUM_CLASSES
  {
    if x != c then (|k.lists[x]|, |k.deferred[x]|)
    else
      var listed := |k.lists[c]| + if route then 0 else 1;
      var moved := Moved(MaxCount(g, c), g.refillBatch, listed, over);
      (if moved <= listed then listed - moved else 0, |k.deferred[c]| + moved + if route then 1 else 0)
  }

  /** After a free the deferred bytes are within budget, or every deferred list is empty or two
      batches shorter; and the retained bytes are within five quarters of the maximum, or those of
      the lists within nine eighths, or every list is empty or two chunks shorter. */
  lemma FreedIsTrimmed(g: Config, k: Cache, c: nat, ptr: nat, route: bool)
    requires Shaped(k) && Exact(k) && c < NUM_CLASSES && |k.lists[c]| < MAX_UINT16
    requires |k.deferred[c]| + 1 + SpillCount(MaxCount(g, c), g.refillBatch) <= MAX_UINT16
    ensures var k' := Freed(g, k, c, ptr, route);
            var over := Total(k.lists) + (if route then 0 else BlockSize(c)) > g.maxBytes;
            && (|| Total(k'.deferred) <= Budget(g)
                || forall x: nat :: x < NUM_CLASSES ==>
                     || |k'.deferred[x]| == 0
                     || |k'.deferred[x]| + 2 * DrainBatch(g) <= Arrived(g, k, c, route, over, x).1)
            && (|| 4 * (Total(k'.lists) + Total(k'.deferred)) <= 5 * g.maxBytes
                || 8 * Total(k'.lists) <= 9 * g.maxBytes
                || forall x: nat :: x < NUM_CLASSES ==>
                     || |k'.lists[x]| == 0
                     || |k'.lists[x]| + 2 * DrainChunk(g) <= Arrived(g, k, c, route, over, x).0)
  {
    hide Weight, MaxCount, SpillCount, RoundRobin, Relieved, TakenIn, BlockSize, Moved, Budget;
    var k2 := Relieved(g, TakenIn(k, c, ptr, route), c);
    TakenInTotal(g, k, c, ptr, route);
    RelievedLengths(g, k, c, ptr, route);
    MovedAtMost(MaxCount(g, c), g.refillBatch, |k.lists[c]| + if route then 0 else 1);
    SettledIsTrimmed(g, k2);
  }

  lemma MovedAtMost(maxCount: nat, refillBatch: nat, listed: nat)
    ensures forall over: bool ::
              Moved(maxCount, refillBatch, listed, over) <= Min(SpillCount(maxCount, refillBatch), listed)
  {
  }

  lemma TakenInTotal(g: Config, k: Cache, c: nat, ptr: nat, route: bool)
    requires Shaped(k) && c < NUM_CLASSES
    ensures Total(TakenIn(k, c, ptr, route).lists) == Total(k.lists) + if route then 0 else BlockSize(c)
  {
    hide Weight, BlockSize;
    WeightLonger(k.lists, c, ptr);
  }

  lemma SettledIsTrimmed(g: Config, k: Cache)
    requires Shaped(k) && Exact(k)
    ensures var k' := Settled(g, k);
            && (|| Total(k'.deferred) <= Budget(g)
                || forall x: nat :: x < NUM_CLASSES ==>
                     |k'.deferred[x]| == 0 || |k'.deferred[x]| + 2 * DrainBatch(g) <= |k.deferred[x]|)
            && (|| 4 * (Total(k'.lists) + Total(k'.deferred)) <= 5 * g.maxBytes
                || 8 * Total(k'.lists) <= 9 * g.maxBytes
                || forall x: nat :: x < NUM_CLASSES ==>
                     |k'.lists[x]| == 0 || |k'.lists[x]| + 2 * DrainChunk(g) <= |k.lists[x]|)
  {
    hide Weight, RoundRobin, Budget, DrainChunk, DrainBatch;
    var batches := NUM_CLASSES * BATCHES_FACTOR;
    RoundRobinShrinks(k.deferred, k.lastDeferredDrain, Budget(g), DrainBatch(g), false, batches);
    var drained := DeferredDrained(g, k, false);
    RoundRobinShrinks(drained.deferred, drained.lastDeferredDrain, Budget(g), DrainBatch(g), false, batches);
    DrainingReaches(k.deferred, k.lastDeferredDrain, Budget(g), DrainBatch(g), false);
    DrainingReaches(k.lists, k.lastDrain, g.maxBytes * 9 / 8, DrainChunk(g), true);
  }

  /** A free takes nothing but the fronts of lists, drains deferred blocks only above their budget
      and the other lists only when five quarters of the maximum were passed and, up to the last
      chunk, nine eighths still are. */
  lemma FreedTakesFronts(g: Config, k: Cache, c: nat, ptr: nat, route: bool)
    requires Shaped(k) && c < NUM_CLASSES
    ensures var k', k2 := Freed(g, k, c, ptr, route), Relieved(g, TakenIn(k, c, ptr, route), c);
            && Shortened(k2.lists, k'.lists) && Shortened(k2.deferred, k'.deferred)
            && (k'.deferred != k2.deferred ==> JustMet(k'.deferred, k'.lastDeferredDrain, Budget(g), DrainBatch(g)))
            && (k'.lists != k2.lists ==>
                  4 * (Total(k2.lists) + Total(k2.deferred)) > 5 * g.maxBytes
                  && JustMet(k'.lists, k'.lastDrain, g.maxBytes * 9 / 8, DrainChunk(g)))
  {
    hide Weight, MaxCount, SpillCount, RoundRobin, Relieved, TakenIn, BlockSize, Budget, Times, DrainBatch, DrainChunk;
    var k2 := Relieved(g, TakenIn(k, c, ptr, route), c);
    SettledTakesFronts(g, k2);
  }

  lemma SettledTakesFronts(g: Config, k: Cache)
    requires Shaped(k)
    ensures var k' := Settled(g, k);
            && Shortened(k.lists, k'.lists) && Shortened(k.deferred, k'.deferred)
            && (k'.deferred != k.deferred ==> JustMet(k'.deferred, k'.lastDeferredDrain, Budget(g), DrainBatch(g)))
            && (k'.lists != k.lists ==>
                  4 * (Total(k.lists) + Total(k.deferred)) > 5 * g.maxBytes
                  && JustMet(k'.lists, k'.lastDrain, g.maxBytes * 9 / 8, DrainChunk(g)))
  {
    hide Weight, RoundRobin, BlockSize, Budget, Times, DrainBatch, DrainChunk;
    var batches := NUM_CLASSES * BATCHES_FACTOR;
    var drained := DeferredDrained(g, k, false);
    DrainingIsNeeded(k.deferred, k.lastDeferredDrain, Budget(g), DrainBatch(g), false, batches);
    RoundRobinShrinks(k.deferred, k.lastDeferredDrain, Budget(g), DrainBatch(g), false, batches);
    DrainingIsNeeded(drained.deferred, drained.lastDeferredDrain, Budget(g), DrainBatch(g), false, batches);
    DrainingIsNeeded(k.lists, k.lastDrain, g.maxBytes * 9 / 8, DrainChunk(g), true, batches);
    ShortenedTwice(k.deferred, drained.deferred, Settled(g, k).deferred);
    assert Shortened(k.lists, k.lists);
  }

  /** Going around from the cursor, the first list with a block is that of class `c`. */
  predicate IsNext(lists: seq<seq<nat>>, cursor: nat, c: nat)
    requires |lists| == NUM_CLASSES && cursor < NUM_CLASSES && c < NUM_CLASSES
  {
    && lists[c] != []
    && forall x: nat :: x < NUM_CLASSES && lists[x] != [] ==> Lag(cursor, c) <= Lag(cursor, x)
  }

  /** The lists after one batch of class `c`. */
  function Batched(lists: seq<seq<nat>>, c: nat, batch: nat): (lists': seq<seq<nat>>)
    requires c < |lists|
    ensures |lists'| == |lists|
  {
    lists[c := lists[c][Min(batch, |lists[c]|)..]]
  }

  lemma NextIsFirst(lists: seq<seq<nat>>, cursor: nat, counted: bool, c: nat)
    requires |lists| == NUM_CLASSES && cursor < NUM_CLASSES && c < NUM_CLASSES && IsNext(lists, cursor, c)
    requires forall x: nat :: x < NUM_CLASSES ==> |lists[x]| <= MAX_UINT16
    ensures FirstFrom(lists, cursor, counted, 0) == Lag(cursor, c) < NUM_CLASSES
    ensures Probe(cursor, Lag(cursor, c)) == c
  {
    hide Wrap, Probe, Lag;
    var first := FirstFrom(lists, cursor, counted, 0);
    LagProbe(cursor, c);
    Unwrapped(|lists[c]|);
    if first < NUM_CLASSES {
      ProbeLag(cursor, first);
    }
  }

  /** With exact counts, a batch is taken from the first list with a block, and the next search
      starts behind it. */
  lemma DrainsInTurn(lists: seq<seq<nat>>, cursor: nat, limit: nat, batch: nat, counted: bool, n: nat, c: nat)
    requires |lists| == NUM_CLASSES && cursor < NUM_CLASSES && n > 0 && Total(lists) > limit
    requires forall x: nat :: x < NUM_CLASSES ==> |lists[x]| <= MAX_UINT16
    requires c < NUM_CLASSES && IsNext(lists, cursor, c)
    ensures RoundRobin(lists, cursor, limit, batch, counted, n)
            == RoundRobin(Batched(lists, c, batch), (c + 1) % NUM_CLASSES, limit, batch, counted, n - 1)
  {
    hide Weight, Wrap, FirstFrom, IsNext, Lag, Skips;
    NextIsFirst(lists, cursor, counted, c);
    OneBatchIsBatched(lists[c], batch);
  }

  lemma OneBatchIsBatched(list: seq<nat>, batch: nat)
    requires |list| <= MAX_UINT16
    ensures OneBatch(list, batch) == list[Min(batch, |list|)..]
  {
    Unwrapped(|list|);
  }

  /** Where one batch of the first deferred list from the cursor on is enough, that batch is all a
      free drains, and the cursor goes behind its class. */
  lemma OneBatchSettles(g: Config, k: Cache, c: nat)
    requires Shaped(k) && Exact(k) && c < NUM_CLASSES
    requires Total(k.deferred) > Budget(g) && IsNext(k.deferred, k.lastDeferredDrain, c)
    requires var rest := Batched(k.deferred, c, DrainBatch(g));
             Total(rest) <= Budget(g) && 4 * (Total(k.lists) + Total(rest)) <= 5 * g.maxBytes
    ensures Settled(g, k)
            == k.(deferred := Batched(k.deferred, c, DrainBatch(g)), lastDeferredDrain := (c + 1) % NUM_CLASSES)
  {
    hide Weight, RoundRobin, Budget, DrainBatch, IsNext;
    var batches, rest := NUM_CLASSES * BATCHES_FACTOR, Batched(k.deferred, c, DrainBatch(g));
    DrainsInTurn(k.deferred, k.lastDeferredDrain, Budget(g), DrainBatch(g), false, batches, c);
    RoundRobinWithin(rest, (c + 1) % NUM_CLASSES, Budget(g), DrainBatch(g), false, batches - 1);
  }

  /** Where one chunk of the first list from the cursor on is enough, that chunk is all a free
      trims, and the cursor goes behind its class. */
  lemma OneChunkSettles(g: Config, k: Cache, c: nat)
    requires Shaped(k) && Exact(k) && c < NUM_CLASSES
    requires Total(k.deferred) <= Budget(g) && IsNext(k.lists, k.lastDrain, c)
    requires 4 * (Total(k.lists) + Total(k.deferred)) > 5 * g.maxBytes && 8 * Total(k.lists) > 9 * g.maxBytes
    requires 8 * Total(Batched(k.lists, c, DrainChunk(g))) <= 9 * g.maxBytes
    ensures Settled(g, k) == k.(lists := Batched(k.lists, c, DrainChunk(g)), lastDrain := (c + 1) % NUM_CLASSES)
  {
    hide Weight, RoundRobin, Budget, DrainBatch, DrainChunk, IsNext;
    var batches, limit, rest := NUM_CLASSES * BATCHES_FACTOR, g.maxBytes * 9 / 8, Batched(k.lists, c, DrainChunk(g));
    RoundRobinWithin(k.deferred, k.lastDeferredDrain, Budget(g), DrainBatch(g), false, batches);
    DrainsInTurn(k.lists, k.lastDrain, limit, DrainChunk(g), true, batches, c);
    RoundRobinWithin(rest, (c + 1) % NUM_CLASSES, limit, DrainChunk(g), true, batches - 1);
  }
}
