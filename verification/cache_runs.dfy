/** Whole runs of a thread cache: exactly which configurations keep the 16-bit counts right, and
    what becomes of blocks once a count has wrapped. */
module CacheRuns {
  import opened CacheBalance
  import opened CacheBounds
  import opened CacheState
  import opened CacheWeights
  import opened CentralFetch
  import opened Numbers
  import opened Sequences

  datatype Request =
    | Free(sizeClass: nat, ptr: nat, route: bool)
    | Allocate(sizeClass: nat, batch: seq<nat>)
    | Idle
    | Flush

  /** A block comes to the cache only when it is not there, and no batch has a block twice or
      is larger than a fetch. */
  predicate Allowed(g: Config, k: Cache, request: Request)
    requires Shaped(k)
  {
    match request
    case Free(c, ptr, _) => c < NUM_CLASSES ==> ptr !in k.lists[c] && ptr !in k.deferred[c]
    case Allocate(c, batch) =>
      && |batch| <= Min(g.refillBatch, MAX_BATCH) && NoDuplicates(batch)
      && (c < NUM_CLASSES ==> forall b: nat :: b in batch ==> b !in k.lists[c] && b !in k.deferred[c])
    case Idle => true
    case Flush => true
  }

  function Step(g: Config, k: Cache, request: Request): (k': Cache)
    requires Shaped(k)
    ensures Shaped(k')
  {
    match request
    case Free(c, ptr, route) => if c < NUM_CLASSES then Freed(g, k, c, ptr, route) else k
    case Allocate(c, batch) => if c < NUM_CLASSES then Allocated(g, k, c, batch).0 else k
    case Idle => Idled(g, k)
    case Flush => Flushed(g, k)
  }

  function Run(g: Config, requests: seq<Request>): (k: Cache)
    ensures Shaped(k)
  {
    if requests == [] then EmptyCache()
    else Step(g, Run(g, requests[..|requests| - 1]), requests[|requests| - 1])
  }

  predicate AllowedRun(g: Config, requests: seq<Request>) {
    requests == []
    || (AllowedRun(g, requests[..|requests| - 1])
        && Allowed(g, Run(g, requests[..|requests| - 1]), requests[|requests| - 1]))
  }

  ghost predicate CountsStayExact(g: Config) {
    forall requests: seq<Request> :: AllowedRun(g, requests) ==> Exact(Run(g, requests))
  }

  /** Flushing after any run leaves no block behind. */
  ghost predicate FlushEmpties(g: Config) {
    forall requests: seq<Request> :: AllowedRun(g, requests) ==>
      Flushed(g, Run(g, requests)).lists == Flushed(g, Run(g, requests)).deferred == NoLists()
  }

  // ---------------------------------------------------------------------------
  // Where the counts fit
  // ---------------------------------------------------------------------------

  /** After every run the deferred bytes are within budget and every count is exact. */
  lemma {:induction false} EveryRunIsAtRest(g: Config, requests: seq<Request>)
    requires CountsFit(g) && g.refillBatch <= MAX_REFILL && AllowedRun(g, requests)
    ensures AtRest(g, Run(g, requests)) && Exact(Run(g, requests))
    ensures Total(Run(g, requests).deferred) <= Budget(g)
  {
    hide AtRest, Exact, CountsFit, Freed, Allocated, Idled, Flushed;
    if requests == [] {
      EmptyAtRest(g, EmptyCache());
    } else {
      var before, request := requests[..|requests| - 1], requests[|requests| - 1];
      EveryRunIsAtRest(g, before);
      var k := Run(g, before);
      StepAtRest(g, k, request);
    }
    RestIsExact(g, Run(g, requests));
    RestIsWithinBudget(g, Run(g, requests));
  }

  lemma RestIsWithinBudget(g: Config, k: Cache)
    requires AtRest(g, k)
    ensures Total(k.deferred) <= Budget(g)
  {
  }

  lemma StepAtRest(g: Config, k: Cache, request: Request)
    requires AtRest(g, k) && Shaped(k) && Exact(k) && CountsFit(g) && g.refillBatch <= MAX_REFILL
    requires Allowed(g, k, request)
    ensures AtRest(g, Step(g, k, request))
  {
    hide AtRest, Exact, CountsFit, Freed, Allocated, Idled, Flushed;
    match request
    case Free(c, ptr, route) =>
      if c < NUM_CLASSES {
        FreedAtRest(g, k, c, ptr, route);
      }
    case Allocate(c, batch) =>
      if c < NUM_CLASSES {
        AllocatedAtRest(g, k, c, batch);
      }
    case Idle =>
      FlushedIsEmpty(g, k);
      EmptyAtRest(g, Idled(g, k));
    case Flush =>
      FlushedIsEmpty(g, k);
      EmptyAtRest(g, Flushed(g, k));
  }

  // ---------------------------------------------------------------------------
  // A wrapped count stays wrapped
  // ---------------------------------------------------------------------------

  predicate Lost(list: seq<nat>) { |list| > MAX_UINT16 }

  lemma BatchLeavesLost(list: seq<nat>, batch: nat)
    requires Lost(list)
    ensures Lost(OneBatch(list, batch))
  {
  }

  lemma {:induction false} RoundRobinLeavesLost(lists: seq<seq<nat>>, cursor: nat, limit: nat, batch: nat,
                                                counted: bool, n: nat, c: nat)
    requires |lists| == NUM_CLASSES && cursor < NUM_CLASSES && c < NUM_CLASSES && Lost(lists[c])
    ensures Lost(RoundRobin(lists, cursor, limit, batch, counted, n).0[c])
    decreases n
  {
    hide Weight, Probe, FirstFrom, OneBatch, Lost;
    if n > 0 && Total(lists) > limit {
      var first := FirstFrom(lists, cursor, counted, 0);
      if first < NUM_CLASSES {
        var x := Probe(cursor, first);
        BatchLeavesLost(lists[c], batch);
        RoundRobinLeavesLost(lists[x := OneBatch(lists[x], batch)], Probe(x, 1), limit, batch, counted, n - 1, c);
      }
    }
  }

  /** No draining that follows a free recovers the blocks, and neither does flushing: what the
      count does not show is left on the list, a multiple of 65536 blocks. */
  lemma LostBlocksStay(g: Config, k: Cache, c: nat)
    requires Shaped(k) && c < NUM_CLASSES && Lost(k.deferred[c])
    ensures Lost(Settled(g, k).deferred[c]) && Lost(Flushed(g, k).deferred[c]) && Lost(Idled(g, k).deferred[c])
    ensures Flushed(g, k).deferred[c] == Rest(k.deferred[c], Wrap(|k.deferred[c]|))
  {
    hide Weight, RoundRobin;
    var batches := NUM_CLASSES * BATCHES_FACTOR;
    RoundRobinLeavesLost(k.deferred, k.lastDeferredDrain, Budget(g), DrainBatch(g), false, batches, c);
    var drained := DeferredDrained(g, k, false);
    RoundRobinLeavesLost(drained.deferred, drained.lastDeferredDrain, Budget(g), DrainBatch(g), false, batches, c);
    AllDrainedLeavesLost(k.deferred, c);
    AllDrainedLeavesLost(AllDrained(k.deferred), c);
  }

  lemma AllDrainedLeavesLost(lists: seq<seq<nat>>, c: nat)
    requires |lists| == NUM_CLASSES && c < NUM_CLASSES && Lost(lists[c])
    ensures Lost(AllDrained(lists)[c])
  {
    WrapIsLess(|lists[c]|);
  }

  lemma WrapIsLess(n: nat)
    requires n > MAX_UINT16
    ensures n - Wrap(n) > MAX_UINT16
  {
  }

  // ---------------------------------------------------------------------------
  // One more request
  // ---------------------------------------------------------------------------

  lemma Longer(g: Config, requests: seq<Request>, request: Request)
    requires AllowedRun(g, requests) && Allowed(g, Run(g, requests), request)
    ensures AllowedRun(g, requests + [request])
    ensures Run(g, requests + [request]) == Step(g, Run(g, requests), request)
  {
    assert (requests + [request])[..|requests|] == requests;
  }

  /** Class 0 has `l` and `d` blocks on its lists, all numbered below `fresh`; the other classes
      have the lists `others`, and nothing deferred. */
  ghost predicate Stage(k: Cache, others: seq<seq<nat>>, l: nat, d: nat, top: nat) {
    && Shaped(k) && |others| == NUM_CLASSES && others[0] == []
    && k.lists == others[0 := k.lists[0]] && k.deferred == NoLists()[0 := k.deferred[0]]
    && |k.lists[0]| == l && |k.deferred[0]| == d
    && (forall b: nat :: b in k.lists[0] || b in k.deferred[0] ==> b < top)
  }

  lemma StageTotals(k: Cache, others: seq<seq<nat>>, l: nat, d: nat, top: nat)
    requires Stage(k, others, l, d, top)
    ensures Total(k.lists) == Total(others) + Times(l, MAX_ALIGN) && Total(k.deferred) == Times(d, MAX_ALIGN)
  {
    SmallestBlocks(0);
    WeightUpdated(others, NUM_CLASSES, 0, k.lists[0]);
    WeightUpdated(NoLists(), NUM_CLASSES, 0, k.deferred[0]);
    WeightOfNothing(NoLists(), NUM_CLASSES);
    NoTimes(BlockSize(0));
  }

  lemma NoTimes(n: nat)
    ensures Times(0, n) == 0
  {
  }

  // ---------------------------------------------------------------------------
  // Requests that disturb nothing else
  // ---------------------------------------------------------------------------

  lemma SettledQuietly(g: Config, k: Cache)
    requires Shaped(k) && Total(k.deferred) <= Budget(g) && Total(k.lists) <= g.maxBytes
    ensures Settled(g, k) == k
  {
    hide Weight, RoundRobin;
    var batches := NUM_CLASSES * BATCHES_FACTOR;
    RoundRobinWithin(k.deferred, k.lastDeferredDrain, Budget(g), DrainBatch(g), false, batches);
    RoundRobinWithin(k.lists, k.lastDrain, g.maxBytes * 9 / 8, DrainChunk(g), true, batches);
  }

  lemma {:induction false} ReversedMembers(list: seq<nat>)
    ensures forall b: nat :: b in Reversed(list) ==> b in list
  {
    if list != [] {
      ReversedMembers(list[1..]);
    }
  }

  lemma PiledMembers(from: seq<nat>, n: nat, onto: seq<nat>)
    ensures forall b: nat :: b in Piled(from, n, onto) ==> b in from || b in onto
    ensures forall b: nat :: b in Rest(from, n) ==> b in from
  {
    ReversedMembers(from[..Min(n, |from|)]);
  }

  lemma TakenMembers(g: Config, k: Cache, c: nat, ptr: nat, route: bool)
    requires Shaped(k) && c < NUM_CLASSES
    ensures var k2 := Relieved(g, TakenIn(k, c, ptr, route), c);
            forall b: nat :: b in k2.lists[c] || b in k2.deferred[c] ==>
              b == ptr || b in k.lists[c] || b in k.deferred[c]
  {
    hide Weight, MaxCount, Wrap, SpillCount, Rest, Piled;
    var k1 := TakenIn(k, c, ptr, route);
    PiledMembers(k1.lists[c], SpillCount(MaxCount(g, c), g.refillBatch), k1.deferred[c]);
  }

  /** A free of class 0 within all limits. */
  lemma StageFree(g: Config, requests: seq<Request>, others: seq<seq<nat>>, l: nat, d: nat, top: nat, route: bool)
    returns (requests': seq<Request>)
    requires AllowedRun(g, requests) && Stage(Run(g, requests), others, l, d, top)
    requires var listed := l + if route then 0 else 1;
             var moved := Moved(MaxCount(g, 0), g.refillBatch, listed, false);
             && l < MAX_UINT16 && Total(others) + Times(listed, MAX_ALIGN) <= g.maxBytes
             && Times(d + moved + (if route then 1 else 0), MAX_ALIGN) <= Budget(g)
    ensures var listed := l + if route then 0 else 1;
            var moved := Moved(MaxCount(g, 0), g.refillBatch, listed, false);
            && AllowedRun(g, requests') && moved <= listed
            && Stage(Run(g, requests'), others, listed - moved, d + moved + (if route then 1 else 0), top + 1)
  {
    hide Weight, MaxCount, Settled, Relieved, TakenIn, Run, AllowedRun, Moved, Times;
    var k := Run(g, requests);
    var listed := l + if route then 0 else 1;
    var moved := Moved(MaxCount(g, 0), g.refillBatch, listed, false);
    var k1 := TakenIn(k, 0, top, route);
    var k2 := Relieved(g, k1, 0);
    MovedIsSome(MaxCount(g, 0), g.refillBatch, listed);
    TakenStage(k, others, l, d, top, route);
    StageTotals(k1, others, listed, d + if route then 1 else 0, top + 1);
    RelievedLengths(g, k, 0, top, route);
    TakenMembers(g, k, 0, top, route);
    assert Stage(k2, others, listed - moved, d + moved + (if route then 1 else 0), top + 1);
    StageTotals(k2, others, listed - moved, d + moved + (if route then 1 else 0), top + 1);
    FewerTimes(listed - moved, listed, MAX_ALIGN);
    SettledQuietly(g, k2);
    requests' := requests + [Free(0, top, route)];
    Longer(g, requests, Free(0, top, route));
  }

  lemma MovedIsSome(maxCount: nat, refillBatch: nat, listed: nat)
    ensures Moved(maxCount, refillBatch, listed, false) <= listed
  {
  }

  lemma FewerTimes(a: nat, b: nat, n: nat)
    requires a <= b
    ensures Times(a, n) <= Times(b, n)
  {
    ProductGrows(a, b, n);
  }

  lemma TakenStage(k: Cache, others: seq<seq<nat>>, l: nat, d: nat, top: nat, route: bool)
    requires Stage(k, others, l, d, top)
    ensures Stage(TakenIn(k, 0, top, route), others, l + (if route then 0 else 1), d + (if route then 1 else 0),
                  top + 1)
  {
  }

  lemma {:induction false} ManyRouted(g: Config, requests: seq<Request>, others: seq<seq<nat>>, l: nat, d: nat,
                                      top: nat, n: nat)
    returns (requests': seq<Request>)
    requires AllowedRun(g, requests) && Stage(Run(g, requests), others, l, d, top)
    requires l <= MaxCount(g, 0) && l < MAX_UINT16 && Total(others) + Times(l, MAX_ALIGN) <= g.maxBytes
    requires Times(d + n, MAX_ALIGN) <= Budget(g)
    ensures AllowedRun(g, requests') && Stage(Run(g, requests'), others, l, d + n, top + n)
    decreases n
  {
    hide Weight, MaxCount, Run, AllowedRun, Stage, Times;
    if n == 0 {
      requests' := requests;
    } else {
      FewerTimes(d + 1, d + n, MAX_ALIGN);
      requests' := StageFree(g, requests, others, l, d, top, true);
      requests' := ManyRouted(g, requests', others, l, d + 1, top + 1, n - 1);
    }
  }

  lemma {:induction false} ManyListed(g: Config, requests: seq<Request>, others: seq<seq<nat>>, l: nat, d: nat,
                                      top: nat, n: nat)
    returns (requests': seq<Request>)
    requires AllowedRun(g, requests) && Stage(Run(g, requests), others, l, d, top)
    requires l + n <= MaxCount(g, 0) && Total(others) + Times(l + n, MAX_ALIGN) <= g.maxBytes
    requires Times(d, MAX_ALIGN) <= Budget(g)
    ensures AllowedRun(g, requests') && Stage(Run(g, requests'), others, l + n, d, top + n)
    decreases n
  {
    hide Weight, MaxCount, Run, AllowedRun, Stage, Times;
    if n == 0 {
      requests' := requests;
    } else {
      FewerTimes(l + 1, l + n, MAX_ALIGN);
      requests' := StageFree(g, requests, others, l, d, top, false);
      requests' := ManyListed(g, requests', others, l + 1, d, top + 1, n - 1);
    }
  }

  /** Frees of a class whose list is too long already: one block in, as many out as spill. */
  lemma {:induction false} ManySpilling(g: Config, requests: seq<Request>, others: seq<seq<nat>>, l: nat, d: nat,
                                        top: nat, n: nat)
    returns (requests': seq<Request>)
    requires AllowedRun(g, requests) && Stage(Run(g, requests), others, l, d, top) && l <= MAX_REFILL
    requires MaxCount(g, 0) + 1 == SpillCount(MaxCount(g, 0), g.refillBatch) <= 2
    requires var loss := if MaxCount(g, 0) == 0 then 0 else n;
             && loss + 1 <= l && Total(others) + Times(l + 1, MAX_ALIGN) <= g.maxBytes
             && Times(d + n + loss, MAX_ALIGN) <= Budget(g)
    ensures var loss := if MaxCount(g, 0) == 0 then 0 else n;
            && AllowedRun(g, requests') && loss <= l
            && Stage(Run(g, requests'), others, l - loss, d + n + loss, top + n)
    decreases n
  {
    hide Weight, MaxCount, Run, AllowedRun, Stage, Times, SpillCount;
    if n == 0 {
      requests' := requests;
    } else {
      var loss := if MaxCount(g, 0) == 0 then 0 else 1;
      FewerTimes(d + 1 + loss, d + n + if loss == 0 then 0 else n, MAX_ALIGN);
      FewerTimes(l + 1 - loss, l + 1, MAX_ALIGN);
      requests' := StageFree(g, requests, others, l, d, top, false);
      requests' := ManySpilling(g, requests', others, l - loss, d + 1 + loss, top + 1, n - 1);
    }
  }

  /** An allocation that finds class 0 empty refills its list from the deferred one. */
  lemma StageRefill(g: Config, requests: seq<Request>, others: seq<seq<nat>>, d: nat, top: nat)
    returns (requests': seq<Request>)
    requires AllowedRun(g, requests) && Stage(Run(g, requests), others, 0, d, top) && 0 < g.refillBatch <= d
    ensures AllowedRun(g, requests') && Stage(Run(g, requests'), others, g.refillBatch - 1, d - g.refillBatch, top)
  {
    hide Weight, MaxCount, Run, AllowedRun, Rest, Piled;
    var k := Run(g, requests);
    RefillStage(g, k, others, d, top);
    requests' := requests + [Allocate(0, [])];
    Longer(g, requests, Allocate(0, []));
  }

  lemma RefillStage(g: Config, k: Cache, others: seq<seq<nat>>, d: nat, top: nat)
    requires Stage(k, others, 0, d, top) && 0 < g.refillBatch <= d
    ensures Stage(Allocated(g, k, 0, []).0, others, g.refillBatch - 1, d - g.refillBatch, top)
  {
    hide Rest, Piled;
    PiledMembers(k.deferred[0], g.refillBatch, k.lists[0]);
    var ready := Refilled(k, 0, RefillTarget(g));
    var list := ready.lists[0];
    assert |list| == g.refillBatch && |ready.deferred[0]| == d - g.refillBatch;
    var after := ready.(lists := ready.lists[0 := list[1..]]);
    assert Allocated(g, k, 0, []).0 == after;
    assert after.lists == others[0 := after.lists[0]];
    forall b: nat | b in list[1..] ensures b < top {
      assert b in list;
    }
  }

  /** A free of another class within all limits. */
  lemma OtherFree(g: Config, requests: seq<Request>, others: seq<seq<nat>>, l: nat, d: nat, top: nat, c: nat, ptr: nat)
    returns (requests': seq<Request>)
    requires AllowedRun(g, requests) && Stage(Run(g, requests), others, l, d, top) && 0 < c < NUM_CLASSES
    requires ptr !in others[c] && |others[c]| < MaxCount(g, c)
    requires Total(others) + Times(l, MAX_ALIGN) + BlockSize(c) <= g.maxBytes && Times(d, MAX_ALIGN) <= Budget(g)
    ensures AllowedRun(g, requests') && Stage(Run(g, requests'), others[c := [ptr] + others[c]], l, d, top)
    ensures Total(others[c := [ptr] + others[c]]) == Total(others) + BlockSize(c)
  {
    hide Weight, MaxCount, Run, AllowedRun, Settled, Times, BlockSize;
    var k := Run(g, requests);
    var others' := others[c := [ptr] + others[c]];
    var k1 := TakenIn(k, c, ptr, false);
    assert k1.lists == others'[0 := k1.lists[0]];
    assert Stage(k1, others', l, d, top);
    StageTotals(k1, others', l, d, top);
    WeightLonger(others, c, ptr);
    Unwrapped(|k1.lists[c]|);
    assert Relieved(g, k1, c) == k1;
    SettledQuietly(g, k1);
    requests' := requests + [Free(c, ptr, false)];
    Longer(g, requests, Free(c, ptr, false));
  }

  /** A fetch of two blocks for another class that has none. */
  lemma OtherFetch(g: Config, requests: seq<Request>, others: seq<seq<nat>>, l: nat, d: nat, top: nat, c: nat)
    returns (requests': seq<Request>)
    requires AllowedRun(g, requests) && Stage(Run(g, requests), others, l, d, top) && 0 < c < NUM_CLASSES
    requires others[c] == [] && g.refillBatch >= 2
    ensures AllowedRun(g, requests') && Stage(Run(g, requests'), others[c := [1]], l, d, top)
    ensures Total(others[c := [1]]) == Total(others) + BlockSize(c)
  {
    hide Weight, MaxCount, Run, AllowedRun, Times, BlockSize;
    var k := Run(g, requests);
    var others' := others[c := [1]];
    assert k.lists[c] == [] && k.deferred[c] == [];
    assert Refilled(k, c, RefillTarget(g)) == k by { NothingToRefill(k, c, RefillTarget(g)); }
    assert [0, 1][1..] == [1];
    assert Reversed([1]) == [1] by { assert [1][1..] == []; }
    assert Allocated(g, k, c, [0, 1]).0 == k.(lists := k.lists[c := [1]]);
    assert k.lists[c := [1]] == others'[0 := k.lists[0]];
    WeightLonger(others, c, 1);
    assert [1] + others[c] == [1];
    requests' := requests + [Allocate(c, [0, 1])];
    Longer(g, requests, Allocate(c, [0, 1]));
  }

  lemma NothingToRefill(k: Cache, c: nat, n: nat)
    requires Shaped(k) && c < NUM_CLASSES && k.lists[c] == [] && k.deferred[c] == []
    ensures Refilled(k, c, n) == k
  {
    assert Piled([], n, []) == [];
    assert k.lists[c := []] == k.lists && k.deferred[c := []] == k.deferred;
  }

  /** The free that makes the deferred list too long for its count. */
  lemma LosingFree(g: Config, requests: seq<Request>, others: seq<seq<nat>>, l: nat, d: nat, top: nat, route: bool,
                   over: bool)
    returns (requests': seq<Request>)
    requires AllowedRun(g, requests) && Stage(Run(g, requests), others, l, d, top) && l < MAX_UINT16
    requires over ==> Total(others) + Times(l, MAX_ALIGN) > g.maxBytes
    requires var listed := l + if route then 0 else 1;
             d + Moved(MaxCount(g, 0), g.refillBatch, listed, over) + (if route then 1 else 0) > MAX_UINT16
    ensures AllowedRun(g, requests') && Lost(Run(g, requests').deferred[0])
  {
    hide Weight, MaxCount, Settled, Relieved, TakenIn, Run, AllowedRun, Times, Flushed, Idled;
    var k := Run(g, requests);
    var listed := l + if route then 0 else 1;
    var k1 := TakenIn(k, 0, top, route);
    TakenStage(k, others, l, d, top, route);
    StageTotals(k1, others, listed, d + if route then 1 else 0, top + 1);
    FewerTimes(l, listed, MAX_ALIGN);
    RelievedLengths(g, k, 0, top, route);
    LostBlocksStay(g, Relieved(g, k1, 0), 0);
    requests' := requests + [Free(0, top, route)];
    Longer(g, requests, Free(0, top, route));
  }

  // ---------------------------------------------------------------------------
  // Where the counts do not fit
  // ---------------------------------------------------------------------------

  lemma Beginning(g: Config)
    ensures AllowedRun(g, []) && Stage(Run(g, []), NoLists(), 0, 0, 0) && Total(NoLists()) == 0
    ensures Times(0, MAX_ALIGN) == 0 && Times(Admitted(g), MAX_ALIGN) <= Budget(g)
  {
    WeightOfNothing(NoLists(), NUM_CLASSES);
    QuotientBounds(Budget(g), MAX_ALIGN);
  }

  /** What a configuration is like whose counts do not fit although the budget alone admits no
      more blocks than can be counted. */
  lemma NearlyFits(g: Config)
    requires !CountsFit(g) && g.refillBatch <= MAX_REFILL && Admitted(g) < MAX_UINT16
    ensures 2088960 <= g.maxBytes <= 2097119 && Admitted(g) >= 65280 && MaxCount(g, 0) <= 2340
    ensures MaxCount(g, 0) >= 2 ==> forall c: nat :: c < NUM_CLASSES ==> MaxCount(g, c) >= 2
    ensures Times(MaxCount(g, 0), MAX_ALIGN) <= g.maxBytes
  {
    hide MaxCount;
    QuotientBounds(Budget(g), MAX_ALIGN);
    assert Gain(MaxCount(g, 0), g.refillBatch) <= 256;
    SmallestMaximum(g);
    if MaxCount(g, 0) >= 2 {
      MaximaOfTwo(g);
    }
  }

  lemma SmallestMaximum(g: Config)
    requires g.maxBytes <= 2097119
    ensures MaxCount(g, 0) <= 2340
  {
    SmallestBlocks(0);
  }

  lemma MaximaOfTwo(g: Config)
    requires MaxCount(g, 0) >= 2
    ensures forall c: nat :: c < NUM_CLASSES ==> MaxCount(g, c) >= 2
  {
  }

  /** All blocks freed within the budget are routed past the list; so is one more. */
  lemma LosingByRoute(g: Config) returns (requests: seq<Request>)
    requires Admitted(g) >= MAX_UINT16
    ensures AllowedRun(g, requests) && Lost(Run(g, requests).deferred[0])
  {
    hide Weight, MaxCount, Run, AllowedRun, Stage, Times;
    Beginning(g);
    FewerTimes(MAX_UINT16, Admitted(g), MAX_ALIGN);
    requests := ManyRouted(g, [], NoLists(), 0, 0, 0, MAX_UINT16);
    requests := LosingFree(g, requests, NoLists(), 0, MAX_UINT16, MAX_UINT16, true, false);
  }

  /** A list as long as its maximum takes one block more and spills two. */
  lemma LosingBySpill(g: Config) returns (requests: seq<Request>)
    requires !CountsFit(g) && g.refillBatch <= MAX_REFILL && Admitted(g) < MAX_UINT16
    requires MaxCount(g, 0) >= 1 && (g.refillBatch <= 1 || (MaxCount(g, 0) == 1 && g.refillBatch <= 5))
    ensures AllowedRun(g, requests) && Lost(Run(g, requests).deferred[0])
  {
    hide Weight, MaxCount, Run, AllowedRun, Stage, Times;
    var m, n := MaxCount(g, 0), Admitted(g);
    Beginning(g);
    NearlyFits(g);
    requests := ManyListed(g, [], NoLists(), 0, 0, 0, m);
    requests := ManyRouted(g, requests, NoLists(), m, 0, m, n);
    requests := LosingFree(g, requests, NoLists(), m, n, m + n, false, false);
  }

  /** The largest classes, two blocks freed in each, and two fetches put the lists above the
      maximum; then even a routed free spills. */
  lemma LosingByBytes(g: Config) returns (requests: seq<Request>)
    requires !CountsFit(g) && g.refillBatch <= MAX_REFILL && Admitted(g) < MAX_UINT16
    requires MaxCount(g, 0) >= 2 && g.refillBatch >= 2
    ensures AllowedRun(g, requests) && Lost(Run(g, requests).deferred[0])
  {
    hide Weight, MaxCount, Run, AllowedRun, Stage, Times, BlockSize;
    var spill, n := SpillCount(MaxCount(g, 0), g.refillBatch), Admitted(g);
    Beginning(g);
    NearlyFits(g);
    SpillFits(g);
    var others;
    requests, others := ManyLarge(g);
    requests := ManyListed(g, requests, others, 0, 0, 0, spill);
    requests := ManyRouted(g, requests, others, spill, 0, spill, n);
    LargestBlocks();
    requests := OtherFetch(g, requests, others, spill, n, spill + n, 50);
    others := others[50 := [1]];
    requests := OtherFetch(g, requests, others, spill, n, spill + n, 49);
    others := others[49 := [1]];
    requests := LosingFree(g, requests, others, spill, n, spill + n, true, true);
  }

  lemma SpillFits(g: Config)
    requires MaxCount(g, 0) >= 2 && g.refillBatch <= MAX_REFILL
    ensures SpillCount(MaxCount(g, 0), g.refillBatch) <= MaxCount(g, 0)
    ensures SpillCount(MaxCount(g, 0), g.refillBatch) <= MAX_REFILL
    ensures Times(SpillCount(MaxCount(g, 0), g.refillBatch), MAX_ALIGN) <= 4080
  {
  }

  /** Two blocks freed in each of the five largest classes. */
  lemma ManyLarge(g: Config) returns (requests: seq<Request>, others: seq<seq<nat>>)
    requires 2088960 <= g.maxBytes && forall c: nat :: c < NUM_CLASSES ==> MaxCount(g, c) >= 2
    ensures |others| == NUM_CLASSES && others[49] == others[50] == [] && Total(others) == 1966080
    ensures AllowedRun(g, requests) && Stage(Run(g, requests), others, 0, 0, 0)
  {
    hide Weight, MaxCount, Run, AllowedRun, Stage, Times, BlockSize;
    Beginning(g);
    LargestBlocks();
    requests, others := [], NoLists();
    requests, others := TwoFreed(g, requests, others, 51);
    requests, others := TwoFreed(g, requests, others, 52);
    requests, others := TwoFreed(g, requests, others, 53);
    requests, others := TwoFreed(g, requests, others, 54);
    requests, others := TwoFreed(g, requests, others, 55);
  }

  lemma TwoFreed(g: Config, requests: seq<Request>, others: seq<seq<nat>>, c: nat)
    returns (requests': seq<Request>, others': seq<seq<nat>>)
    requires AllowedRun(g, requests) && Stage(Run(g, requests), others, 0, 0, 0) && 0 < c < NUM_CLASSES
    requires |others| == NUM_CLASSES && others[c] == [] && MaxCount(g, c) >= 2
    requires Total(others) + 2 * BlockSize(c) <= g.maxBytes
    ensures others' == others[c := [1, 0]] && Total(others') == Total(others) + 2 * BlockSize(c)
    ensures AllowedRun(g, requests') && Stage(Run(g, requests'), others', 0, 0, 0)
  {
    hide Weight, MaxCount, Run, AllowedRun, Stage, BlockSize;
    requests' := OtherFree(g, requests, others, 0, 0, 0, c, 0);
    assert [0] + others[c] == [0];
    others' := others[c := [0]];
    requests' := OtherFree(g, requests', others', 0, 0, 0, c, 1);
    assert [1] + others'[c] == [1, 0];
    others' := others[c := [1, 0]];
    assert others[c := [0]][c := [1, 0]] == others';
  }

  /** A refill makes the list longer than its maximum; frees give what it took back to the
      deferred list, and the last one finds two blocks to spill. */
  lemma LosingByRefill(g: Config) returns (requests: seq<Request>)
    requires !CountsFit(g) && g.refillBatch <= MAX_REFILL && Admitted(g) < MAX_UINT16
    requires (MaxCount(g, 0) == 0 && g.refillBatch >= 2) || (MaxCount(g, 0) == 1 && g.refillBatch >= 6)
    ensures AllowedRun(g, requests) && Lost(Run(g, requests).deferred[0])
  {
    hide Weight, MaxCount, Run, AllowedRun, Stage, Times;
    var m, n, r := MaxCount(g, 0), Admitted(g), g.refillBatch;
    var spare, frees, left := if m == 0 then 0 else r - 6, if m == 0 then r else r - 3, if m == 0 then r - 1 else 2;
    Beginning(g);
    NearlyFits(g);
    FewerTimes(n - spare, n, MAX_ALIGN);
    requests := ManyRouted(g, [], NoLists(), 0, 0, 0, n - spare);
    requests := StageRefill(g, requests, NoLists(), n - spare, n - spare);
    RefilledBytes(r);
    requests := ManySpilling(g, requests, NoLists(), r - 1, n - spare - r, n - spare, frees);
    requests := LosingFree(g, requests, NoLists(), left, n, n - spare + frees, true, false);
  }

  lemma RefilledBytes(n: nat)
    requires n <= MAX_REFILL
    ensures Times(n, MAX_ALIGN) <= 4080
  {
  }

  /** Some run makes a deferred list too long for its count. */
  lemma LossyRun(g: Config) returns (requests: seq<Request>)
    requires !CountsFit(g) && (g.refillBatch <= MAX_REFILL || Admitted(g) >= MAX_UINT16)
    ensures AllowedRun(g, requests) && Lost(Run(g, requests).deferred[0])
  {
    hide Weight, MaxCount, Run, AllowedRun;
    if Admitted(g) >= MAX_UINT16 {
      requests := LosingByRoute(g);
    } else if MaxCount(g, 0) >= 2 && g.refillBatch >= 2 {
      requests := LosingByBytes(g);
    } else if MaxCount(g, 0) >= 1 && g.refillBatch <= 5 {
      requests := LosingBySpill(g);
    } else {
      requests := LosingByRefill(g);
    }
  }

  /** After every run every recorded count is the length of its list, if and only if the blocks
      the budget admits and those one free adds can be counted in 16 bits. */
  lemma CountsStayExactExactlyIfTheyFit(g: Config)
    requires g.refillBatch <= MAX_REFILL || Admitted(g) >= MAX_UINT16
    ensures CountsStayExact(g) <==> CountsFit(g)
  {
    hide CountsFit, Run, AllowedRun, AtRest;
    if CountsFit(g) {
      FitsAdmitsLess(g);
      forall requests: seq<Request> | AllowedRun(g, requests) ensures Exact(Run(g, requests)) {
        EveryRunIsAtRest(g, requests);
      }
    } else {
      var requests := LossyRun(g);
      assert !Exact(Run(g, requests));
    }
  }

  /** Flushing gives every block back after every run, under the same condition. */
  lemma FlushEmptiesExactlyIfCountsFit(g: Config)
    requires g.refillBatch <= MAX_REFILL || Admitted(g) >= MAX_UINT16
    ensures FlushEmpties(g) <==> CountsFit(g)
  {
    hide CountsFit, Run, AllowedRun, AtRest, Exact, Flushed;
    if CountsFit(g) {
      FitsAdmitsLess(g);
      forall requests: seq<Request> | AllowedRun(g, requests)
        ensures Flushed(g, Run(g, requests)).lists == Flushed(g, Run(g, requests)).deferred == NoLists()
      {
        EveryRunIsAtRest(g, requests);
        FlushedIsEmpty(g, Run(g, requests));
      }
    } else {
      var requests := LossyRun(g);
      LostBlocksStay(g, Run(g, requests), 0);
      assert Flushed(g, Run(g, requests)).deferred != NoLists();
    }
  }

  lemma FitsAdmitsLess(g: Config)
    requires CountsFit(g)
    ensures Admitted(g) < MAX_UINT16
  {
  }
}
