/** The cache of released dedicated regions: a fixed table of buckets, each holding regions of
    one size, found by probing from an arbitrary hash of the size. */
module RegionCaches {
  import opened Numbers
  import opened Options

  const BUCKETS: nat := 64
  const BUCKET_CAPACITY: nat := 64
  const MAX_PROBE: nat := 4

  /** A region of virtual memory; `base` tells regions apart. */
  datatype Region = Region(base: nat, size: nat)

  /** The last region in the list is the next one out. */
  datatype Bucket = Bucket(key: nat, regions: seq<Region>)

  function Slot(hash: nat -> nat, size: nat, probe: nat): (b: nat)
    ensures b < BUCKETS
  {
    (hash(size) + probe) % BUCKETS
  }

  /** Probing begins where the hash says and goes on bucket by bucket, around. */
  lemma SlotsFollow(hash: nat -> nat, size: nat, probe: nat)
    ensures Slot(hash, size, 0) == hash(size) % BUCKETS
    ensures Slot(hash, size, probe + 1) == var b := Slot(hash, size, probe); if b == BUCKETS - 1 then 0 else b + 1
  {
  }

  // ---------------------------------------------------------------------------
  // What is cached
  // ---------------------------------------------------------------------------

  ghost function Cached(buckets: seq<Bucket>, n: nat): multiset<Region>
    requires n <= |buckets|
  {
    if n == 0 then multiset{} else Cached(buckets, n - 1) + multiset(buckets[n - 1].regions)
  }

  function Bytes(buckets: seq<Bucket>, n: nat): nat
    requires n <= |buckets|
  {
    if n == 0 then 0 else Bytes(buckets, n - 1) + Times(|buckets[n - 1].regions|, buckets[n - 1].key)
  }

  lemma {:induction false} Elsewhere(buckets: seq<Bucket>, buckets': seq<Bucket>, n: nat)
    requires n <= |buckets| == |buckets'| && forall b: nat :: b < n ==> buckets'[b] == buckets[b]
    ensures Cached(buckets', n) == Cached(buckets, n) && Bytes(buckets', n) == Bytes(buckets, n)
  {
    if n > 0 {
      Elsewhere(buckets, buckets', n - 1);
    }
  }

  lemma BothSides(a: multiset<Region>, b: multiset<Region>, c: multiset<Region>, d: multiset<Region>,
                  more: multiset<Region>)
    requires a + b == c + d
    ensures (a + more) + b == (c + more) + d
  {
    forall r: Region ensures ((a + more) + b)[r] == ((c + more) + d)[r] {
      assert (a + b)[r] == (c + d)[r];
    }
  }

  lemma {:induction false} CachedUpdated(buckets: seq<Bucket>, n: nat, b: nat, bucket: Bucket)
    requires b < n <= |buckets|
    ensures Cached(buckets[b := bucket], n) + multiset(buckets[b].regions)
            == Cached(buckets, n) + multiset(bucket.regions)
  {
    hide Bytes;
    if b == n - 1 {
      Elsewhere(buckets, buckets[b := bucket], b);
    } else {
      CachedUpdated(buckets, n - 1, b, bucket);
      BothSides(Cached(buckets[b := bucket], n - 1), multiset(buckets[b].regions), Cached(buckets, n - 1),
                multiset(bucket.regions), multiset(buckets[n - 1].regions));
    }
  }

  lemma {:induction false} BytesUpdated(buckets: seq<Bucket>, n: nat, b: nat, bucket: Bucket)
    requires b < n <= |buckets|
    ensures Bytes(buckets[b := bucket], n) + Times(|buckets[b].regions|, buckets[b].key)
            == Bytes(buckets, n) + Times(|bucket.regions|, bucket.key)
  {
    hide Times, Cached;
    if b == n - 1 {
      Elsewhere(buckets, buckets[b := bucket], b);
    } else {
      BytesUpdated(buckets, n - 1, b, bucket);
    }
  }

  lemma {:induction false} CachedMember(buckets: seq<Bucket>, n: nat, r: Region)
    requires n <= |buckets|
    ensures r in Cached(buckets, n) <==> exists b: nat :: b < n && r in buckets[b].regions
  {
    if n > 0 {
      CachedMember(buckets, n - 1, r);
      assert r in multiset(buckets[n - 1].regions) <==> r in buckets[n - 1].regions;
    }
  }

  // ---------------------------------------------------------------------------
  // The invariant
  // ---------------------------------------------------------------------------

  /** Every bucket that holds regions is reached by probing for their size. */
  ghost predicate Reached(hash: nat -> nat, buckets: seq<Bucket>, b: nat)
    requires |buckets| == BUCKETS && b < BUCKETS
  {
    exists probe: nat :: probe < MAX_PROBE && Slot(hash, buckets[b].key, probe) == b
      && PathOpen(hash, buckets, buckets[b].key, probe)
  }

  /** No bucket that is probed before has never been used. */
  ghost predicate PathOpen(hash: nat -> nat, buckets: seq<Bucket>, size: nat, probe: nat)
    requires |buckets| == BUCKETS
  {
    forall p: nat :: p < probe ==> buckets[Slot(hash, size, p)].key != 0
  }

  ghost predicate BucketOk(bucket: Bucket, limit: nat) {
    && |bucket.regions| <= Min(BUCKET_CAPACITY, limit)
    && forall r :: r in bucket.regions ==> r.size == bucket.key && r.size > 0
  }

  ghost predicate TableOk(hash: nat -> nat, buckets: seq<Bucket>, limit: nat) {
    && |buckets| == BUCKETS
    && (forall b: nat :: b < BUCKETS ==> BucketOk(buckets[b], limit))
    && (forall b: nat :: b < BUCKETS && buckets[b].regions != [] ==> Reached(hash, buckets, b))
  }

  /** An unused bucket's key may be replaced by any other size. */
  lemma RekeyKeepsTable(hash: nat -> nat, buckets: seq<Bucket>, limit: nat, b: nat, size: nat)
    requires TableOk(hash, buckets, limit) && b < BUCKETS && buckets[b].regions == [] && size > 0
    ensures TableOk(hash, buckets[b := Bucket(size, [])], limit)
  {
    var buckets' := buckets[b := Bucket(size, [])];
    forall c: nat | c < BUCKETS && buckets'[c].regions != [] ensures Reached(hash, buckets', c) {
      StillReached(hash, buckets, buckets', c);
    }
  }

  lemma StillReached(hash: nat -> nat, buckets: seq<Bucket>, buckets': seq<Bucket>, b: nat)
    requires |buckets| == |buckets'| == BUCKETS && b < BUCKETS && Reached(hash, buckets, b)
    requires buckets'[b].key == buckets[b].key
    requires forall c: nat :: c < BUCKETS && buckets[c].key != 0 ==> buckets'[c].key != 0
    ensures Reached(hash, buckets', b)
  {
    var probe: nat :| probe < MAX_PROBE && Slot(hash, buckets[b].key, probe) == b
      && PathOpen(hash, buckets, buckets[b].key, probe);
    assert PathOpen(hash, buckets', buckets'[b].key, probe);
  }

  /** Taking out or putting in one region of the bucket's size. */
  lemma RefillKeepsTable(hash: nat -> nat, buckets: seq<Bucket>, limit: nat, b: nat, regions: seq<Region>)
    requires TableOk(hash, buckets, limit) && b < BUCKETS && BucketOk(Bucket(buckets[b].key, regions), limit)
    requires regions != [] ==> Reached(hash, buckets, b)
    ensures TableOk(hash, buckets[b := Bucket(buckets[b].key, regions)], limit)
  {
    var buckets' := buckets[b := Bucket(buckets[b].key, regions)];
    forall c: nat | c < BUCKETS && buckets'[c].regions != [] ensures Reached(hash, buckets', c) {
      StillReached(hash, buckets, buckets', c);
    }
  }

  ghost predicate RekeyIsSafe(size: nat) {
    forall hash: nat -> nat, buckets: seq<Bucket>, limit: nat, b: nat ::
      TableOk(hash, buckets, limit) && b < BUCKETS && buckets[b].regions == []
      ==> TableOk(hash, buckets[b := Bucket(size, [])], limit)
  }

  /** A request may take over an unused bucket exactly because it is never for nothing: a size
      of 0 would mark the bucket as never used, and hide what lies behind it. */
  lemma RekeyIsSafeExactlyForSizes(size: nat)
    ensures RekeyIsSafe(size) <==> size > 0
  {
    if size > 0 {
      forall hash: nat -> nat, buckets: seq<Bucket>, limit: nat, b: nat
        | TableOk(hash, buckets, limit) && b < BUCKETS && buckets[b].regions == []
        ensures TableOk(hash, buckets[b := Bucket(size, [])], limit)
      {
        RekeyKeepsTable(hash, buckets, limit, b, size);
      }
    } else {
      ZeroRequestHides();
    }
  }

  lemma ZeroRequestHides()
    ensures !RekeyIsSafe(0)
  {
    var hash: nat -> nat := (size: nat) => 0;
    var buckets := seq(BUCKETS, b =>
      if b == 0 then Bucket(1, []) else if b == 1 then Bucket(2, [Region(7, 2)]) else Bucket(0, []));
    assert buckets[1].key == 2 && Slot(hash, buckets[1].key, 1) == 1;
    assert PathOpen(hash, buckets, buckets[1].key, 1);
    assert Reached(hash, buckets, 1);
    assert TableOk(hash, buckets, 1);
    var after := buckets[0 := Bucket(0, [])];
    assert after[Slot(hash, 2, 0)].key == 0;
    assert forall probe: nat :: probe > 0 ==> !PathOpen(hash, after, 2, probe);
    assert Slot(hash, 2, 0) == 0 && after[1].key == 2;
    assert !Reached(hash, after, 1);
    assert after[1].regions != [];
    assert !TableOk(hash, after, 1) && buckets[0].regions == [];
  }

  /** The first bucket probed that is free for the size, if any. */
  ghost function FirstFit(hash: nat -> nat, buckets: seq<Bucket>, size: nat, probe: nat): (first: nat)
    requires |buckets| == BUCKETS
    ensures first >= probe && (probe <= MAX_PROBE ==> first <= MAX_PROBE)
    ensures first < MAX_PROBE ==> var b := buckets[Slot(hash, size, first)]; b.regions == [] || b.key == size
    ensures forall p: nat :: probe <= p < first ==>
              var b := buckets[Slot(hash, size, p)]; b.regions != [] && b.key != size
    decreases MAX_PROBE - probe
  {
    if probe >= MAX_PROBE then probe
    else
      var bucket := buckets[Slot(hash, size, probe)];
      if bucket.regions == [] || bucket.key == size then probe else FirstFit(hash, buckets, size, probe + 1)
  }

  /** A search for the size goes on past this bucket: it has been used, and holds no region of it. */
  predicate Passed(bucket: Bucket, size: nat) {
    bucket.key != 0 && !(bucket.key == size && bucket.regions != [])
  }

  /** A bucket that was used, but holds nothing, is given the size searched for. */
  function Claimed(bucket: Bucket, size: nat): Bucket {
    if bucket.regions == [] then Bucket(size, []) else bucket
  }

  ghost predicate ProbedWithin(hash: nat -> nat, size: nat, probes: nat, b: nat) {
    exists p: nat :: p < probes && Slot(hash, size, p) == b
  }

  /** Different probes look at different buckets. */
  lemma NotProbedYet(hash: nat -> nat, size: nat, probe: nat)
    requires probe < MAX_PROBE
    ensures !ProbedWithin(hash, size, probe, Slot(hash, size, probe))
    ensures forall b: nat :: ProbedWithin(hash, size, probe + 1, b)
              <==> ProbedWithin(hash, size, probe, b) || b == Slot(hash, size, probe)
  {
    forall p: nat | p < probe ensures Slot(hash, size, p) != Slot(hash, size, probe) {
      var a, b := hash(size) + p, hash(size) + probe;
      assert a == a / BUCKETS * BUCKETS + a % BUCKETS && b == b / BUCKETS * BUCKETS + b % BUCKETS;
    }
    hide Slot;
    forall b: nat
      ensures ProbedWithin(hash, size, probe + 1, b)
              <==> ProbedWithin(hash, size, probe, b) || b == Slot(hash, size, probe)
    {
      if b == Slot(hash, size, probe) {
        assert probe < probe + 1;
      }
    }
  }

  class RegionCache {
    const hash: nat -> nat
    const limitBytes: nat
    const maxEntries: nat
    var buckets: seq<Bucket>
    var bytes: nat

    ghost predicate Valid()
      reads this
    {
      TableOk(hash, buckets, maxEntries) && bytes == Bytes(buckets, BUCKETS) <= limitBytes
    }

    constructor (hash: nat -> nat, limitBytes: nat, maxEntries: nat)
      ensures Valid() && Cached(buckets, BUCKETS) == multiset{}
    {
      this.hash, this.limitBytes, this.maxEntries := hash, limitBytes, maxEntries;
      buckets := seq(BUCKETS, b => Bucket(0, []));
      bytes := 0;
      new;
      EmptyTable(this.hash, buckets, this.maxEntries);

    }

    /** Gives an unused bucket another size. */
    method Rekey(b: nat, size: nat)
      requires Valid() && b < BUCKETS && buckets[b].regions == [] && size > 0
      modifies `buckets
      ensures Valid() && buckets == old(buckets)[b := Bucket(size, [])]
      ensures Cached(buckets, BUCKETS) == old(Cached(buckets, BUCKETS))
    {
      hide TableOk, Cached, Bytes;
      TableSize(hash, buckets, maxEntries);
      RekeyKeepsTable(hash, buckets, maxEntries, b, size);
      CachedUpdated(buckets, BUCKETS, b, Bucket(size, []));
      BytesUpdated(buckets, BUCKETS, b, Bucket(size, []));
      SameWithNothing(Cached(buckets, BUCKETS), Cached(buckets[b := Bucket(size, [])], BUCKETS), buckets[b].regions);
      buckets := buckets[b := Bucket(size, [])];
    }

    /** A cached region of the size, if there is one anywhere: the last of the first bucket probed
        that has one. Unused buckets probed on the way are given this size; `probes` counts those
        that were passed, and no other bucket changes. */
    method Acquire(size: nat) returns (region: Option<Region>, ghost probes: nat)
      requires Valid() && size > 0
      modifies this
      ensures Valid()
      ensures region.Some? <==> exists r :: r in old(Cached(buckets, BUCKETS)) && r.size == size
      ensures region.Some? ==> region.value.size == size && region.value in old(Cached(buckets, BUCKETS))
      ensures Cached(buckets, BUCKETS)
              == old(Cached(buckets, BUCKETS)) - if region.Some? then multiset{region.value} else multiset{}
      ensures |buckets| == |old(buckets)| == BUCKETS && probes <= MAX_PROBE
      ensures forall p: nat :: p < probes ==> Passed(old(buckets)[Slot(hash, size, p)], size)
      ensures probes < MAX_PROBE ==> !Passed(old(buckets)[Slot(hash, size, probes)], size)
      ensures forall b: nat :: b < BUCKETS ==>
                if ProbedWithin(hash, size, probes, b) then buckets[b] == Claimed(old(buckets)[b], size)
                else if region.Some? && b == Slot(hash, size, probes) then
                  buckets[b].key == size && buckets[b].regions + [region.value] == old(buckets)[b].regions
                else buckets[b] == old(buckets)[b]
    {
      hide TableOk, Cached, Bytes, BucketOk, Slot;
      var probe: nat := 0;
      TableSize(hash, buckets, maxEntries);
      while probe < MAX_PROBE
        invariant probe <= MAX_PROBE && Valid() && |buckets| == BUCKETS
        invariant Cached(buckets, BUCKETS) == old(Cached(buckets, BUCKETS))
        invariant forall p: nat :: p < probe && buckets[Slot(hash, size, p)].key == size ==>
                    buckets[Slot(hash, size, p)].regions == []
        invariant |old(buckets)| == BUCKETS
        invariant forall p: nat :: p < probe ==> Passed(old(buckets)[Slot(hash, size, p)], size)
        invariant forall b: nat :: b < BUCKETS ==>
                    buckets[b] == if ProbedWithin(hash, size, probe, b) then Claimed(old(buckets)[b], size)
                                  else old(buckets)[b]
      {
        var b := Slot(hash, size, probe);
        NotProbedYet(hash, size, probe);
        if buckets[b].regions == [] && buckets[b].key != 0 && buckets[b].key != size {
          Rekey(b, size);
        }
        if buckets[b].key == size && buckets[b].regions != [] {
          var r := TakeLast(b);
          return Some(r), probe;
        }
        if buckets[b].key == 0 {
          break;
        }
        probe := probe + 1;
      }
      NotCached(hash, buckets, maxEntries, size, probe);
      return None, probe;
    }

    method TakeLast(b: nat) returns (r: Region)
      requires Valid() && b < |buckets| == BUCKETS && buckets[b].regions != []
      modifies this
      ensures Valid() && r.size == old(buckets)[b].key && r in old(Cached(buckets, BUCKETS))
      ensures var regions := old(buckets)[b].regions;
              r == regions[|regions| - 1]
              && buckets == old(buckets)[b := Bucket(old(buckets)[b].key, regions[..|regions| - 1])]
      ensures Cached(buckets, BUCKETS) == old(Cached(buckets, BUCKETS)) - multiset{r}
    {
      hide TableOk, Cached, Bytes, BucketOk, Reached;
      var regions := buckets[b].regions;
      r := regions[|regions| - 1];
      var rest := Bucket(buckets[b].key, regions[..|regions| - 1]);
      LastTaken(hash, buckets, maxEntries, b);
      CachedUpdated(buckets, BUCKETS, b, rest);
      BytesUpdated(buckets, BUCKETS, b, rest);
      RegionsLess(Cached(buckets, BUCKETS), Cached(buckets[b := rest], BUCKETS), regions);
      CachedMember(buckets, BUCKETS, r);
      buckets := buckets[b := rest];
      bytes := bytes - r.size;
    }

    /** Keeps a region for later if its bucket and the byte limit allow; otherwise it goes back
        to the operating system. */
    method Release(region: Region) returns (kept: bool)
      requires Valid() && region.size > 0
      modifies this
      ensures Valid()
      ensures Cached(buckets, BUCKETS) == old(Cached(buckets, BUCKETS)) + if kept then multiset{region} else multiset{}
      ensures bytes == old(bytes) + if kept then region.size else 0
      ensures kept <==> var probe := FirstFit(hash, old(buckets), region.size, 0);
                        && probe < MAX_PROBE && old(bytes) + region.size <= limitBytes
                        && |old(buckets)[Slot(hash, region.size, probe)].regions| < Min(BUCKET_CAPACITY, maxEntries)
      ensures var probe := FirstFit(hash, old(buckets), region.size, 0);
              if probe >= MAX_PROBE then buckets == old(buckets)
              else
                var b := Slot(hash, region.size, probe);
                var more := if kept then [region] else [];
                buckets == old(buckets)[b := Bucket(region.size, old(buckets)[b].regions + more)]
    {
      hide TableOk, Cached, Bytes, BucketOk, Reached;
      var probe: nat := 0;
      TableSize(hash, buckets, maxEntries);
      while probe < MAX_PROBE
        invariant probe <= MAX_PROBE && Valid() && |buckets| == BUCKETS && bytes == old(bytes)
        invariant buckets == old(buckets)
        invariant FirstFit(hash, buckets, region.size, 0) == FirstFit(hash, buckets, region.size, probe)
        invariant PathOpen(hash, buckets, region.size, probe)
      {
        var b := Slot(hash, region.size, probe);
        if buckets[b].regions == [] && buckets[b].key != 0 && buckets[b].key != region.size {
          Rekey(b, region.size);
        }
        if buckets[b].key != 0 && buckets[b].key != region.size {
          probe := probe + 1;
          continue;
        }
        UnusedIsEmpty(hash, buckets, maxEntries, b);
        if buckets[b].key == 0 {
          Rekey(b, region.size);
        }
        assert old(buckets)[b].regions + [] == old(buckets)[b].regions;
        assert buckets == old(buckets)[b := Bucket(region.size, old(buckets)[b].regions)];
        if |buckets[b].regions| >= Min(BUCKET_CAPACITY, maxEntries) {
          break;
        }
        if bytes + region.size > limitBytes {
          break;
        }
        PutLast(b, region, probe);
        return true;
      }
      return false;
    }

    method PutLast(b: nat, region: Region, ghost probe: nat)
      requires Valid() && b < |buckets| == BUCKETS && buckets[b].key == region.size > 0
      requires |buckets[b].regions| < Min(BUCKET_CAPACITY, maxEntries) && bytes + region.size <= limitBytes
      requires probe < MAX_PROBE && b == Slot(hash, region.size, probe) && PathOpen(hash, buckets, region.size, probe)
      modifies this
      ensures Valid() && bytes == old(bytes) + region.size
      ensures buckets == old(buckets)[b := Bucket(region.size, old(buckets)[b].regions + [region])]
      ensures Cached(buckets, BUCKETS) == old(Cached(buckets, BUCKETS)) + multiset{region}
    {
      hide TableOk, Cached, Bytes, PathOpen, BucketOk;
      var more := Bucket(buckets[b].key, buckets[b].regions + [region]);
      assert Reached(hash, buckets, b);
      LastPut(hash, buckets, maxEntries, b, region);
      CachedUpdated(buckets, BUCKETS, b, more);
      BytesUpdated(buckets, BUCKETS, b, more);
      RegionsMore(Cached(buckets, BUCKETS), Cached(buckets[b := more], BUCKETS), buckets[b].regions, region);
      buckets := buckets[b := more];
      bytes := bytes + region.size;
    }
  }

  lemma TableSize(hash: nat -> nat, buckets: seq<Bucket>, limit: nat)
    requires TableOk(hash, buckets, limit)
    ensures |buckets| == BUCKETS
  {
  }

  lemma {:induction false} NothingCached(buckets: seq<Bucket>, n: nat)
    requires n <= |buckets| && forall b: nat :: b < n ==> buckets[b].regions == []
    ensures Cached(buckets, n) == multiset{} && Bytes(buckets, n) == 0
  {
    if n > 0 {
      NothingCached(buckets, n - 1);
    }
  }

  lemma FirstIsMember(regions: seq<Region>)
    requires regions != []
    ensures exists r :: r in regions
  {
    assert regions[0] in regions;
  }

  lemma EmptyTable(hash: nat -> nat, buckets: seq<Bucket>, limit: nat)
    requires |buckets| == BUCKETS && forall b: nat :: b < BUCKETS ==> buckets[b] == Bucket(0, [])
    ensures TableOk(hash, buckets, limit) && Cached(buckets, BUCKETS) == multiset{} && Bytes(buckets, BUCKETS) == 0
  {
    NothingCached(buckets, BUCKETS);
  }

  lemma UnusedIsEmpty(hash: nat -> nat, buckets: seq<Bucket>, limit: nat, b: nat)
    requires TableOk(hash, buckets, limit) && b < BUCKETS
    ensures buckets[b].key == 0 ==> buckets[b].regions == []
  {
    assert BucketOk(buckets[b], limit);
    if buckets[b].key == 0 && buckets[b].regions != [] {
      FirstIsMember(buckets[b].regions);
    }
  }

  /** After probing in vain, up to the end or to a bucket never used, the size is not cached. */
  lemma NotCached(hash: nat -> nat, buckets: seq<Bucket>, limit: nat, size: nat, probe: nat)
    requires TableOk(hash, buckets, limit) && probe <= MAX_PROBE && size > 0
    requires probe < MAX_PROBE ==> buckets[Slot(hash, size, probe)].key == 0
    requires forall p: nat :: p < probe && buckets[Slot(hash, size, p)].key == size ==>
               buckets[Slot(hash, size, p)].regions == []
    ensures forall r :: r in Cached(buckets, BUCKETS) ==> r.size != size
  {
    forall r | r in Cached(buckets, BUCKETS) ensures r.size != size {
      CachedMember(buckets, BUCKETS, r);
      var b: nat :| b < BUCKETS && r in buckets[b].regions;
      assert BucketOk(buckets[b], limit) && Reached(hash, buckets, b);
    }
  }

  lemma LastTaken(hash: nat -> nat, buckets: seq<Bucket>, limit: nat, b: nat)
    requires TableOk(hash, buckets, limit) && b < BUCKETS && buckets[b].regions != []
    ensures var regions := buckets[b].regions;
            && regions[|regions| - 1].size == buckets[b].key && regions[|regions| - 1] in regions
            && TableOk(hash, buckets[b := Bucket(buckets[b].key, regions[..|regions| - 1])], limit)
            && Times(|regions|, buckets[b].key) == Times(|regions| - 1, buckets[b].key) + buckets[b].key
  {
    hide Reached;
    assert BucketOk(buckets[b], limit);
    RefillKeepsTable(hash, buckets, limit, b, buckets[b].regions[..|buckets[b].regions| - 1]);
  }

  lemma LastPut(hash: nat -> nat, buckets: seq<Bucket>, limit: nat, b: nat, region: Region)
    requires TableOk(hash, buckets, limit) && b < BUCKETS && Reached(hash, buckets, b)
    requires buckets[b].key == region.size > 0 && |buckets[b].regions| < Min(BUCKET_CAPACITY, limit)
    ensures TableOk(hash, buckets[b := Bucket(buckets[b].key, buckets[b].regions + [region])], limit)
    ensures Times(|buckets[b].regions| + 1, region.size) == Times(|buckets[b].regions|, region.size) + region.size
  {
    hide Reached;
    assert BucketOk(buckets[b], limit);
    RefillKeepsTable(hash, buckets, limit, b, buckets[b].regions + [region]);
  }

  lemma SameWithNothing(all: multiset<Region>, all': multiset<Region>, regions: seq<Region>)
    requires regions == [] && all' + multiset(regions) == all + multiset([])
    ensures all' == all
  {
    forall r: Region ensures all'[r] == all[r] {
      assert (all' + multiset(regions))[r] == (all + multiset([]))[r];
    }
  }

  lemma RegionsLess(all: multiset<Region>, rest: multiset<Region>, regions: seq<Region>)
    requires regions != [] && rest + multiset(regions) == all + multiset(regions[..|regions| - 1])
    ensures rest == all - multiset{regions[|regions| - 1]}
  {
    var last := regions[|regions| - 1];
    assert regions == regions[..|regions| - 1] + [last];
    forall r: Region ensures rest[r] == (all - multiset{last})[r] {
      assert (rest + multiset(regions))[r] == (all + multiset(regions[..|regions| - 1]))[r];
    }
  }

  lemma RegionsMore(all: multiset<Region>, more: multiset<Region>, regions: seq<Region>, region: Region)
    requires more + multiset(regions) == all + multiset(regions + [region])
    ensures more == all + multiset{region}
  {
    forall r: Region ensures more[r] == (all + multiset{region})[r] {
      assert (more + multiset(regions))[r] == (all + multiset(regions + [region]))[r];
    }
  }
}
