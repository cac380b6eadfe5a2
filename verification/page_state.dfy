/** Where the page allocator's spans and regions are, and what keeps them apart. Addresses are
    counted in pages. */
module PageState {
  import opened Numbers

  const CACHE_BUCKETS: nat := 64
  const CACHED_MAX_PAGES: nat := 1024

  datatype PageSpan = PageSpan(base: nat, count: nat, regionId: nat)

  datatype RegionCursor = RegionCursor(id: nat, base: nat, reservedPages: nat, nextPage: nat)

  datatype Shard = Shard(regions: seq<RegionCursor>, index: map<nat, nat>, cache: seq<seq<PageSpan>>,
                         oversized: seq<PageSpan>, nextRegionId: nat)

  function FloorLog2(n: nat): nat
    requires n > 0
  {
    if n == 1 then 0 else 1 + FloorLog2(n / 2)
  }

  function CacheBucket(count: nat): (b: nat)
    ensures b < CACHE_BUCKETS
  {
    if count == 0 then 0
    else if count <= 4 then count - 1
    else if count <= 16 then 4 + count / 2
    else Min(CACHE_BUCKETS - 1, 12 + FloorLog2(count))
  }

  // ---------------------------------------------------------------------------
  // Regions
  // ---------------------------------------------------------------------------

  predicate Apart(base: nat, count: nat, base': nat, count': nat) {
    base + count <= base' || base' + count' <= base
  }

  predicate HasRegion(shards: seq<Shard>, id: nat)
    requires |shards| > 0
  {
    var sh := shards[id % |shards|];
    id in sh.index && sh.index[id] < |sh.regions| && sh.regions[sh.index[id]].id == id
  }

  function RegionOf(shards: seq<Shard>, id: nat): RegionCursor
    requires |shards| > 0 && HasRegion(shards, id)
  {
    var sh := shards[id % |shards|];
    sh.regions[sh.index[id]]
  }

  /** A shard numbers its regions in steps of the number of shards, and indexes them all. */
  predicate RegionsOk(sh: Shard, k: nat, n: nat)
    requires n > 0
  {
    && sh.nextRegionId > 0 && sh.nextRegionId % n == k
    && (forall i: nat :: i < |sh.regions| ==>
          var r := sh.regions[i];
          && r.id % n == k && 0 < r.id < sh.nextRegionId && r.id in sh.index && sh.index[r.id] == i
          && r.nextPage <= r.reservedPages)
    && (forall id :: id in sh.index ==> sh.index[id] < |sh.regions| && sh.regions[sh.index[id]].id == id)
  }

  ghost predicate AllRegionsOk(shards: seq<Shard>) {
    && |shards| > 0
    && (forall k: nat :: k < |shards| ==> RegionsOk(shards[k], k, |shards|))
    && (forall id: nat, id': nat :: HasRegion(shards, id) && HasRegion(shards, id') && id != id' ==>
          var r, r' := RegionOf(shards, id), RegionOf(shards, id');
          Apart(r.base, r.reservedPages, r'.base, r'.reservedPages))
  }

  /** No two regions anywhere have the same number. */
  lemma RegionIdsAreUnique(shards: seq<Shard>, k: nat, i: nat, k': nat, i': nat)
    requires AllRegionsOk(shards) && k < |shards| && k' < |shards| && i < |shards[k].regions|
    requires i' < |shards[k'].regions|
    ensures shards[k].regions[i].id == shards[k'].regions[i'].id <==> k == k' && i == i'
    ensures HasRegion(shards, shards[k].regions[i].id)
    ensures RegionOf(shards, shards[k].regions[i].id) == shards[k].regions[i]
  {
    assert RegionsOk(shards[k], k, |shards|) && RegionsOk(shards[k'], k', |shards|);
    assert shards[k].regions[i].id % |shards| == k && shards[k'].regions[i'].id % |shards| == k';
  }

  // ---------------------------------------------------------------------------
  // Spans
  // ---------------------------------------------------------------------------

  /** The list on which a released span is kept. */
  function Home(shards: seq<Shard>, p: PageSpan): seq<PageSpan>
    requires |shards| > 0
  {
    var sh := shards[p.regionId % |shards|];
    if p.count > CACHED_MAX_PAGES then sh.oversized
    else if CacheBucket(p.count) < |sh.cache| then sh.cache[CacheBucket(p.count)] else []
  }

  ghost predicate Alive(shards: seq<Shard>, out: set<PageSpan>, p: PageSpan)
    requires |shards| > 0
  {
    p in out || p in Home(shards, p)
  }

  /** In pages of its region that have been given out before. */
  predicate Inside(shards: seq<Shard>, p: PageSpan)
    requires |shards| > 0
  {
    && p.count > 0 && HasRegion(shards, p.regionId)
    && var r := RegionOf(shards, p.regionId);
    r.base <= p.base && p.base + p.count <= r.base + r.nextPage
  }

  ghost predicate SpansOk(shards: seq<Shard>, out: set<PageSpan>)
    requires |shards| > 0
  {
    && (forall p :: Alive(shards, out, p) ==> Inside(shards, p))
    && (forall p, q :: Alive(shards, out, p) && Alive(shards, out, q) && p != q ==>
          Apart(p.base, p.count, q.base, q.count))
    && (forall p :: p in out ==> p !in Home(shards, p))
  }

  predicate Distinct(list: seq<PageSpan>) {
    forall i, j :: 0 <= i < j < |list| ==> list[i] != list[j]
  }

  /** Every cached span is on its own list, once. */
  ghost predicate CachesOk(shards: seq<Shard>)
    requires |shards| > 0
  {
    && (forall k: nat :: k < |shards| ==> |shards[k].cache| == CACHE_BUCKETS)
    && (forall k: nat, b: nat :: k < |shards| && b < |shards[k].cache| ==> Distinct(shards[k].cache[b]))
    && (forall k: nat :: k < |shards| ==> Distinct(shards[k].oversized))
    && (forall k: nat, b: nat, p :: k < |shards| && b < |shards[k].cache| && p in shards[k].cache[b] ==>
          p.regionId % |shards| == k && p.count <= CACHED_MAX_PAGES && CacheBucket(p.count) == b)
    && (forall k: nat, p :: k < |shards| && p in shards[k].oversized ==>
          p.regionId % |shards| == k && p.count > CACHED_MAX_PAGES)
  }

  ghost predicate Ok(shards: seq<Shard>, out: set<PageSpan>) {
    AllRegionsOk(shards) && SpansOk(shards, out) && CachesOk(shards)
  }

  /** A span that may be handed out next. */
  ghost predicate Fits(shards: seq<Shard>, out: set<PageSpan>, p: PageSpan)
    requires |shards| > 0
  {
    && Inside(shards, p)
    && forall q :: Alive(shards, out, q) ==> q != p && Apart(p.base, p.count, q.base, q.count)
  }

  /** A page on a span of region `id` that is out or spare. */
  ghost predicate Covered(shards: seq<Shard>, out: set<PageSpan>, id: nat, page: nat)
    requires |shards| > 0
  {
    exists p :: Alive(shards, out, p) && p.regionId == id && p.base <= page < p.base + p.count
  }

  /** A page of region `id` that has been given out before. */
  predicate Used(shards: seq<Shard>, id: nat, page: nat)
    requires |shards| > 0
  {
    && HasRegion(shards, id)
    && RegionOf(shards, id).base <= page < RegionOf(shards, id).base + RegionOf(shards, id).nextPage
  }

  /** The spans that are out or spare cover all used pages. */
  ghost predicate Tiled(shards: seq<Shard>, out: set<PageSpan>)
    requires |shards| > 0
  {
    forall id: nat, page: nat :: Used(shards, id, page) ==> Covered(shards, out, id, page)
  }

  /** No span got lost, and no more pages are used. */
  lemma StillTiled(shards: seq<Shard>, out: set<PageSpan>, shards': seq<Shard>, out': set<PageSpan>)
    requires |shards| > 0 && |shards'| > 0 && Tiled(shards, out)
    requires forall p :: Alive(shards, out, p) ==> Alive(shards', out', p)
    requires forall id: nat, page: nat :: Used(shards', id, page) ==> Used(shards, id, page)
    ensures Tiled(shards', out')
  {
    hide Alive, Used;
    forall id: nat, page: nat | Used(shards', id, page) ensures Covered(shards', out', id, page) {
      assert Covered(shards, out, id, page);
    }
  }

  lemma HandingOut(shards: seq<Shard>, out: set<PageSpan>, p: PageSpan)
    requires |shards| > 0 && Ok(shards, out) && Fits(shards, out, p)
    ensures Ok(shards, out + {p}) && p !in out
  {
    hide Home, Inside, AllRegionsOk, CachesOk;
    assert !Alive(shards, out, p);
    forall q | Alive(shards, out + {p}, q) ensures q == p || Alive(shards, out, q) {
    }
  }

  // ---------------------------------------------------------------------------
  // Lists with one span more or less
  // ---------------------------------------------------------------------------

  /** Filling the gap at `i` with the last element. */
  function SwapRemove(list: seq<PageSpan>, i: nat): seq<PageSpan>
    requires i < |list|
  {
    list[i := list[|list| - 1]][..|list| - 1]
  }

  lemma SwapRemoved(list: seq<PageSpan>, i: nat)
    requires Distinct(list) && i < |list|
    ensures Distinct(SwapRemove(list, i))
    ensures forall p :: p in SwapRemove(list, i) <==> p in list && p != list[i]
  {
    var after, last := SwapRemove(list, i), |list| - 1;
    forall p | p in list && p != list[i] ensures p in after {
      var j :| 0 <= j < |list| && list[j] == p;
      assert after[if j == last then i else j] == p;
    }
    forall p | p in after ensures p in list && p != list[i] {
      var j :| 0 <= j < |after| && after[j] == p;
      assert p == list[if j == i then last else j];
    }
  }

  function WithBucket(sh: Shard, b: nat, list: seq<PageSpan>): Shard
    requires b < |sh.cache|
  {
    sh.(cache := sh.cache[b := list])
  }

  /** Shards that agree on everything but the lists of spare spans. */
  predicate SameRegions(shards: seq<Shard>, shards': seq<Shard>) {
    && |shards'| == |shards|
    && forall k: nat :: k < |shards| ==>
         shards'[k].regions == shards[k].regions && shards'[k].index == shards[k].index
         && shards'[k].nextRegionId == shards[k].nextRegionId
  }

  lemma RegionsUntouched(shards: seq<Shard>, shards': seq<Shard>)
    requires |shards| > 0 && SameRegions(shards, shards')
    ensures AllRegionsOk(shards) ==> AllRegionsOk(shards')
    ensures forall id: nat :: HasRegion(shards', id) <==> HasRegion(shards, id)
    ensures forall p :: Inside(shards', p) <==> Inside(shards, p)
    ensures forall id: nat, page: nat :: Used(shards', id, page) <==> Used(shards, id, page)
  {
    forall id: nat ensures HasRegion(shards', id) <==> HasRegion(shards, id) {
    }
    forall id: nat | HasRegion(shards, id) ensures RegionOf(shards', id) == RegionOf(shards, id) {
    }
    hide HasRegion, RegionOf;
    if AllRegionsOk(shards) {
      forall k: nat | k < |shards'| ensures RegionsOk(shards'[k], k, |shards'|) {
        assert RegionsOk(shards[k], k, |shards|);
      }
    }
  }

  /** A spare span has left its list. */
  lemma SpanTaken(shards: seq<Shard>, shards': seq<Shard>, out: set<PageSpan>, p: PageSpan)
    requires |shards| > 0 && Ok(shards, out) && SameRegions(shards, shards') && CachesOk(shards')
    requires p in Home(shards, p)
    requires forall q :: q in Home(shards', q) <==> q in Home(shards, q) && q != p
    ensures Ok(shards', out) && Fits(shards', out, p)
    ensures Tiled(shards, out) ==> Tiled(shards', out + {p})
  {
    RegionsUntouched(shards, shards');
    hide Home, Inside, AllRegionsOk, CachesOk;
    assert Alive(shards, out, p);
    forall q | Alive(shards', out, q) ensures Alive(shards, out, q) && q != p {
    }
    if Tiled(shards, out) {
      StillTiled(shards, out, shards', out + {p});
    }
  }

  /** A span that was out is on its list. */
  lemma SpanReturned(shards: seq<Shard>, shards': seq<Shard>, out: set<PageSpan>, p: PageSpan)
    requires |shards| > 0 && Ok(shards, out) && SameRegions(shards, shards') && CachesOk(shards')
    requires p in out
    requires forall q :: q in Home(shards', q) <==> q in Home(shards, q) || q == p
    ensures Ok(shards', out - {p})
    ensures Tiled(shards, out) ==> Tiled(shards', out - {p})
  {
    RegionsUntouched(shards, shards');
    hide Home, Inside, AllRegionsOk, CachesOk;
    assert Alive(shards, out, p);
    forall q | Alive(shards', out - {p}, q) ensures Alive(shards, out, q) {
    }
    if Tiled(shards, out) {
      StillTiled(shards, out, shards', out - {p});
    }
  }

  // ---------------------------------------------------------------------------
  // Pages never given out before
  // ---------------------------------------------------------------------------

  /** The spare lists are the same. */
  predicate SameCaches(shards: seq<Shard>, shards': seq<Shard>) {
    && |shards'| == |shards|
    && forall k: nat :: k < |shards| ==>
         shards'[k].cache == shards[k].cache && shards'[k].oversized == shards[k].oversized
  }

  lemma CachesUntouched(shards: seq<Shard>, shards': seq<Shard>)
    requires |shards| > 0 && SameCaches(shards, shards')
    ensures CachesOk(shards) ==> CachesOk(shards')
    ensures forall p :: Home(shards', p) == Home(shards, p)
  {
  }

  /** Shard `k` with `count` more pages of its region `i` in use. */
  function Carved(shards: seq<Shard>, k: nat, i: nat, count: nat): seq<Shard>
    requires k < |shards| && i < |shards[k].regions|
  {
    var r := shards[k].regions[i];
    shards[k := shards[k].(regions := shards[k].regions[i := r.(nextPage := r.nextPage + count)])]
  }

  function FreshSpan(r: RegionCursor, count: nat): PageSpan {
    PageSpan(r.base + r.nextPage, count, r.id)
  }

  lemma CarvedRegions(shards: seq<Shard>, k: nat, i: nat, count: nat)
    requires AllRegionsOk(shards) && k < |shards| && i < |shards[k].regions|
    requires shards[k].regions[i].nextPage + count <= shards[k].regions[i].reservedPages
    ensures AllRegionsOk(Carved(shards, k, i, count))
    ensures var shards', r := Carved(shards, k, i, count), shards[k].regions[i];
            && (forall id: nat :: HasRegion(shards', id) <==> HasRegion(shards, id))
            && (forall id: nat :: HasRegion(shards, id) ==>
                  RegionOf(shards', id)
                  == if id == r.id then r.(nextPage := r.nextPage + count) else RegionOf(shards, id))
  {
    var shards', r := Carved(shards, k, i, count), shards[k].regions[i];
    assert RegionsOk(shards[k], k, |shards|);
    forall id: nat
      ensures HasRegion(shards', id) <==> HasRegion(shards, id)
      ensures HasRegion(shards, id) ==>
                RegionOf(shards', id) == if id == r.id then r.(nextPage := r.nextPage + count) else RegionOf(shards, id)
    {
      assert id % |shards| == k ==> id % |shards| < |shards|;
    }
    hide HasRegion, RegionOf;
    forall c: nat | c < |shards'| ensures RegionsOk(shards'[c], c, |shards'|) {
      assert RegionsOk(shards[c], c, |shards|);
    }
  }

  lemma CarvedFits(shards: seq<Shard>, out: set<PageSpan>, k: nat, i: nat, count: nat)
    requires |shards| > 0 && Ok(shards, out) && k < |shards| && i < |shards[k].regions| && count > 0
    requires shards[k].regions[i].nextPage + count <= shards[k].regions[i].reservedPages
    ensures var shards' := Carved(shards, k, i, count);
            Ok(shards', out) && Fits(shards', out, FreshSpan(shards[k].regions[i], count))
  {
    var shards', r := Carved(shards, k, i, count), shards[k].regions[i];
    RegionIdsAreUnique(shards, k, i, k, i);
    CarvedRegions(shards, k, i, count);
    CachesUntouched(shards, shards');
    assert RegionsOk(shards[k], k, |shards|);
    hide Home, AllRegionsOk, CachesOk, HasRegion, RegionOf, RegionsOk, Carved;
    forall q | Alive(shards', out, q)
      ensures Alive(shards, out, q) && Inside(shards', q)
    {
      assert Alive(shards, out, q);
    }
    CarvedApart(shards, out, shards', r, count);
  }

  /** The pages cut are on the span they are cut for. */
  lemma CarvedTiled(shards: seq<Shard>, out: set<PageSpan>, k: nat, i: nat, count: nat)
    requires |shards| > 0 && AllRegionsOk(shards) && k < |shards| && i < |shards[k].regions|
    requires shards[k].regions[i].nextPage + count <= shards[k].regions[i].reservedPages && Tiled(shards, out)
    ensures Tiled(Carved(shards, k, i, count), out + {FreshSpan(shards[k].regions[i], count)})
  {
    var shards', r := Carved(shards, k, i, count), shards[k].regions[i];
    var p := FreshSpan(r, count);
    RegionIdsAreUnique(shards, k, i, k, i);
    CarvedRegions(shards, k, i, count);
    CachesUntouched(shards, shards');
    hide Home, AllRegionsOk, CachesOk, HasRegion, RegionOf, Carved;
    forall id: nat, page: nat | Used(shards', id, page) ensures Covered(shards', out + {p}, id, page) {
      if Used(shards, id, page) {
        var q :| Alive(shards, out, q) && q.regionId == id && q.base <= page < q.base + q.count;
        assert Alive(shards', out + {p}, q);
      } else {
        assert Alive(shards', out + {p}, p);
      }
    }
  }

  lemma CarvedApart(shards: seq<Shard>, out: set<PageSpan>, shards': seq<Shard>, r: RegionCursor, count: nat)
    requires |shards| > 0 && |shards'| > 0 && Ok(shards, out) && HasRegion(shards, r.id) && RegionOf(shards, r.id) == r
    requires count > 0
    requires r.nextPage + count <= r.reservedPages
    requires HasRegion(shards', r.id) && RegionOf(shards', r.id) == r.(nextPage := r.nextPage + count)
    requires forall q :: Alive(shards', out, q) ==> Alive(shards, out, q)
    ensures Fits(shards', out, FreshSpan(r, count))
  {
    hide Home, CachesOk, HasRegion, RegionOf, RegionsOk;
    var p := FreshSpan(r, count);
    forall q | Alive(shards', out, q) ensures q != p && Apart(p.base, p.count, q.base, q.count) {
      assert Alive(shards, out, q) && Inside(shards, q);
      WithinReserve(shards, q.regionId);
      if q.regionId != r.id {
        assert Apart(r.base, r.reservedPages, RegionOf(shards, q.regionId).base,
                     RegionOf(shards, q.regionId).reservedPages);
      }
    }
  }

  lemma WithinReserve(shards: seq<Shard>, id: nat)
    requires AllRegionsOk(shards) && HasRegion(shards, id)
    ensures RegionOf(shards, id).nextPage <= RegionOf(shards, id).reservedPages && RegionOf(shards, id).id == id
  {
    assert RegionsOk(shards[id % |shards|], id % |shards|, |shards|);
  }

  // ---------------------------------------------------------------------------
  // New regions
  // ---------------------------------------------------------------------------

  /** Shard `k` with one more region, of which no page is in use yet. */
  function Extended(shards: seq<Shard>, k: nat, base: nat, reservedPages: nat): seq<Shard>
    requires k < |shards|
  {
    var sh := shards[k];
    shards[k := sh.(regions := sh.regions + [RegionCursor(sh.nextRegionId, base, reservedPages, 0)],
                    index := sh.index[sh.nextRegionId := |sh.regions|],
                    nextRegionId := sh.nextRegionId + |shards|)]
  }

  /** A number was used up, and that is all. */
  function Skipped(shards: seq<Shard>, k: nat): seq<Shard>
    requires k < |shards|
  {
    shards[k := shards[k].(nextRegionId := shards[k].nextRegionId + |shards|)]
  }

  lemma NextId(id: nat, n: nat)
    requires n > 0
    ensures (id + n) % n == id % n
  {
    var q := id / n;
    assert id + n == (q + 1) * n + id % n;
    DivisionIs(id + n, n, q + 1, id % n);
  }

  predicate Separate(shards: seq<Shard>, base: nat, count: nat)
    requires |shards| > 0
  {
    forall k: nat, i: nat :: k < |shards| && i < |shards[k].regions| ==>
      Apart(base, count, shards[k].regions[i].base, shards[k].regions[i].reservedPages)
  }

  lemma ExtendedRegions(shards: seq<Shard>, k: nat, base: nat, reservedPages: nat)
    requires AllRegionsOk(shards) && k < |shards| && Separate(shards, base, reservedPages)
    ensures AllRegionsOk(Extended(shards, k, base, reservedPages))
    ensures var shards', id' := Extended(shards, k, base, reservedPages), shards[k].nextRegionId;
            && !HasRegion(shards, id') && HasRegion(shards', id')
            && RegionOf(shards', id') == RegionCursor(id', base, reservedPages, 0)
            && forall id: nat :: id != id' ==>
                 (HasRegion(shards', id) <==> HasRegion(shards, id))
                 && (HasRegion(shards, id) ==> RegionOf(shards', id) == RegionOf(shards, id))
  {
    hide HasRegion, RegionOf, RegionsOk;
    var shards', id' := Extended(shards, k, base, reservedPages), shards[k].nextRegionId;
    assert RegionsOk(shards[k], k, |shards|);
    ExtendedLookups(shards, k, base, reservedPages);
    ExtendedShard(shards, k, base, reservedPages);
    forall c: nat | c < |shards'| ensures RegionsOk(shards'[c], c, |shards'|) {
      assert RegionsOk(shards[c], c, |shards|);
    }
    forall id: nat | HasRegion(shards, id)
      ensures Apart(base, reservedPages, RegionOf(shards, id).base, RegionOf(shards, id).reservedPages)
    {
      SeparateFrom(shards, base, reservedPages, id);
    }
  }

  lemma ExtendedShard(shards: seq<Shard>, k: nat, base: nat, reservedPages: nat)
    requires |shards| > 0 && k < |shards| && RegionsOk(shards[k], k, |shards|)
    ensures RegionsOk(Extended(shards, k, base, reservedPages)[k], k, |shards|)
  {
    NextId(shards[k].nextRegionId, |shards|);
  }

  lemma SeparateFrom(shards: seq<Shard>, base: nat, count: nat, id: nat)
    requires |shards| > 0 && Separate(shards, base, count) && HasRegion(shards, id)
    ensures Apart(base, count, RegionOf(shards, id).base, RegionOf(shards, id).reservedPages)
  {
    assert id % |shards| < |shards|;
  }

  lemma ExtendedLookups(shards: seq<Shard>, k: nat, base: nat, reservedPages: nat)
    requires |shards| > 0 && k < |shards| && RegionsOk(shards[k], k, |shards|)
    ensures var shards', id' := Extended(shards, k, base, reservedPages), shards[k].nextRegionId;
            && !HasRegion(shards, id') && HasRegion(shards', id')
            && RegionOf(shards', id') == RegionCursor(id', base, reservedPages, 0)
            && forall id: nat :: id != id' ==>
                 (HasRegion(shards', id) <==> HasRegion(shards, id))
                 && (HasRegion(shards, id) ==> RegionOf(shards', id) == RegionOf(shards, id))
  {
  }

  lemma ExtendedOk(shards: seq<Shard>, out: set<PageSpan>, k: nat, base: nat, reservedPages: nat)
    requires |shards| > 0 && Ok(shards, out) && k < |shards| && Separate(shards, base, reservedPages)
    ensures Ok(Extended(shards, k, base, reservedPages), out)
    ensures Tiled(shards, out) ==> Tiled(Extended(shards, k, base, reservedPages), out)
  {
    var shards' := Extended(shards, k, base, reservedPages);
    ExtendedRegions(shards, k, base, reservedPages);
    CachesUntouched(shards, shards');
    hide Home, AllRegionsOk, CachesOk, HasRegion, RegionOf, Extended;
    forall q | Alive(shards', out, q) ensures Alive(shards, out, q) && Inside(shards', q) {
      assert Alive(shards, out, q);
    }
    if Tiled(shards, out) {
      StillTiled(shards, out, shards', out);
    }
  }

  lemma SkippedRegions(shards: seq<Shard>, k: nat)
    requires AllRegionsOk(shards) && k < |shards|
    ensures AllRegionsOk(Skipped(shards, k))
    ensures forall id: nat :: HasRegion(Skipped(shards, k), id) <==> HasRegion(shards, id)
    ensures forall id: nat :: HasRegion(shards, id) ==> RegionOf(Skipped(shards, k), id) == RegionOf(shards, id)
  {
    var shards' := Skipped(shards, k);
    SkippedLookups(shards, k);
    hide HasRegion, RegionOf;
    NextId(shards[k].nextRegionId, |shards|);
    forall c: nat | c < |shards'| ensures RegionsOk(shards'[c], c, |shards'|) {
      assert RegionsOk(shards[c], c, |shards|);
    }
  }

  lemma SkippedLookups(shards: seq<Shard>, k: nat)
    requires k < |shards|
    ensures forall id: nat :: HasRegion(Skipped(shards, k), id) <==> HasRegion(shards, id)
    ensures forall id: nat :: HasRegion(shards, id) ==> RegionOf(Skipped(shards, k), id) == RegionOf(shards, id)
  {
  }

  lemma SkippedOk(shards: seq<Shard>, out: set<PageSpan>, k: nat)
    requires |shards| > 0 && Ok(shards, out) && k < |shards|
    ensures Ok(Skipped(shards, k), out)
    ensures Tiled(shards, out) ==> Tiled(Skipped(shards, k), out)
  {
    hide Home, CachesOk, AllRegionsOk, HasRegion, RegionOf;
    var shards' := Skipped(shards, k);
    CachesUntouched(shards, shards');
    SkippedRegions(shards, k);
    hide Skipped;
    forall q | Alive(shards', out, q) ensures Alive(shards, out, q) && Inside(shards', q) {
      assert Alive(shards, out, q);
    }
    if Tiled(shards, out) {
      StillTiled(shards, out, shards', out);
    }
  }
}
