/** The page allocator: spans of pages cut from reserved regions, and kept by exact page count
    when they come back. Which shard a thread uses, and whether the operating system reserves
    and commits memory, are inputs. */
module PageAllocators {
  import opened Numbers
  import opened Options
  import opened PageState

  class PageAllocator {
    const smallRegionPages: nat
    var shards: seq<Shard>
    ghost var out: set<PageSpan>
    /** Taken off their lists for a client that never got them. */
    ghost var dropped: set<PageSpan>

    ghost predicate Valid()
      reads this
    {
      |shards| > 0 && Ok(shards, out + dropped) && out !! dropped && Tiled(shards, out + dropped)
    }

    constructor (shardCount: nat, smallRegionPages: nat)
      requires shardCount > 0
      ensures Valid() && out == dropped == {} && |shards| == shardCount && this.smallRegionPages == smallRegionPages
    {
      this.smallRegionPages := smallRegionPages;
      shards := seq(shardCount, k requires 0 <= k =>
        Shard([], map[], seq(CACHE_BUCKETS, b => []), [], if k == 0 then shardCount else k));
      out := {};
      dropped := {};
      new;
      NewShards(shards);
    }

    /** A spare span of exactly this many pages, if the shard keeps one. It is on no list then
        and nobody's yet. */
    method TryPopCachedSpan(k: nat, count: nat) returns (span: Option<PageSpan>)
      requires Valid() && k < |shards| && count > 0
      modifies `shards
      ensures |shards| == |old(shards)| > 0 && SameRegions(old(shards), shards)
      ensures span.None? ==> shards == old(shards)
      ensures span.Some? <==> exists p :: p in HomeOf(old(shards)[k], count) && p.count == count
      ensures span.Some? ==> span.value.count == count && span.value in HomeOf(old(shards)[k], count)
      ensures span.Some? ==> TakenFirst(HomeOf(old(shards)[k], count), HomeOf(shards[k], count), count, span.value)
      ensures OthersKept(old(shards), shards, k, count)
      ensures forall q :: q in Home(shards, q) <==> q in old(Home(shards, q)) && span != Some(q)
      ensures span.Some? ==> Ok(shards, out + dropped) && Fits(shards, out + dropped, span.value)
      ensures span.Some? ==> Tiled(shards, out + dropped + {span.value})
    {
      hide Ok, Fits, Tiled, Home, SameRegions, SwapRemove, WithBucket;
      Sizes(shards, out + dropped);
      Unchanged(shards);
      var b := CacheBucket(count);
      var i := |shards[k].cache[b]|;
      while i > 0
        invariant 0 <= i <= |old(shards)[k].cache[b]| && shards == old(shards)
        invariant forall j :: i <= j < |shards[k].cache[b]| ==> shards[k].cache[b][j].count != count
      {
        i := i - 1;
        if shards[k].cache[b][i].count == count {
          span := Some(shards[k].cache[b][i]);
          FoundInBucket(shards, out + dropped, k, count, i);
          BucketReplacedAt(shards, k, count, SwapRemove(shards[k].cache[b], i));
          Taken(shards[k].cache[b], count, i);
          shards := shards[k := WithBucket(shards[k], b, SwapRemove(shards[k].cache[b], i))];
          return;
        }
      }
      var j: nat := 0;
      while j < |shards[k].oversized|
        invariant j <= |shards[k].oversized| && shards == old(shards)
        invariant forall i :: 0 <= i < j ==> shards[k].oversized[i].count != count
      {
        if shards[k].oversized[j].count == count {
          span := Some(shards[k].oversized[j]);
          FoundOversized(shards, out + dropped, k, count, j);
          OversizedReplacedAt(shards, k, count, SwapRemove(shards[k].oversized, j));
          Taken(shards[k].oversized, count, j);
          shards := shards[k := shards[k].(oversized := SwapRemove(shards[k].oversized, j))];
          return;
        }
        j := j + 1;
      }
      return None;
    }

    /** A span of `count` pages for shard `k`: a spare one of that size, or fresh pages of a
        region that has enough, or the first pages of a new region. `reserved` is where a new
        region would be, if the system grants one; `indexed` whether the region index takes it;
        `committed` whether the pages can be committed. A spare span whose pages cannot is `lost`. */
    method AcquireSpan(k: nat, count: nat, reserved: Option<nat>, indexed: bool, committed: bool)
      returns (span: Option<PageSpan>, ghost lost: Option<PageSpan>)
      requires Valid() && k < |shards|
      requires reserved.Some? ==> Separate(shards, reserved.value, RegionPages(count))
      modifies this
      ensures Valid() && |shards| == |old(shards)| > 0
      ensures span.Some? ==> span.value.count == count && span.value !in old(out) + old(dropped)
      ensures out == old(out) + if span.Some? then {span.value} else {}
      ensures count == 0 || !committed ==> span.None?
      ensures committed && count > 0 && Keeps(old(shards)[k], count)
              ==> span.Some? && TakenFirst(HomeOf(old(shards)[k], count), HomeOf(shards[k], count), count, span.value)
      ensures committed && count > 0 && (HasPages(old(shards)[k], count) || (indexed && reserved.Some?)) ==> span.Some?
      ensures Keeps(old(shards)[k], count) || HasPages(old(shards)[k], count)
              ==> shards[k].nextRegionId == old(shards)[k].nextRegionId
      ensures lost.Some? <==> count > 0 && !committed && Keeps(old(shards)[k], count)
      ensures lost.Some? ==> TakenFirst(HomeOf(old(shards)[k], count), HomeOf(shards[k], count), count, lost.value)
      ensures OthersKept(old(shards), shards, k, count) && (lost.Some? ==> lost.value.count == count)
      ensures !Keeps(old(shards)[k], count) ==> HomeOf(shards[k], count) == HomeOf(old(shards)[k], count)
      ensures lost.Some? ==> lost.value !in old(out) + old(dropped)
      ensures dropped == old(dropped) + if lost.Some? then {lost.value} else {}
      ensures forall q :: q in Home(shards, q) <==> q in old(Home(shards, q)) && span != Some(q) && lost != Some(q)
    {
      hide Ok, HasPages, Separate, Fits, HasRegion, CacheBucket, Home, Tiled, TakenFirst, OthersKept, HomeOf;
      lost := None;
      ListsKept(shards, shards, k, count);
      if count == 0 {
        return None, lost;
      }
      Sizes(shards, out + dropped);
      var cached := TryPopCachedSpan(k, count);
      if cached.Some? {
        OwnerIsKnown(shards, out + dropped, cached.value);
        var owner := cached.value.regionId;
        if owner == 0 || !HasRegion(shards, owner) {
          assert false;
        }
        HandingOut(shards, out + dropped, cached.value);
        if !committed {
          assert out + (dropped + {cached.value}) == out + dropped + {cached.value};
          lost := cached;
          dropped := dropped + {cached.value};
          return None, lost;
        }
        assert out + {cached.value} + dropped == out + dropped + {cached.value};
        out := out + {cached.value};
        return cached, lost;
      }
      span := AcquireFresh(k, count, reserved, indexed, committed);
      CachesUntouched(old(shards), shards);
      ListsKept(old(shards), shards, k, count);
      if span.Some? {
        HeldIsNotSpare(shards, out + dropped, span.value);
      }
    }

    /** Pages of the first region that has enough, else of a new region. */
    method AcquireFresh(k: nat, count: nat, reserved: Option<nat>, indexed: bool, committed: bool)
      returns (span: Option<PageSpan>)
      requires Valid() && k < |shards| && count > 0
      requires reserved.Some? ==> Separate(shards, reserved.value, RegionPages(count))
      modifies this
      ensures Valid() && |shards| == |old(shards)| && SameCaches(old(shards), shards) && dropped == old(dropped)
      ensures span.Some? ==> span.value.count == count && span.value !in old(out) + old(dropped)
      ensures out == old(out) + if span.Some? then {span.value} else {}
      ensures span.Some? <==> committed && (HasPages(old(shards)[k], count) || (indexed && reserved.Some?))
      ensures HasPages(old(shards)[k], count) ==> shards[k].nextRegionId == old(shards)[k].nextRegionId
      ensures span.Some? ==> forall i: nat ::
                i < |old(shards)[k].regions| && FirstRoom(old(shards)[k].regions, count, i) ==>
                  var r := old(shards)[k].regions[i]; span.value == PageSpan(r.base + r.nextPage, count, r.id)
      ensures span.Some? && !HasPages(old(shards)[k], count) ==>
                reserved.Some? && span.value == PageSpan(reserved.value, count, old(shards)[k].nextRegionId)
    {
      hide Ok, Separate, Tiled, Fits;
      Sizes(shards, out + dropped);
      var i: nat := 0;
      while i < |shards[k].regions| && shards[k].regions[i].reservedPages - shards[k].regions[i].nextPage < count
        invariant i <= |shards[k].regions| && shards == old(shards)
        invariant forall j: nat :: j < i ==> shards[k].regions[j].reservedPages - shards[k].regions[j].nextPage < count
      {
        i := i + 1;
      }
      if i < |shards[k].regions| {
        if !committed {
          return None;
        }
        var first := CarveSpan(k, i, count);
        return Some(first);
      }
      if reserved.None? {
        return None;
      }
      span := OpenRegion(k, count, reserved.value, indexed && committed);
    }

    /** The next pages of region `i`. */
    method CarveSpan(k: nat, i: nat, count: nat) returns (span: PageSpan)
      requires Valid() && k < |shards| && i < |shards[k].regions| && count > 0
      requires shards[k].regions[i].nextPage + count <= shards[k].regions[i].reservedPages
      modifies this
      ensures Valid() && shards == Carved(old(shards), k, i, count) && dropped == old(dropped)
      ensures span == FreshSpan(old(shards)[k].regions[i], count) && span !in old(out) + old(dropped)
      ensures out == old(out) + {span}
    {
      hide Ok, Tiled, Fits;
      span := FreshSpan(shards[k].regions[i], count);
      CarvedFits(shards, out + dropped, k, i, count);
      RegionsAreOk(shards, out + dropped);
      CarvedTiled(shards, out + dropped, k, i, count);
      shards := Carved(shards, k, i, count);
      HandingOut(shards, out + dropped, span);
      assert out + {span} + dropped == out + dropped + {span};
      out := out + {span};
    }

    function RegionPages(count: nat): nat {
      if smallRegionPages < count then count else smallRegionPages
    }

    /** Adds a region and takes its first pages, or gives it up again. The region's number is
        used up either way. */
    method OpenRegion(k: nat, count: nat, base: nat, granted: bool) returns (span: Option<PageSpan>)
      requires Valid() && k < |shards| && count > 0 && Separate(shards, base, RegionPages(count))
      modifies this
      ensures Valid() && |shards| == |old(shards)| && (span.Some? <==> granted)
      ensures SameCaches(old(shards), shards) && dropped == old(dropped)
      ensures span.Some? ==> span.value == PageSpan(base, count, old(shards)[k].nextRegionId)
      ensures span.Some? ==> span.value !in old(out) + old(dropped)
      ensures out == old(out) + if span.Some? then {span.value} else {}
      ensures shards[k].nextRegionId == old(shards)[k].nextRegionId + |shards|
      ensures forall c: nat :: c < |shards| && (c != k || !granted) ==>
                shards[c].regions == old(shards)[c].regions && shards[c].index == old(shards)[c].index
      ensures granted ==>
                shards[k].regions == old(shards)[k].regions
                  + [RegionCursor(old(shards)[k].nextRegionId, base, Max(smallRegionPages, count), count)]
    {
      hide Ok, Tiled, Separate;
      if !granted {
        SkippedOk(shards, out + dropped, k);
        shards := Skipped(shards, k);
        return None;
      }
      ExtendedOk(shards, out + dropped, k, base, RegionPages(count));
      shards := Extended(shards, k, base, RegionPages(count));
      var first := CarveSpan(k, |shards[k].regions| - 1, count);
      return Some(first);
    }

    /** Puts a span back on the list of the shard that owns its region. */
    method ReleaseSpan(p: PageSpan)
      requires Valid() && p in out
      modifies this
      ensures Valid() && out == old(out) - {p} && dropped == old(dropped) && |shards| == |old(shards)| > 0
      ensures var k := p.regionId % |shards|;
              HomeOf(shards[k], p.count) == HomeOf(old(shards)[k], p.count) + [p]
              && OthersKept(old(shards), shards, k, p.count)
      ensures forall q :: q in Home(shards, q) <==> q in old(Home(shards, q)) || q == p
    {
      hide Ok, Tiled;
      Sizes(shards, out + dropped);
      var k := p.regionId % |shards|;
      if p.count <= CACHED_MAX_PAGES {
        var b := CacheBucket(p.count);
        ReturnedToBucket(shards, out + dropped, p);
        BucketReplacedAt(shards, k, p.count, shards[k].cache[b] + [p]);
        shards := shards[k := WithBucket(shards[k], b, shards[k].cache[b] + [p])];
      } else {
        ReturnedOversized(shards, out + dropped, p);
        OversizedReplacedAt(shards, k, p.count, shards[k].oversized + [p]);
        shards := shards[k := shards[k].(oversized := shards[k].oversized + [p])];
      }
      assert out - {p} + dropped == out + dropped - {p};
      out := out - {p};
    }

    /** A span that is with a client, spare, or dropped. */
    ghost predicate Accounted(p: PageSpan)
      requires |shards| > 0
      reads this
    {
      p in out || p in dropped || p in Home(shards, p)
    }

    ghost predicate On(p: PageSpan, page: nat)
      requires |shards| > 0
      reads this
    {
      Accounted(p) && p.base <= page < p.base + p.count
    }

    /** The pages given out so far, in all regions together, are exactly those of the spans that
        are held, spare or dropped; each is on one of them only, and each span is one of the three. */
    lemma UsedPagesArePartitioned(page: nat)
      requires Valid()
      ensures (exists id: nat :: Used(shards, id, page)) <==> exists p :: On(p, page)
      ensures forall p, q :: On(p, page) && On(q, page) ==> p == q
      ensures forall p :: p in out ==> p !in dropped && p !in Home(shards, p)
      ensures forall p :: p in dropped ==> p !in Home(shards, p)
    {
      hide Home, AllRegionsOk, CachesOk, HasRegion, RegionOf;
      var all := out + dropped;
      assert forall p :: Accounted(p) <==> Alive(shards, all, p);
      if id: nat :| Used(shards, id, page) {
        assert Covered(shards, all, id, page);
        var p :| Alive(shards, all, p) && p.regionId == id && p.base <= page < p.base + p.count;
        assert On(p, page);
      }
      if p :| On(p, page) {
        assert Alive(shards, all, p) && Inside(shards, p);
        assert Used(shards, p.regionId, page);
      }
      forall p, q | On(p, page) && On(q, page) ensures p == q
      {
        assert Alive(shards, all, p) && Alive(shards, all, q);
      }
    }
  }

  datatype Request =
    | Acquire(shard: nat, count: nat, reserved: Option<nat>, indexed: bool, committed: bool)
    | Release(span: PageSpan)

  /** After any run from any reachable state, whatever the system refused meanwhile, the spans a
      client holds lie in used pages of existing regions and have no page in common, neither with
      one another nor with any span that was ever dropped; and what was dropped stays so. */
  method Run(pages: PageAllocator, start: set<PageSpan>, requests: seq<Request>) returns (held: set<PageSpan>)
    requires pages.Valid() && start == pages.out
    modifies pages
    ensures pages.Valid() && held == pages.out && |pages.shards| > 0
    ensures old(pages.dropped) <= pages.dropped && held !! pages.dropped
    ensures forall p :: p in held ==> Inside(pages.shards, p)
    ensures forall p, q :: p in held && (q in held || q in pages.dropped) && p != q ==>
              Apart(p.base, p.count, q.base, q.count)
  {
    hide Ok, Separate, Inside, Tiled, Home;
    held := start;
    var i := 0;
    while i < |requests|
      invariant i <= |requests| && pages.Valid() && held == pages.out && old(pages.dropped) <= pages.dropped
    {
      Sizes(pages.shards, pages.out + pages.dropped);
      match requests[i] {
        case Acquire(shard, count, reserved, indexed, committed) =>
          if shard < |pages.shards| {
            var free := reserved.Some? && Separate(pages.shards, reserved.value, pages.RegionPages(count));
            var region := if free then reserved else None;
            var span, _ := pages.AcquireSpan(shard, count, region, indexed, committed);
            if span.Some? {
              held := held + {span.value};
            }
          }
        case Release(span) =>
          if span in held {
            pages.ReleaseSpan(span);
            held := held - {span};
          }
      }
      i := i + 1;
    }
    OutstandingSpans(pages.shards, pages.out + pages.dropped);
  }

  /** Any span that is held can come to be dropped: released, asked for again, and not committed. */
  method ReleasedAndDropped(pages: PageAllocator, p: PageSpan) returns (ghost lost: PageSpan)
    requires pages.Valid() && p in pages.out
    modifies pages
    ensures pages.Valid() && pages.out == old(pages.out) - {p} && lost.count == p.count
    ensures lost !in old(pages.dropped) && pages.dropped == old(pages.dropped) + {lost}
  {
    hide Ok, Home, Tiled, HomeOf, Inside;
    OutstandingSpans(pages.shards, pages.out + pages.dropped);
    assert p.count > 0 by { HeldIsSome(pages, p); }
    pages.ReleaseSpan(p);
    var span, gone := pages.AcquireSpan(p.regionId % |pages.shards|, p.count, None, false, false);
    lost := gone.value;
  }

  lemma HeldIsSome(pages: PageAllocator, p: PageSpan)
    requires pages.Valid() && p in pages.out
    ensures p.count > 0
  {
    OutstandingSpans(pages.shards, pages.out + pages.dropped);
  }

  lemma OutstandingSpans(shards: seq<Shard>, out: set<PageSpan>)
    requires Ok(shards, out)
    ensures |shards| > 0 && forall p :: p in out ==> Inside(shards, p)
    ensures forall p, q :: p in out && q in out && p != q ==> Apart(p.base, p.count, q.base, q.count)
  {
    hide Inside, Home, AllRegionsOk, CachesOk;
    assert |shards| > 0 by { Sizes(shards, out); }
    forall p, q | p in out && q in out && p != q ensures Apart(p.base, p.count, q.base, q.count) {
      assert Alive(shards, out, p) && Alive(shards, out, q);
    }
    forall p | p in out ensures Inside(shards, p) {
      assert Alive(shards, out, p);
    }
  }

  /** Which of several spare spans of a size is taken, the last of its bucket or the first of the
      oversized ones, and what the list is then: its last span has moved to the place taken. */
  ghost predicate TakenFirst(list: seq<PageSpan>, left: seq<PageSpan>, count: nat, p: PageSpan) {
    exists i: nat :: TakenAt(list, left, count, i) && list[i] == p
  }

  ghost predicate TakenAt(list: seq<PageSpan>, left: seq<PageSpan>, count: nat, i: nat) {
    && i < |list| && |left| == |list| - 1
    && (forall j: nat :: j < |list| && (if count <= CACHED_MAX_PAGES then i < j else j < i) ==> list[j].count != count)
    && forall j: nat :: j < |left| ==> left[j] == if j == i then list[|left|] else list[j]
  }

  lemma Taken(list: seq<PageSpan>, count: nat, i: nat)
    requires i < |list|
    requires forall j: nat :: j < |list| && (if count <= CACHED_MAX_PAGES then i < j else j < i) ==>
               list[j].count != count
    ensures TakenFirst(list, SwapRemove(list, i), count, list[i])
  {
    assert TakenAt(list, SwapRemove(list, i), count, i);
  }

  /** Spans of so many pages are kept on the same list. */
  predicate SameList(n: nat, m: nat) {
    if n > CACHED_MAX_PAGES then m > CACHED_MAX_PAGES else m <= CACHED_MAX_PAGES && CacheBucket(n) == CacheBucket(m)
  }

  /** All lists are the same but the one of shard `k` for so many pages. */
  ghost predicate OthersKept(shards: seq<Shard>, shards': seq<Shard>, k: nat, count: nat) {
    |shards'| == |shards| && forall c: nat, n: nat :: c < |shards| && !(c == k && SameList(n, count)) ==>
      HomeOf(shards'[c], n) == HomeOf(shards[c], n)
  }

  lemma BucketReplacedAt(shards: seq<Shard>, k: nat, count: nat, list: seq<PageSpan>)
    requires k < |shards| && |shards[k].cache| == CACHE_BUCKETS && count <= CACHED_MAX_PAGES
    ensures var shards' := shards[k := WithBucket(shards[k], CacheBucket(count), list)];
            HomeOf(shards[k], count) == shards[k].cache[CacheBucket(count)]
            && HomeOf(shards'[k], count) == list && OthersKept(shards, shards', k, count)
  {
    hide CacheBucket;
  }

  lemma OversizedReplacedAt(shards: seq<Shard>, k: nat, count: nat, list: seq<PageSpan>)
    requires k < |shards| && count > CACHED_MAX_PAGES
    ensures var shards' := shards[k := shards[k].(oversized := list)];
            HomeOf(shards[k], count) == shards[k].oversized
            && HomeOf(shards'[k], count) == list && OthersKept(shards, shards', k, count)
  {
    hide CacheBucket;
  }

  lemma ListsKept(shards: seq<Shard>, shards': seq<Shard>, k: nat, count: nat)
    requires SameCaches(shards, shards') && k < |shards|
    ensures OthersKept(shards, shards', k, count) && HomeOf(shards'[k], count) == HomeOf(shards[k], count)
  {
    hide CacheBucket;
    forall c: nat, n: nat | c < |shards| ensures HomeOf(shards'[c], n) == HomeOf(shards[c], n) {
      assert shards'[c].cache == shards[c].cache;
    }
  }

  /** The shard has a spare span of exactly this many pages. */
  ghost predicate Keeps(sh: Shard, count: nat) {
    exists p :: p in HomeOf(sh, count) && p.count == count
  }

  /** The first region with enough pages left. */
  predicate FirstRoom(regions: seq<RegionCursor>, count: nat, i: nat)
    requires i < |regions|
  {
    && regions[i].reservedPages - regions[i].nextPage >= count
    && forall j: nat :: j < i ==> regions[j].reservedPages - regions[j].nextPage < count
  }

  /** Some region of the shard has enough pages left. */
  ghost predicate HasPages(sh: Shard, count: nat) {
    exists i: nat :: i < |sh.regions| && sh.regions[i].reservedPages - sh.regions[i].nextPage >= count
  }

  /** Where a shard keeps spare spans of this many pages. */
  function HomeOf(sh: Shard, count: nat): seq<PageSpan> {
    if count > CACHED_MAX_PAGES then sh.oversized
    else if CacheBucket(count) < |sh.cache| then sh.cache[CacheBucket(count)] else []
  }

  lemma NewShards(shards: seq<Shard>)
    requires |shards| > 0
    requires forall k: nat :: k < |shards| ==>
               shards[k] == Shard([], map[], seq(CACHE_BUCKETS, b => []), [], if k == 0 then |shards| else k)
    ensures Ok(shards, {}) && Tiled(shards, {})
  {
    NewRegions(shards);
    NewCaches(shards);
    hide AllRegionsOk, CachesOk, Inside;
    assert SpansOk(shards, {});
  }

  lemma NewRegions(shards: seq<Shard>)
    requires |shards| > 0
    requires forall k: nat :: k < |shards| ==>
               && shards[k].regions == [] && shards[k].index == map[]
               && shards[k].nextRegionId == if k == 0 then |shards| else k
    ensures AllRegionsOk(shards)
  {
    forall k: nat | k < |shards| ensures RegionsOk(shards[k], k, |shards|) {
      SmallRemainder(|shards|, k);
    }
    forall id: nat ensures !HasRegion(shards, id) {
      assert id % |shards| < |shards|;
    }
  }

  lemma NewCaches(shards: seq<Shard>)
    requires |shards| > 0
    requires forall k: nat :: k < |shards| ==>
               shards[k].cache == seq(CACHE_BUCKETS, b => []) && shards[k].oversized == []
    ensures CachesOk(shards) && forall p :: Home(shards, p) == []
  {
  }

  lemma Sizes(shards: seq<Shard>, out: set<PageSpan>)
    requires Ok(shards, out)
    ensures |shards| > 0 && forall k: nat :: k < |shards| ==> |shards[k].cache| == CACHE_BUCKETS
    ensures forall k: nat, i: nat :: k < |shards| && i < |shards[k].regions| ==>
              shards[k].regions[i].nextPage <= shards[k].regions[i].reservedPages
  {
    forall k: nat, i: nat | k < |shards| && i < |shards[k].regions|
      ensures shards[k].regions[i].nextPage <= shards[k].regions[i].reservedPages
    {
      assert RegionsOk(shards[k], k, |shards|);
    }
  }

  lemma HeldIsNotSpare(shards: seq<Shard>, out: set<PageSpan>, p: PageSpan)
    requires |shards| > 0 && Ok(shards, out) && p in out
    ensures p !in Home(shards, p)
  {
  }

  lemma Unchanged(shards: seq<Shard>)
    ensures SameRegions(shards, shards)
  {
  }

  lemma RegionsAreOk(shards: seq<Shard>, out: set<PageSpan>)
    requires Ok(shards, out)
    ensures AllRegionsOk(shards)
  {
  }

  /** Spare spans on shard `k`'s lists are where their size and number say. */
  lemma ListedAtHome(shards: seq<Shard>, out: set<PageSpan>, k: nat, p: PageSpan)
    requires Ok(shards, out) && k < |shards|
    ensures (exists b: nat :: b < |shards[k].cache| && p in shards[k].cache[b]) ==>
              p.regionId % |shards| == k && p.count <= CACHED_MAX_PAGES && p in Home(shards, p)
    ensures p in shards[k].oversized ==>
              p.regionId % |shards| == k && p.count > CACHED_MAX_PAGES && p in Home(shards, p)
  {
  }

  lemma FoundInBucket(shards: seq<Shard>, out: set<PageSpan>, k: nat, count: nat, i: nat)
    requires Ok(shards, out) && k < |shards| && |shards[k].cache| == CACHE_BUCKETS && count > 0
    requires i < |shards[k].cache[CacheBucket(count)]| && shards[k].cache[CacheBucket(count)][i].count == count
    ensures var b, p := CacheBucket(count), shards[k].cache[CacheBucket(count)][i];
            var shards' := shards[k := WithBucket(shards[k], b, SwapRemove(shards[k].cache[b], i))];
            && count <= CACHED_MAX_PAGES && p in HomeOf(shards[k], count) && p !in out
            && |shards'| > 0 && Ok(shards', out) && Fits(shards', out, p) && SameRegions(shards, shards')
            && (forall q :: q in Home(shards', q) <==> q in Home(shards, q) && q != p)
            && (Tiled(shards, out) ==> Tiled(shards', out + {p}))
  {
    var b := CacheBucket(count);
    var p := shards[k].cache[b][i];
    var shards' := shards[k := WithBucket(shards[k], b, SwapRemove(shards[k].cache[b], i))];
    assert p in shards[k].cache[b];
    ListedAtHome(shards, out, k, p);
    SwapRemoved(shards[k].cache[b], i);
    BucketReplaced(shards, k, b, SwapRemove(shards[k].cache[b], i));
    hide SwapRemove, WithBucket, CachesOk, AllRegionsOk;
    forall q ensures q in Home(shards', q) <==> q in Home(shards, q) && q != p {
    }
    SpanTaken(shards, shards', out, p);
  }

  /** What changes when one bucket is given other spans that belong there. */
  lemma BucketReplaced(shards: seq<Shard>, k: nat, b: nat, list: seq<PageSpan>)
    requires |shards| > 0 && CachesOk(shards) && k < |shards| && b < |shards[k].cache| && Distinct(list)
    requires forall p :: p in list ==>
               p.regionId % |shards| == k && p.count <= CACHED_MAX_PAGES && CacheBucket(p.count) == b
    ensures var shards' := shards[k := WithBucket(shards[k], b, list)];
            && CachesOk(shards') && SameRegions(shards, shards')
            && forall q :: Home(shards', q) == if q.regionId % |shards| == k
                                                  && q.count <= CACHED_MAX_PAGES && CacheBucket(q.count) == b
                                               then list else Home(shards, q)
  {
    hide CacheBucket, Distinct;
  }

  lemma OversizedReplaced(shards: seq<Shard>, k: nat, list: seq<PageSpan>)
    requires |shards| > 0 && CachesOk(shards) && k < |shards| && Distinct(list)
    requires forall p :: p in list ==> p.regionId % |shards| == k && p.count > CACHED_MAX_PAGES
    ensures var shards' := shards[k := shards[k].(oversized := list)];
            && CachesOk(shards') && SameRegions(shards, shards')
            && forall q :: Home(shards', q) == if q.regionId % |shards| == k && q.count > CACHED_MAX_PAGES
                                               then list else Home(shards, q)
  {
    hide CacheBucket, Distinct;
    OversizedHomes(shards, k, list);
    hide Home;
  }

  lemma OversizedHomes(shards: seq<Shard>, k: nat, list: seq<PageSpan>)
    requires k < |shards|
    ensures forall q :: Home(shards[k := shards[k].(oversized := list)], q)
              == if q.regionId % |shards| == k && q.count > CACHED_MAX_PAGES then list else Home(shards, q)
  {
    hide CacheBucket, CachesOk, Distinct;
  }

  lemma FoundOversized(shards: seq<Shard>, out: set<PageSpan>, k: nat, count: nat, i: nat)
    requires Ok(shards, out) && k < |shards| && i < |shards[k].oversized| && shards[k].oversized[i].count == count
    ensures var p := shards[k].oversized[i];
            var shards' := shards[k := shards[k].(oversized := SwapRemove(shards[k].oversized, i))];
            && count > CACHED_MAX_PAGES && p in HomeOf(shards[k], count) && p !in out
            && |shards'| > 0 && Ok(shards', out) && Fits(shards', out, p) && SameRegions(shards, shards')
            && (forall q :: q in Home(shards', q) <==> q in Home(shards, q) && q != p)
            && (Tiled(shards, out) ==> Tiled(shards', out + {p}))
  {
    var p := shards[k].oversized[i];
    var shards' := shards[k := shards[k].(oversized := SwapRemove(shards[k].oversized, i))];
    assert p in shards[k].oversized;
    ListedAtHome(shards, out, k, p);
    SwapRemoved(shards[k].oversized, i);
    OversizedReplaced(shards, k, SwapRemove(shards[k].oversized, i));
    hide SwapRemove, CachesOk, AllRegionsOk;
    forall q ensures q in Home(shards', q) <==> q in Home(shards, q) && q != p {
    }
    SpanTaken(shards, shards', out, p);
  }

  lemma ReturnedToBucket(shards: seq<Shard>, out: set<PageSpan>, p: PageSpan)
    requires Ok(shards, out) && |shards| > 0 && p in out && p.count <= CACHED_MAX_PAGES
    requires |shards[p.regionId % |shards|].cache| == CACHE_BUCKETS
    ensures var k, b := p.regionId % |shards|, CacheBucket(p.count);
            var shards' := shards[k := WithBucket(shards[k], b, shards[k].cache[b] + [p])];
            && Ok(shards', out - {p}) && (Tiled(shards, out) ==> Tiled(shards', out - {p}))
            && forall q :: q in Home(shards', q) <==> q in Home(shards, q) || q == p
  {
    var k, b := p.regionId % |shards|, CacheBucket(p.count);
    var list := shards[k].cache[b];
    var shards' := shards[k := WithBucket(shards[k], b, list + [p])];
    assert p !in Home(shards, p) && p !in list;
    BucketReplaced(shards, k, b, list + [p]);
    hide WithBucket, CachesOk, AllRegionsOk;
    forall q ensures q in Home(shards', q) <==> q in Home(shards, q) || q == p {
    }
    SpanReturned(shards, shards', out, p);
  }

  lemma ReturnedOversized(shards: seq<Shard>, out: set<PageSpan>, p: PageSpan)
    requires Ok(shards, out) && |shards| > 0 && p in out && p.count > CACHED_MAX_PAGES
    ensures var k := p.regionId % |shards|;
            var shards' := shards[k := shards[k].(oversized := shards[k].oversized + [p])];
            && Ok(shards', out - {p}) && (Tiled(shards, out) ==> Tiled(shards', out - {p}))
            && forall q :: q in Home(shards', q) <==> q in Home(shards, q) || q == p
  {
    var k := p.regionId % |shards|;
    var list := shards[k].oversized;
    var shards' := shards[k := shards[k].(oversized := list + [p])];
    assert p !in Home(shards, p) && p !in list;
    OversizedReplaced(shards, k, list + [p]);
    hide CachesOk, AllRegionsOk;
    forall q ensures q in Home(shards', q) <==> q in Home(shards, q) || q == p {
    }
    SpanReturned(shards, shards', out, p);
  }

  /** The region of a spare span is always found. */
  lemma OwnerIsKnown(shards: seq<Shard>, out: set<PageSpan>, p: PageSpan)
    requires |shards| > 0 && Ok(shards, out) && Fits(shards, out, p)
    ensures p.regionId != 0 && HasRegion(shards, p.regionId)
  {
    var k := p.regionId % |shards|;
    assert RegionsOk(shards[k], k, |shards|);
  }
}
