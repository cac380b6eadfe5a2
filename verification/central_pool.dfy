/** The central pool of one size class: handing out batches of blocks, and taking back chains
    of blocks that may belong to many spans. One operation runs at a time; which shard a
    thread uses, and what the page allocator and the page index answer, are inputs. */
module CentralPools {
  import opened IntrusiveLists
  import opened CentralState
  import opened CentralFetch
  import opened CentralReturns
  import opened CentralSteps
  import opened Numbers
  import opened Sequences

  method FindGroup(groups: seq<Group>, s: nat) returns (k: nat)
    ensures k <= |groups| && (k < |groups| ==> groups[k].span == s)
    ensures forall j :: 0 <= j < k ==> groups[j].span != s
  {
    k := 0;
    while k < |groups| && groups[k].span != s
      invariant k <= |groups| && forall j :: 0 <= j < k ==> groups[j].span != s
    {
      k := k + 1;
    }
  }

  class CentralPool {
    const pageSize: nat
    const sizeClass: nat
    const info: SizeClass
    var link: map<nat, nat>
    var spans: map<nat, Span>
    var links: map<nat, Link>
    var pages: map<nat, nat>
    var shards: seq<Shard>
    ghost var free: map<nat, seq<nat>>
    ghost var partial: seq<seq<nat>>
    ghost var empty: seq<seq<nat>>
    ghost var out: set<nat>
    ghost var live: set<nat>
    ghost var foreign: set<nat>

    ghost function Current(): State
      reads this
    {
      State(pageSize, sizeClass, link, spans, links, pages, shards, free, partial, empty, out, live, foreign)
    }

    ghost predicate Valid()
      reads this
    {
      AtRest(Current())
    }

    /** What the page allocator and the pool of span objects may give. */
    ghost predicate Grantable(grant: nat, spare: nat)
      requires pageSize > 0
      reads this
    {
      && grant % pageSize == 0 && spare !in live + foreign
      && (grant != 0 ==> forall page :: page in pages ==> !OnGrid(grant, pageSize, info.pagesPerSpan, page))
    }

    constructor (pageSize: nat, sizeClass: nat, size: nat, shardCount: nat)
      requires 4096 <= pageSize && sizeClass < INVALID_CLASS && 0 < size <= LARGEST_BLOCK
      ensures Valid() && this.pageSize == pageSize && this.sizeClass == sizeClass && ClassFits(pageSize, info)
      ensures info == BuildSizeClass(pageSize, size) && size <= info.blockSize
      ensures out == {} && live == {} && foreign == {} && |shards| == shardCount
    {
      this.pageSize, this.sizeClass := pageSize, sizeClass;
      info := BuildSizeClass(pageSize, size);
      link, spans, links, pages := map[], map[], map[], map[];
      shards := seq(shardCount, i => Shard(0, 0, 0));
      free, partial, empty := map[], seq(shardCount, i => []), seq(shardCount, i => []);
      out, live, foreign := {}, {}, {};
      new;
      BuildSizeClassFits(pageSize, size);
    }

    // -------------------------------------------------------------------------
    // Lists of spans
    // -------------------------------------------------------------------------

    method PutOn(s: nat, which: Which)
      requires ListsOk(Current()) && s in live && s in spans && s != 0
      requires !spans[s].inPartial && !spans[s].inEmpty
      modifies `links, `spans, `shards, `partial, `empty
      ensures ListsOk(Current()) && Refiled(old(Current()), Current(), s, which, true)
      ensures var k := old(spans)[s].shard;
              k < |shards| && Head(shards[k], which) == s
              && k < |old(partial)| && k < |old(empty)|
              && partial == (if which.Partial? then old(partial)[k := [s] + old(partial)[k]] else old(partial))
              && empty == (if which.Empty? then old(empty)[k := [s] + old(empty)[k]] else old(empty))
    {
      PutKeepsLists(Current(), s, which);
      hide ListsOk;
      var k := spans[s].shard;
      links := InsertFront(links, Head(shards[k], which), s);
      var shard := WithHead(shards[k], which, s);
      spans := spans[s := WithFlag(spans[s], which, true)];
      if which.Empty? {
        shard := shard.(emptySpanCount := shard.emptySpanCount + 1);
        empty := empty[k := [s] + empty[k]];
      } else {
        partial := partial[k := [s] + partial[k]];
      }
      shards := shards[k := shard];
    }

    method TakeOff(s: nat, which: Which)
      requires ListsOk(Current()) && s in live && s in spans && Flag(spans[s], which)
      modifies `links, `spans, `shards, `partial, `empty
      ensures ListsOk(Current()) && Refiled(old(Current()), Current(), s, which, false)
      ensures old(spans)[s].shard < |old(shards)|
      ensures which.Empty? && s == old(shards)[old(spans)[s].shard].emptySpans ==>
                FrontGone(old(empty), empty, old(spans)[s].shard)
    {
      ghost var i := DropKeepsLists(Current(), s, which);
      hide ListsOk, Unlink;
      var k := spans[s].shard;
      var (links', head') := Unlink(links, Head(shards[k], which), s);
      links := links';
      var shard := WithHead(shards[k], which, head');
      spans := spans[s := WithFlag(spans[s], which, false)];
      if which.Empty? {
        shard := shard.(emptySpanCount := shard.emptySpanCount - 1);
        assert i == 0 ==> empty[k][..i] + empty[k][i + 1..] == empty[k][1..];
        empty := empty[k := empty[k][..i] + empty[k][i + 1..]];
      } else {
        partial := partial[k := partial[k][..i] + partial[k][i + 1..]];
      }
      shards := shards[k := shard];
    }

    // -------------------------------------------------------------------------
    // Taking blocks back
    // -------------------------------------------------------------------------

    /** Hangs a batch of one span's blocks in front of its free list. */
    method PushBatch(s: nat, head: nat, tail: nat, count: nat, ghost blocks: seq<nat>)
      requires Core(Current()) && ListsOk(Current()) && s in spans
      requires GroupOk(Current(), Group(s, head, tail, count, spans[s].shard), blocks)
      modifies `link, `spans, `free, `out
      ensures Core(Current()) && ListsOk(Current()) && SameShape(old(Current()), Current())
      ensures out == old(out) - SetOf(blocks) && link == old(link)[tail := old(spans)[s].freeList]
      ensures spans == old(spans)[s := old(spans)[s].(freeList := head, freeBlocks := old(spans)[s].freeBlocks + count)]
      ensures s != 0 && live <= spans.Keys && 0 < spans[s].freeBlocks <= spans[s].totalBlocks
    {
      hide Core, ListsOk, Batch, SetOf, SameShape, IsBlock, Chain, NoDuplicates, WellShaped;
      ghost var was := Current();
      ReturnedBatch(was, s, head, blocks);
      ghost var given := GiveBack(was, s, head, blocks);
      assert tail == blocks[|blocks| - 1] && count == |blocks|;
      link := link[tail := spans[s].freeList];
      var freeBlocks := spans[s].freeBlocks + count;
      spans := spans[s := spans[s].(freeList := head,
        freeBlocks := if freeBlocks < spans[s].totalBlocks then freeBlocks else spans[s].totalBlocks)];
      free := given.free;
      out := given.out;
      assert Current() == given;
    }

    /** Puts a batch of one span's blocks on its free list, and the span on the list where it
        now belongs. */
    method ApplyReturnedBatch(s: nat, head: nat, tail: nat, count: nat, ghost blocks: seq<nat>)
      requires Inv(Current()) && s in spans && GroupOk(Current(), Group(s, head, tail, count, spans[s].shard), blocks)
      modifies this
      ensures Inv(Current()) && out == old(out) - SetOf(blocks)
      ensures link == old(link)[tail := old(spans)[s].freeList]
      ensures SameShape(old(Current()), Current()) && live == old(live)
      ensures forall k: nat :: k < |shards| ==>
                shards[k].emptySpanCount == old(shards)[k].emptySpanCount
                  + if k == old(spans)[s].shard && NoneOut(old(spans)[s], out) then 1 else 0
    {
      hide Core, ListsOk, Batch, SetOf, SameShape, NoneOut, Shaped, Indexed;
      BatchIsSome(Current(), s, head, blocks);
      ghost var was := Current();
      LiveFacts(was, s);
      BatchFits(was, s, head, blocks);
      var wasFull := spans[s].freeBlocks == 0;
      PushBatch(s, head, tail, count, blocks);
      ghost var given := Current();
      IdleNow(was, given, s);
      FileSpan(s, wasFull);
      SameShapeTransitive(was, given, Current());
    }

    /** The second half: flags and lists of a span that has just received blocks. */
    method FileSpan(s: nat, wasFull: bool)
      requires Core(Current()) && ListsOk(Current()) && s in live && s in spans && s != 0 && live <= spans.Keys
      requires forall t :: t in live && t != s ==> FlagsOk(spans[t])
      requires 0 < spans[s].freeBlocks <= spans[s].totalBlocks && !spans[s].inEmpty
      requires spans[s].inPartial <==> !wasFull
      modifies `links, `spans, `shards, `partial, `empty
      ensures Inv(Current()) && SameShape(old(Current()), Current())
      ensures forall k: nat :: k < |shards| ==>
                shards[k].emptySpanCount == old(shards)[k].emptySpanCount
                  + if k == old(spans)[s].shard && old(spans)[s].freeBlocks == old(spans)[s].totalBlocks then 1 else 0
    {
      hide Core, ListsOk, SameShape;
      ghost var was := Current();
      SameShapeReflexive(was);
      if wasFull {
        PutOn(s, Partial);
        RefiledCore(was, Current(), s, Partial, true);
      }
      ghost var between := Current();
      if spans[s].freeBlocks == spans[s].totalBlocks {
        MoveToEmpty(s);
        SameShapeTransitive(was, between, Current());
      }
    }

    method MoveToEmpty(s: nat)
      requires Core(Current()) && ListsOk(Current()) && s in live && s in spans && s != 0 && live <= spans.Keys
      requires !spans[s].inEmpty
      modifies `links, `spans, `shards, `partial, `empty
      ensures Core(Current()) && ListsOk(Current()) && SameShape(old(Current()), Current())
      ensures spans == old(spans)[s := old(spans)[s].(inPartial := false, inEmpty := true)] && |shards| == |old(shards)|
      ensures forall k: nat :: k < |shards| ==>
                shards[k].emptySpanCount == old(shards)[k].emptySpanCount + if k == old(spans)[s].shard then 1 else 0
    {
      hide Core, ListsOk, SameShape;
      ghost var was := Current();
      SameShapeReflexive(was);
      if spans[s].inPartial {
        TakeOff(s, Partial);
        RefiledCore(was, Current(), s, Partial, false);
      }
      ghost var between := Current();
      if !spans[s].inEmpty {
        PutOn(s, Empty);
        RefiledCore(between, Current(), s, Empty, true);
        SameShapeTransitive(was, between, Current());
      }
    }

    /** Forgets the pages of a span, one after the other. */
    method UnregisterSpanPages(s: nat)
      requires Shaped(Current()) && s in live
      modifies `pages
      ensures pages == PagesWithout(old(Current()), s)
    {
      var span := spans[s];
      var i := 0;
      while i < span.pageCount
        invariant i <= span.pageCount
        invariant forall page: nat :: page in pages <==> page in old(pages) && !OnGrid(span.base, pageSize, i, page)
        invariant forall page :: page in pages ==> pages[page] == old(pages)[page]
      {
        hide OnGrid;
        forall page: nat
          ensures OnGrid(span.base, pageSize, i + 1, page)
                  <==> OnGrid(span.base, pageSize, i, page) || page == span.base + i * pageSize
        {
          OneMore(span.base, pageSize, i, page);
        }
        pages := pages - {span.base + i * pageSize};
        i := i + 1;
      }
    }

    /** Gives up a span none of whose blocks is handed out. */
    method ReleaseEmptySpan(s: nat)
      requires Inv(Current()) && s in live && s in spans && spans[s].inEmpty
      modifies this
      ensures Inv(Current()) && live == old(live) - {s} && out == old(out) && link == old(link) && free == old(free)
      ensures forall b: nat :: IsBlock(old(spans)[s], b) ==> b !in out
      ensures SameShape(old(Current()), Current()) && |shards| == |old(shards)| && spans == old(spans)[s := SPARE]
      ensures old(spans)[s].shard < |old(shards)| && old(shards)[old(spans)[s].shard].emptySpanCount > 0
      ensures forall k: nat :: k < |shards| ==>
                shards[k].emptySpanCount == old(shards)[k].emptySpanCount - if k == old(spans)[s].shard then 1 else 0
      ensures s == old(shards)[old(spans)[s].shard].emptySpans ==> FrontGone(old(empty), empty, old(spans)[s].shard)
    {
      hide Core, ListsOk, OnGrid, SameShape, PagesWithout, FrontGone;
      ghost var was := Current();
      LiveFacts(was, s);
      AllFree(was, s);
      TakeOff(s, Empty);
      ghost var unlisted := Current();
      RefiledCore(was, unlisted, s, Empty, false);
      CoreFacts(unlisted);
      UnregisterSpanPages(s);
      spans := spans[s := SPARE];
      live := live - {s};
      SameBlocks(was, unlisted, s);
      RetiredWhole(was, unlisted, s);
      assert Current() == Retire(unlisted, s);
    }

    /** Gives up empty spans, the first of the list first, until the shard keeps no more than it
        should; no other span is touched. */
    method TrimEmptySpans(k: nat)
      requires Inv(Current()) && k < |shards|
      modifies this
      ensures Inv(Current()) && out == old(out) && link == old(link) && SameShape(old(Current()), Current())
      ensures |shards| == |old(shards)| == |old(empty)|
      ensures forall j: nat :: j < |shards| ==>
                shards[j].emptySpanCount
                == if j == k then Min(MAX_RETAINED_EMPTY, old(shards)[j].emptySpanCount)
                   else old(shards)[j].emptySpanCount
      ensures empty == old(empty)[k := LastFew(old(empty)[k], MAX_RETAINED_EMPTY)]
      ensures forall s :: s in old(live) && s !in live ==> s in old(empty)[k] && s !in empty[k]
    {
      hide Core, ListsOk, OnGrid, SameShape;
      LiveFacts(Current(), 0);
      SameShapeReflexive(Current());
      CountsMatch(Current());
      assert old(empty)[k][0..] == old(empty)[k];
      ghost var given := 0;
      while shards[k].emptySpanCount > MAX_RETAINED_EMPTY
        invariant Inv(Current()) && out == old(out) && link == old(link) && SameShape(old(Current()), Current())
        invariant k < |shards| == |old(shards)| == |old(empty)|
        invariant forall j: nat :: j < |shards| && j != k ==> shards[j].emptySpanCount == old(shards)[j].emptySpanCount
        invariant 0 <= given <= |old(empty)[k]| && empty == old(empty)[k := old(empty)[k][given..]]
        invariant shards[k].emptySpanCount == |old(empty)[k]| - given
        invariant given == 0 || given + MAX_RETAINED_EMPTY <= |old(empty)[k]|
        invariant forall s :: s in old(live) && s !in live ==> s in old(empty)[k][..given]
        decreases shards[k].emptySpanCount
      {
        FirstEmpty(Current(), k);
        ghost var before := Current();
        assert old(empty)[k][given..][1..] == old(empty)[k][given + 1..];
        assert old(empty)[k][..given + 1] == old(empty)[k][..given] + [old(empty)[k][given]];
        ReleaseEmptySpan(shards[k].emptySpans);
        SameShapeTransitive(old(Current()), before, Current());
        given := given + 1;
      }
      GivenAreGone(old(Current()), k, given);
    }

    /** Applies one group and trims its shard. */
    method FlushGroup(g: Group, ghost list: seq<nat>)
      requires Valid() && GroupOk(Current(), g, list)
      modifies this
      ensures Valid() && out == old(out) - SetOf(list) && SameShape(old(Current()), Current())
      ensures forall b: nat :: b in old(link) && b != g.tail ==> b in link && link[b] == old(link)[b]
      ensures |shards| == |old(shards)| && g.span in old(spans)
      ensures forall k: nat :: k < |shards| ==>
                shards[k].emptySpanCount
                == if k == g.shard
                   then Min(MAX_RETAINED_EMPTY,
                            old(shards)[k].emptySpanCount + if NoneOut(old(spans)[g.span], out) then 1 else 0)
                   else old(shards)[k].emptySpanCount
    {
      hide Core, ListsOk, Batch, SetOf, SameShape, NoneOut;
      ghost var was := Current();
      LiveFacts(was, g.span);
      ApplyReturnedBatch(g.span, g.head, g.tail, g.count, list);
      ghost var applied := Current();
      SameShards(was, applied);
      TrimEmptySpans(g.shard);
      SameShapeTransitive(was, applied, Current());
    }

    /** Puts the first block of what is left into its span's group. */
    method CollectBlock(s: nat, b: nat, groups: seq<Group>, ghost lists: seq<seq<nat>>, k: nat, ghost rest: seq<nat>)
      returns (groups': seq<Group>, ghost lists': seq<seq<nat>>)
      requires Valid() && s in live && s in spans && IsBlock(spans[s], b)
      requires Pending(Current(), groups, lists, 0) && rest != [] && Unwalked(Current(), b, rest, lists)
      requires k <= |groups| && (k < |groups| ==> groups[k].span == s) && forall j :: 0 <= j < k ==> groups[j].span != s
      modifies `link
      ensures Valid() && b in old(link)
      ensures |groups'| == if k < |groups| then |groups| else |groups| + 1
      ensures Pending(Current(), groups', lists', 0) && Unwalked(Current(), old(link)[b], rest[1..], lists')
      ensures forall x: nat :: InSome(lists', 0, x) <==> x == b || InSome(lists, 0, x)
    {
      hide Core, AtRest, Pending, Unwalked, InSome, IsBlock;
      ghost var was := Current();
      Collected(was, s, b, groups, lists, k, rest);
      ListsWithSize(groups, lists, k, b, was);
      groups' := groups;
      if k == |groups| {
        groups' := groups' + [Group(s, 0, 0, 0, spans[s].shard)];
      }
      var g := groups'[k];
      link := link[b := g.head];
      groups' := groups'[k := Group(g.span, b, if g.tail == 0 then b else g.tail, g.count + 1, g.shard)];
      lists' := ListsWith(lists, k, b);
      assert groups' == GroupsWith(groups, k, s, spans[s].shard, b);
      assert Current() == Relinked(was, b, if k < |groups| then groups[k].head else 0);
    }

    /** Takes back the first `count` blocks of a chain that may run through any number of spans;
        `chain` lists the blocks linked from `head`. Any span object may serve as the hint. */
    method ReturnBatch(head: nat, count: nat, initialHint: nat, ghost chain: seq<nat>)
      requires Valid() && Chain(link, head, chain) && NoDuplicates(chain) && forall b: nat :: b in chain ==> b in out
      requires initialHint == 0 || initialHint in spans
      modifies this
      ensures Valid() && SameShape(old(Current()), Current())
      ensures out == old(out) - SetOf(chain[..Min(count, |chain|)])
      ensures forall s, b: nat :: s in old(live) && s in old(spans) && IsBlock(old(spans)[s], b) && b in out ==>
                s in live
      ensures forall k: nat :: k < |shards| ==>
                |IdleSpans(Current(), out, k)| == Min(MAX_RETAINED_EMPTY, |IdleSpans(old(Current()), out, k)|)
    {
      hide AtRest, SameShape, Chain, NoDuplicates, SetOf, WalkOk, FlushOk, IsBlock, Kept;
      ghost var was := Current();
      if head == 0 || count == 0 {
        NothingReturned(was, head, count, chain);
        Returned(was, was);
        return;
      }
      var groups: seq<Group> := [];
      ghost var lists: seq<seq<nat>> := [];
      ghost var flushed: set<nat> := {};
      var current, hint, i: nat := head, initialHint, 0;
      WalkStart(was, head, hint, chain);
      while i < count && current != 0
        invariant i <= count && WalkOk(was, Current(), chain, i, current, hint, groups, lists, flushed)
      {
        groups, current, hint, lists, flushed := WalkBlock(was, chain, i, current, hint, groups, lists, flushed);
        i := i + 1;
      }
      FlushStart(was, Current(), chain, i, current, hint, count, groups, lists, flushed);
      FlushGroups(was, chain[..i], groups, lists, flushed);
      Returned(was, Current());
    }

    method FlushGroups(ghost was: State, ghost walked: seq<nat>, groups: seq<Group>, ghost lists: seq<seq<nat>>,
                       ghost flushed: set<nat>)
      requires FlushOk(was, Current(), walked, groups, lists, 0, flushed)
      modifies this
      ensures Valid() && SameShape(was, Current()) && Kept(was, Current()) && out == was.out - SetOf(walked)
    {
      hide Core, SameShape, ListsOk, GroupOk, SetOf, Accounted, Kept;
      ghost var gone := flushed;
      var k: nat := 0;
      while k < |groups|
        invariant k <= |groups| && FlushOk(was, Current(), walked, groups, lists, k, gone)
      {
        ghost var before := Current();
        FlushGroup(groups[k], lists[k]);
        SameShapeTransitive(was, before, Current());
        GroupFlushed(before, Current(), groups, lists, k);
        KeptFlush(was, before, Current(), groups[k], lists[k]);
        AccountedFlush(walked, gone, lists, k);
        gone := gone + SetOf(lists[k]);
        k := k + 1;
      }
      FlushEnd(was, Current(), walked, groups, lists, gone);
    }

    /** One step of the walk: the next block joins its span's group, or goes home at once when
        it is of a ninth span. */
    method WalkBlock(ghost was: State, ghost chain: seq<nat>, ghost i: nat, current: nat, hint: nat,
                     groups: seq<Group>, ghost lists: seq<seq<nat>>, ghost flushed: set<nat>)
      returns (groups': seq<Group>, next: nat, hint': nat, ghost lists': seq<seq<nat>>, ghost flushed': set<nat>)
      requires WalkOk(was, Current(), chain, i, current, hint, groups, lists, flushed) && current != 0
      modifies this
      ensures WalkOk(was, Current(), chain, i + 1, next, hint', groups', lists', flushed')
    {
      hide Core, ListsOk, SameShape, Pending, SetOf, Accounted, InSome, IsBlock, Chain, NoDuplicates, Kept;
      ghost var before := Current();
      HeadOfRest(before, chain, i, current, lists);
      OwnerFound(before, current, hint);
      CoreFacts(before);
      next := link[current];
      var s := FindHinted(pageSize, pages, spans, current, hint, sizeClass);
      if s == 0 || spans[s].released {
        assert false;
      }
      hint', lists', flushed' := s, lists, flushed;
      var k := FindGroup(groups, s);
      if k == |groups| && |groups| == MAX_GROUPS {
        groups' := groups;
        SingleGroup(before, s, current);
        FlushGroup(Group(s, current, current, 1, spans[s].shard), [current]);
        SameShapeTransitive(was, before, Current());
        SameShards(before, Current());
        SingleFlushed(before, Current(), current, groups, lists, chain[i..]);
        KeptFlush(was, before, Current(), Group(s, current, current, 1, before.spans[s].shard), [current]);
        flushed' := flushed + {current};
      } else {
        groups', lists' := CollectBlock(s, current, groups, lists, k, chain[i..]);
        RelinkShape(before, Current());
        KeptStays(was, before, Current());
        SameShapeTransitive(was, before, Current());
      }
      AccountedNext(chain[..i], current, flushed, lists, flushed', lists');
    }

    // -------------------------------------------------------------------------
    // New spans
    // -------------------------------------------------------------------------

    /** Threads all blocks of a fresh stretch of memory into a list, the last block first. */
    method ThreadBlocks(base: nat) returns (head: nat, ghost list: seq<nat>)
      requires ClassFits(pageSize, info) && base > 0
      modifies `link
      ensures Chain(link, head, list) && NoDuplicates(list)
      ensures list == Descending(base, info.blockSize, info.blocksPerSpan)
      ensures forall b: nat :: b in list <==> OnGrid(base, info.blockSize, info.blocksPerSpan, b)
      ensures forall b :: b in old(link) && b !in list ==> b in link && link[b] == old(link)[b]
    {
      head, list := 0, [];
      var block, i: nat := base, 0;
      ThreadNone(link, base, info.blockSize);
      hide Threaded;
      while i < info.blocksPerSpan
        invariant i <= info.blocksPerSpan && block == base + i * info.blockSize
        invariant Threaded(old(link), link, head, list, base, info.blockSize, i)
        invariant list == Descending(base, info.blockSize, i)
      {
        GridGrows(base, info.blockSize, i, block);
        ThreadOne(old(link), link, head, list, base, info.blockSize, i, block);
        link := link[block := head];
        head, list := block, [block] + list;
        block := block + info.blockSize;
        i := i + 1;
      }
      AllThreaded(old(link), link, head, list, base, info.blockSize, i);
    }

    /** Enters the pages of a new span into the index. The index refuses the page numbered
        `failAt`, if there is one; then the pages entered so far are taken out again. */
    method RegisterSpanPages(s: nat, span: Span, failAt: nat) returns (ok: bool)
      requires pageSize > 0 && forall page :: page in pages ==> !IsPageOf(pageSize, span, page)
      modifies `pages
      ensures ok <==> span.pageCount <= failAt
      ensures pages == if ok then PagesWith(pageSize, old(pages), s, span) else old(pages)
    {
      hide OnGrid, PagesWith;
      var inserted: seq<nat> := [];
      var i: nat := 0;
      forall page: nat ensures !OnGrid(span.base, pageSize, 0, page) {
        OneMore(span.base, pageSize, 0, page);
      }
      while i < span.pageCount
        invariant i <= span.pageCount && i <= failAt
        invariant forall page: nat :: page in inserted <==> OnGrid(span.base, pageSize, i, page)
        invariant forall page: nat :: page in inserted ==> page !in old(pages)
        invariant forall page: nat :: page in pages <==> page in old(pages) || page in inserted
        invariant forall page: nat :: page in pages ==> pages[page] == if page in inserted then s else old(pages)[page]
      {
        if i == failAt {
          RollBack(inserted, old(pages));
          return false;
        }
        var page := span.base + i * pageSize;
        forall p: nat
          ensures OnGrid(span.base, pageSize, i + 1, p) <==> OnGrid(span.base, pageSize, i, p) || p == page
        {
          OneMore(span.base, pageSize, i, p);
        }
        assert page !in old(pages) by { FirstPages(pageSize, span, i, page); }
        pages := pages[page := s];
        inserted := inserted + [page];
        i := i + 1;
      }
      PagesWithIs(pageSize, old(pages), s, span);
      return true;
    }

    method RollBack(inserted: seq<nat>, ghost before: map<nat, nat>)
      requires forall page: nat :: page in pages <==> page in before || page in inserted
      requires forall page: nat :: page in inserted ==> page !in before
      requires forall page: nat :: page in before ==> page in pages && pages[page] == before[page]
      modifies `pages
      ensures pages == before
    {
      var j: nat := 0;
      while j < |inserted|
        invariant j <= |inserted|
        invariant forall page: nat :: page in pages ==> page in before || page in inserted[j..]
        invariant forall page: nat :: page in before ==> page in pages && pages[page] == before[page]
        invariant forall page: nat :: page in inserted ==> page !in before
      {
        assert inserted[j..] == [inserted[j]] + inserted[j + 1..];
        pages := pages - {inserted[j]};
        j := j + 1;
      }
    }

    method SetUpSpan(k: nat, grant: nat, spare: nat) returns (ghost list: seq<nat>)
      requires Core(Current()) && ClassFits(pageSize, info) && pageSize > 0
      requires Grantable(grant, spare) && grant != 0 && spare != 0
      modifies `link, `spans
      ensures spare in spans && spans[spare] == NewSpan(info, sizeClass, k, grant, spans[spare].freeList)
      ensures spans == old(spans)[spare := spans[spare]]
      ensures list == Descending(grant, info.blockSize, info.blocksPerSpan)
      ensures Adoptable(old(Current()), spare, spans[spare], link, list) && NoneOut(spans[spare], out)
      ensures forall page :: page in pages ==> !IsPageOf(pageSize, spans[spare], page)
    {
      hide Core, OnGrid, Adoptable, Chain, NoDuplicates, IsBlock, WellShaped;
      ghost var was := Current();
      CoreFacts(was);
      var head;
      head, list := ThreadBlocks(grant);
      spans := spans[spare := NewSpan(info, sizeClass, k, grant, head)];
      NewSpanAdoptable(was, spare, info, k, grant, link, head, list);
      AdoptableFacts(was, spare, spans[spare], link, list);
    }

    /** Sets a span object up over granted pages and enters it into the index, or undoes that. */
    method OpenSpan(k: nat, grant: nat, spare: nat, failAt: nat) returns (ok: bool)
      requires Inv(Current()) && ClassFits(pageSize, info) && k < |shards|
      requires Grantable(grant, spare) && grant != 0 && spare != 0
      modifies `link, `spans, `pages, `live, `free
      ensures ok <==> info.pagesPerSpan <= failAt
      ensures !ok ==> Inv(Current()) && live == old(live) && pages == old(pages) && free == old(free)
      ensures ok ==> Core(Current()) && ListsOk(Current())
      ensures ok ==> live == old(live) + {spare} && spare in spans && live <= spans.Keys
      ensures ok ==> spans[spare] == NewSpan(info, sizeClass, k, grant, spans[spare].freeList)
      ensures ok ==> NoneOut(spans[spare], out)
      ensures ok ==> info.blocksPerSpan > 0 && forall t :: t in live && t != spare ==> FlagsOk(spans[t])
      ensures ok ==> spare in free && free[spare] == Descending(grant, info.blockSize, info.blocksPerSpan)
    {
      hide Core, ListsOk, OnGrid, PagesWith, Adoptable, Chain, NoDuplicates, IsBlock, WellShaped, FlagsOk;
      ghost var was := Current();
      ghost var list := SetUpSpan(k, grant, spare);
      var span := spans[spare];
      ok := RegisterSpanPages(spare, span, failAt);
      if ok {
        live := live + {spare};
        free := free[spare := list];
        Adopted(was, spare, span, link, list);
        assert Current() == Adopt(was, spare, span, link, list);
      } else {
        spans := spans[spare := SPARE];
        FailedAllocation(was, spare, span, link, list);
        assert Current() == was.(link := link, spans := was.spans[spare := SPARE]);
      }
    }

    /** Takes pages for one more span and puts it among the empty ones. `grant` is the address of
        the pages the page allocator gives, or null; `spare` a spare span object, or null. */
    method AllocateSpan(k: nat, grant: nat, spare: nat, failAt: nat) returns (s: nat)
      requires Inv(Current()) && ClassFits(pageSize, info) && k < |shards|
      requires Grantable(grant, spare)
      modifies this
      ensures Inv(Current()) && out == old(out) && |shards| == |old(shards)|
      ensures s == if grant == 0 || spare == 0 || failAt < info.pagesPerSpan then 0 else spare
      ensures s == 0 ==> live == old(live) && pages == old(pages) && shards == old(shards) && free == old(free)
      ensures s != 0 ==> live == old(live) + {s} && s in spans
      ensures s != 0 ==> spans[s].inEmpty && spans[s].shard == k && spans[s].base == grant
      ensures s != 0 ==> NoneOut(spans[s], out) && s in free
      ensures s != 0 ==> free[s] == Descending(grant, info.blockSize, info.blocksPerSpan)
      ensures forall j: nat :: j < |shards| ==>
                shards[j].emptySpanCount == old(shards)[j].emptySpanCount + if s != 0 && j == k then 1 else 0
    {
      hide Core, ListsOk, OnGrid, NoneOut;
      s := 0;
      if grant != 0 && spare != 0 {
        var ok := OpenSpan(k, grant, spare, failAt);
        if ok {
          ghost var fitted := Current();
          PutOn(spare, Empty);
          RefiledCore(fitted, Current(), spare, Empty, true);
          StillFree(fitted.spans[spare], Empty, true, out);
          s := spare;
        }
      }
    }

    // -------------------------------------------------------------------------
    // Handing blocks out
    // -------------------------------------------------------------------------

    method PopBlock(s: nat) returns (b: nat)
      requires Core(Current()) && ListsOk(Current()) && s in live && s in spans && s in free
      modifies `spans, `free, `out
      ensures Core(Current()) && ListsOk(Current())
      ensures b == 0 <==> old(free)[s] == []
      ensures b == 0 ==> Current() == old(Current())
      ensures b != 0 ==> free == old(free)[s := old(free)[s][1..]] && b == old(free)[s][0] && out == old(out) + {b}
      ensures b != 0 ==> old(spans)[s].freeBlocks > 0
      ensures b != 0 ==> spans == old(spans)[s := old(spans)[s].(freeList := spans[s].freeList,
                                                                 freeBlocks := old(spans)[s].freeBlocks - 1)]
    {
      hide Core, ListsOk;
      ghost var was := Current();
      NoneFree(was, s);
      if spans[s].freeList == 0 {
        return 0;
      }
      TakeKeepsCore(was, s);
      TakeKeepsLists(was, s);
      b := spans[s].freeList;
      spans := spans[s := spans[s].(freeList := link[b], freeBlocks := spans[s].freeBlocks - 1)];
      free := free[s := free[s][1..]];
      out := out + {b};
      assert Current() == Take(was, s);
    }

    /** Pops blocks until there are `max` of them or none is left. */
    method PopBlocks(s: nat, max: nat) returns (blocks: seq<nat>)
      requires Core(Current()) && ListsOk(Current()) && s in live && s in spans && s in free
      modifies `spans, `free, `out
      ensures Core(Current()) && ListsOk(Current()) && s in free && blocks + free[s] == old(free)[s]
      ensures |blocks| == Min(max, |old(free)[s]|) && out == old(out) + SetOf(blocks)
      ensures |blocks| <= old(spans)[s].freeBlocks
      ensures spans == old(spans)[s := old(spans)[s].(freeList := spans[s].freeList,
                                                      freeBlocks := old(spans)[s].freeBlocks - |blocks|)]
      ensures s in spans && spans[s].freeBlocks == |free[s]|
    {
      hide Core, ListsOk, SetOf;
      blocks := [];
      assert SetOf([]) == {} by { SetOfMembers([]); }
      while |blocks| < max
        invariant Core(Current()) && ListsOk(Current()) && s in spans && s in free
        invariant blocks + free[s] == old(free)[s] && out == old(out) + SetOf(blocks) && |blocks| <= max
        invariant |blocks| <= old(spans)[s].freeBlocks
        invariant spans == old(spans)[s := old(spans)[s].(freeList := spans[s].freeList,
                                                          freeBlocks := old(spans)[s].freeBlocks - |blocks|)]
      {
        ghost var left := free[s];
        var b := PopBlock(s);
        if b == 0 {
          break;
        }
        OneMovedOver(blocks, left, old(free)[s]);
        SetOfLonger(blocks, b);
        blocks := blocks + [b];
      }
      FreeCount(Current(), s);
    }

    /** An empty span that is about to lose blocks goes over to the partly free ones. */
    method MoveToPartial(s: nat)
      requires Inv(Current()) && s in live && s in spans && (spans[s].inPartial || spans[s].inEmpty)
      modifies `links, `spans, `shards, `partial, `empty
      ensures Core(Current()) && ListsOk(Current()) && |shards| == |old(shards)|
      ensures spans == old(spans)[s := old(spans)[s].(inPartial := true, inEmpty := false)]
      ensures forall j: nat :: j < |shards| ==> shards[j].emptySpanCount <= old(shards)[j].emptySpanCount
    {
      hide Core, ListsOk, Shaped, Indexed;
      LiveFacts(Current(), s);
      if spans[s].inEmpty {
        ghost var before := Current();
        TakeOff(s, Empty);
        RefiledCore(before, Current(), s, Empty, false);
      }
      if !spans[s].inPartial {
        ghost var before := Current();
        PutOn(s, Partial);
        RefiledCore(before, Current(), s, Partial, true);
      }
    }

    /** Hands out up to `max` blocks of a span that has some. */
    method ServeSpan(s: nat, max: nat) returns (blocks: seq<nat>)
      requires Inv(Current()) && s in live && s in spans && (spans[s].inPartial || spans[s].inEmpty) && max > 0
      modifies this
      ensures Inv(Current()) && live == old(live) && link == old(link) && pages == old(pages) && s in old(free)
      ensures |blocks| == Min(max, |old(free)[s]|) && blocks != [] && blocks == old(free)[s][..|blocks|]
      ensures out == old(out) + SetOf(blocks) && s in spans && |shards| == |old(shards)|
      ensures spans[s].base == old(spans)[s].base && spans[s].blockSize == old(spans)[s].blockSize
      ensures spans[s].totalBlocks == old(spans)[s].totalBlocks
      ensures forall j: nat :: j < |shards| ==> shards[j].emptySpanCount <= old(shards)[j].emptySpanCount
    {
      hide Core, ListsOk, SetOf, NoneOut, Shaped, Indexed;
      LiveFacts(Current(), s);
      FreeCount(Current(), s);
      AllFree(Current(), s);
      MoveToPartial(s);
      blocks := PopBlocks(s, max);
      if spans[s].freeBlocks == 0 && spans[s].inPartial {
        ghost var before := Current();
        TakeOff(s, Partial);
        RefiledCore(before, Current(), s, Partial, false);
      }
    }

    /** Hands out up to `max` blocks from shard `k`: of its first partly free span, else of its
        first empty one, else of a new one. `s` is the span they are from. */
    method FetchBatch(k: nat, max: nat, grant: nat, spare: nat, failAt: nat) returns (blocks: seq<nat>, s: nat)
      requires Valid() && ClassFits(pageSize, info) && k < |shards| && Grantable(grant, spare)
      modifies this
      ensures Valid() && |shards| == |old(shards)|
      ensures out == old(out) + SetOf(blocks) && NoDuplicates(blocks) && |blocks| <= max
      ensures forall b: nat :: b in blocks ==> b !in old(out) && b != 0 && s in spans && IsBlock(spans[s], b)
      ensures blocks == [] <==> s == 0
      ensures max > 0 && old(shards)[k].partialSpans != 0 ==> s == old(shards)[k].partialSpans
      ensures max > 0 && old(shards)[k].partialSpans == 0 && old(shards)[k].emptySpans != 0 ==>
                s == old(shards)[k].emptySpans
      ensures max > 0 && old(shards)[k].partialSpans == old(shards)[k].emptySpans == 0 ==>
                s == if grant == 0 || failAt < info.pagesPerSpan then 0 else spare
      ensures live == if s == 0 then old(live) else old(live) + {s}
      ensures s in old(live) && s in old(free) ==> blocks == old(free)[s][..Min(max, |old(free)[s]|)]
      ensures s != 0 && s !in old(live) ==>
                blocks == Descending(grant, info.blockSize, info.blocksPerSpan)[..Min(max, info.blocksPerSpan)]
    {
      hide Core, ListsOk, SetOf, OnGrid, IsBlock;
      assert SetOf([]) == {} by { SetOfMembers([]); }
      if max == 0 {
        return [], 0;
      }
      ghost var was := Current();
      LiveFacts(was, 0);
      FirstListed(was, k);
      s := shards[k].partialSpans;
      if s == 0 {
        s := shards[k].emptySpans;
      }
      if s == 0 {
        s := AllocateSpan(k, grant, spare, failAt);
        if s == 0 {
          return [], 0;
        }
      }
      ghost var before := Current();
      LiveFacts(before, s);
      blocks := ServeSpan(s, max);
      Served(before, Current(), s, blocks);
    }
  }

  // ---------------------------------------------------------------------------
  // Whole runs
  // ---------------------------------------------------------------------------

  /** What a client may ask for: a batch, or taking back some of the blocks it holds, in any
      order and with any span object as a hint. */
  datatype Request =
    | Fetch(shard: nat, max: nat, grant: nat, spare: nat, failAt: nat)
    | Return(picks: seq<nat>, hint: nat)

  /** Whether pages and span object are free for use. */
  method Available(pool: CentralPool, grant: nat, spare: nat) returns (ok: bool)
    requires pool.Valid() && ClassFits(pool.pageSize, pool.info)
    ensures ok ==> pool.Grantable(grant, spare)
  {
    hide OnGrid, Indexed, BlocksOk, ListsOk;
    if grant % pool.pageSize != 0 || (spare in pool.spans && pool.spans[spare] != SPARE) {
      return false;
    }
    SpareIsFree(pool.Current(), spare);
    var i: nat := 0;
    forall page: nat ensures !OnGrid(grant, pool.pageSize, 0, page) {
      OneMore(grant, pool.pageSize, 0, page);
    }
    while i < pool.info.pagesPerSpan
      invariant i <= pool.info.pagesPerSpan
      invariant forall page: nat :: page in pool.pages ==> !OnGrid(grant, pool.pageSize, i, page)
    {
      GridGrows(grant, pool.pageSize, i, grant + i * pool.pageSize);
      if grant + i * pool.pageSize in pool.pages {
        return false;
      }
      i := i + 1;
    }
    return true;
  }

  /** The client links blocks it holds into a chain. */
  method LinkUp(pool: CentralPool, picks: seq<nat>) returns (head: nat)
    requires pool.Valid() && NoDuplicates(picks) && forall b: nat :: b in picks ==> b in pool.out
    modifies pool`link
    ensures pool.Valid() && Chain(pool.link, head, picks)
  {
    hide Core, ListsOk, AtRest, Chain;
    head := 0;
    var i := |picks|;
    ChainNone(pool.link);
    assert picks[i..] == [];
    while i > 0
      invariant 0 <= i <= |picks| && pool.Valid() && Chain(pool.link, head, picks[i..])
    {
      i := i - 1;
      var b := picks[i];
      assert picks[i..] == [b] + picks[i + 1..];
      OutIsBlock(pool.Current(), b);
      RelinkKeepsRest(pool.Current(), b, head);
      ChainPushed(pool.link, head, picks[i + 1..], b);
      ghost var before := pool.Current();
      pool.link := pool.link[b := head];
      assert pool.Current() == Relinked(before, b, head);
      head := b;
    }
    assert picks[0..] == picks;
  }

  /** After any run the client holds exactly the blocks that are out, and every block of every
      live span is either held or on that span's free list, never both. */
  method Run(pool: CentralPool, requests: seq<Request>) returns (held: set<nat>)
    requires pool.Valid() && ClassFits(pool.pageSize, pool.info) && pool.out == {}
    modifies pool
    ensures pool.Valid() && held == pool.out
    ensures forall b: nat :: b in held ==> exists s :: s in pool.live && s in pool.spans && IsBlock(pool.spans[s], b)
    ensures forall s, b: nat :: s in pool.live && s in pool.spans && s in pool.free && IsBlock(pool.spans[s], b)
              ==> (b in held <==> b !in pool.free[s])
  {
    hide AtRest, SetOf, OnGrid, IsBlock;
    held := {};
    var i := 0;
    while i < |requests|
      invariant i <= |requests| && pool.Valid() && held == pool.out
    {
      match requests[i] {
        case Fetch(shard, max, grant, spare, failAt) =>
          if shard < |pool.shards| {
            var ok := Available(pool, grant, spare);
            if ok {
              var blocks, _ := pool.FetchBatch(shard, max, grant, spare, failAt);
              held := held + SetOf(blocks);
            }
          }
        case Return(picks, hint) =>
          if NoDuplicates(picks) && (forall b | b in picks :: b in held) && (hint == 0 || hint in pool.spans) {
            var head := LinkUp(pool, picks);
            pool.ReturnBatch(head, |picks|, hint, picks);
            assert picks[..Min(|picks|, |picks|)] == picks;
            held := held - SetOf(picks);
          }
      }
      i := i + 1;
    }
    HeldOrFree(pool.Current());
  }

  lemma FirstPages(pageSize: nat, span: Span, i: nat, page: nat)
    requires pageSize > 0 && i < span.pageCount && page == span.base + i * pageSize
    ensures IsPageOf(pageSize, span, page)
  {
    MultipleOf(pageSize, i);
    ProductGrows(i + 1, span.pageCount, pageSize);
    assert (i + 1) * pageSize == i * pageSize + pageSize;
  }
}
