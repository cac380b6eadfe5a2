/** What handing out blocks does to a central pool: new spans, and blocks popped off a span. */
module CentralFetch {
  import opened IntrusiveLists
  import opened CentralState
  import opened CentralSteps
  import opened Numbers
  import opened Sequences

  // ---------------------------------------------------------------------------
  // Size classes
  // ---------------------------------------------------------------------------

  datatype SizeClass = SizeClass(blockSize: nat, blocksPerSpan: nat, pagesPerSpan: nat)

  const MAX_ALIGN: nat := 16
  const LARGEST_BLOCK: nat := 262144

  function Clamp(a: nat): nat { if a > MAX_UINT16 then MAX_UINT16 else a }

  function BuildSizeClass(pageSize: nat, size: nat): SizeClass
    requires pageSize > 0 && size > 0
  {
    var aligned := AlignUp(size, MAX_ALIGN);
    var blocks := Max(32, Cut(1, if aligned <= 4096 then 128 * 1024 else 256 * 1024, aligned));
    var pageCount := Max(1, Cut(1, AlignUp(blocks * aligned, pageSize), pageSize));
    SizeClass(aligned, Clamp(Cut(pageCount, pageSize, aligned)), Clamp(pageCount))
  }

  predicate ClassFits(pageSize: nat, c: SizeClass) {
    pageSize > 0 && c.blockSize > 0 && c.blocksPerSpan > 0 && c.blockSize * c.blocksPerSpan <= c.pagesPerSpan * pageSize
  }

  /** At the page sizes of actual systems every size class cuts its spans into at least 32
      blocks that fit its pages. */
  lemma BuildSizeClassFits(pageSize: nat, size: nat)
    requires 4096 <= pageSize && 0 < size <= LARGEST_BLOCK
    ensures var c := BuildSizeClass(pageSize, size);
            ClassFits(pageSize, c) && size <= c.blockSize < size + MAX_ALIGN && 32 <= c.blocksPerSpan <= MAX_UINT16
  {
    var aligned := AlignUp(size, MAX_ALIGN);
    var target := if aligned <= 4096 then 128 * 1024 else 256 * 1024;
    var blocks := Max(32, Cut(1, target, aligned));
    FirstBlocks(target, aligned);
    PagesFit(pageSize, blocks * aligned);
    hide AlignUp, Cut;
    var pageCount := Max(1, Cut(1, AlignUp(blocks * aligned, pageSize), pageSize));
    Refit(pageCount, pageSize, aligned, blocks);
  }

  /** A size class wants its blocks to come to 128 or 256 kibibytes and to be 32 at least. It has the
      fewest pages that hold as many, and then as many blocks as its pages hold and 16 bits count. */
  lemma SizeClassIsTight(pageSize: nat, size: nat)
    requires 4096 <= pageSize && 0 < size <= LARGEST_BLOCK
    ensures var c := BuildSizeClass(pageSize, size);
            var n, bytes := c.blocksPerSpan, c.pagesPerSpan * pageSize;
            c.blockSize > 0 && c.blockSize % 16 == 0 && (n == MAX_UINT16 || (n + 1) * c.blockSize > bytes)
    ensures var c := BuildSizeClass(pageSize, size);
            var wanted := Max(32, (if c.blockSize <= 4096 then 131072 else 262144) / c.blockSize) * c.blockSize;
            wanted <= c.pagesPerSpan * pageSize < wanted + pageSize
  {
    var aligned := AlignUp(size, MAX_ALIGN);
    var target := if aligned <= 4096 then 128 * 1024 else 256 * 1024;
    var bytes := Max(32, Cut(1, target, aligned)) * aligned;
    FirstBlocks(target, aligned);
    assert Cut(1, target, aligned) == target / aligned;
    PagesFit(pageSize, bytes);
    WholeUnits(size, MAX_ALIGN);
    WholeUnits(bytes, pageSize);
    hide AlignUp;
    var pageCount := Cut(1, AlignUp(bytes, pageSize), pageSize);
    FullUpTo(pageCount * pageSize, aligned);
  }

  lemma FullUpTo(bytes: nat, size: nat)
    requires size > 0
    ensures Clamp(bytes / size) == MAX_UINT16 || (Clamp(bytes / size) + 1) * size > bytes
  {
    QuotientBounds(bytes, size);
    ProductStep(bytes / size, size);
  }

  lemma WholeUnits(value: nat, unit: nat)
    requires unit > 0
    ensures AlignUp(value, unit) % unit == 0 && Cut(1, AlignUp(value, unit), unit) * unit == AlignUp(value, unit)
  {
    var q := (value + unit - 1) / unit;
    DivisionIs(q * unit, unit, q, 0);
  }

  lemma FirstBlocks(target: nat, aligned: nat)
    requires 0 < aligned < LARGEST_BLOCK + MAX_ALIGN && target <= LARGEST_BLOCK
    ensures 0 < Max(32, Cut(1, target, aligned)) * aligned <= 32 * (LARGEST_BLOCK + MAX_ALIGN)
  {
    QuotientBounds(target, aligned);
    ProductGrows(1, Max(32, Cut(1, target, aligned)), aligned);
  }

  lemma Refit(pageCount: nat, pageSize: nat, aligned: nat, blocks: nat)
    requires aligned > 0 && blocks * aligned <= pageCount * pageSize && 32 <= blocks
    ensures 32 <= Clamp(Cut(pageCount, pageSize, aligned))
    ensures aligned * Clamp(Cut(pageCount, pageSize, aligned)) <= pageCount * pageSize
  {
    var cut := Cut(pageCount, pageSize, aligned);
    QuotientBounds(pageCount * pageSize, aligned);
    AtLeast(pageCount * pageSize, aligned, blocks);
    ProductGrows(Clamp(cut), cut, aligned);
  }

  /** Rounding up to whole pages, in a 16-bit number of pages. */
  lemma PagesFit(pageSize: nat, bytes: nat)
    requires 4096 <= pageSize && 0 < bytes <= 32 * (LARGEST_BLOCK + MAX_ALIGN)
    ensures var n := Cut(1, AlignUp(bytes, pageSize), pageSize);
            1 <= n <= MAX_UINT16 && bytes <= n * pageSize
  {
    var q := (bytes + pageSize - 1) / pageSize;
    DivisionIs(q * pageSize, pageSize, q, 0);
    QuotientBounds(bytes + pageSize - 1, pageSize);
    assert q * pageSize < MAX_UINT16 * 4096 + pageSize;
    ProductGrows(4096, pageSize, MAX_UINT16);
    assert MAX_UINT16 * pageSize + pageSize == (MAX_UINT16 + 1) * pageSize;
    LessByProduct(q, MAX_UINT16 + 1, pageSize);
  }

  // ---------------------------------------------------------------------------
  // New spans
  // ---------------------------------------------------------------------------

  function NewSpan(c: SizeClass, sizeClass: nat, shard: nat, base: nat, head: nat): Span {
    Span(c.blockSize, c.blocksPerSpan, c.blocksPerSpan, sizeClass, shard, head, base, c.pagesPerSpan,
         false, false, false)
  }

  lemma NewSpanShaped(pageSize: nat, c: SizeClass, sizeClass: nat, shard: nat, base: nat, head: nat)
    requires ClassFits(pageSize, c) && sizeClass < INVALID_CLASS && base > 0 && base % pageSize == 0
    ensures var s := NewSpan(c, sizeClass, shard, base, head);
            WellShaped(pageSize, s) && forall b: nat :: IsBlock(s, b) <==> OnGrid(base, c.blockSize, c.blocksPerSpan, b)
  {
    ProductGrows(1, c.blockSize, c.blocksPerSpan);
    assert c.pagesPerSpan > 0;
    var s := NewSpan(c, sizeClass, shard, base, head);
    assert s.totalBlocks * s.blockSize == s.blockSize * s.totalBlocks;
  }

  /** The first `n` blocks from `base` have been threaded into a list. */
  ghost predicate Threaded(before: map<nat, nat>, link: map<nat, nat>, head: nat, list: seq<nat>, base: nat, size: nat,
                           n: nat)
    requires size > 0
  {
    && Chain(link, head, list) && NoDuplicates(list) && |list| == n
    && (forall b: nat :: b in list <==> OnGrid(base, size, n, b))
    && (forall b :: b in before && b !in list ==> b in link && link[b] == before[b])
  }

  /** The first `n` blocks from `base`, the last first. */
  function Descending(base: nat, size: nat, n: nat): (list: seq<nat>)
    ensures |list| == n
  {
    if n == 0 then [] else [base + (n - 1) * size] + Descending(base, size, n - 1)
  }

  lemma {:induction false} DescendingAt(base: nat, size: nat, n: nat, i: nat)
    requires i < n
    ensures Descending(base, size, n)[i] == base + (n - 1 - i) * size
  {
    if i > 0 {
      DescendingAt(base, size, n - 1, i - 1);
    }
  }

  lemma ThreadNone(link: map<nat, nat>, base: nat, size: nat)
    requires size > 0
    ensures Threaded(link, link, 0, [], base, size, 0)
  {
    hide OnGrid;
    forall b: nat ensures !OnGrid(base, size, 0, b) {
      OneMore(base, size, 0, b);
    }
  }

  lemma GridGrows(base: nat, size: nat, i: nat, block: nat)
    requires size > 0 && block == base + i * size
    ensures block + size == base + (i + 1) * size
    ensures forall b: nat :: OnGrid(base, size, i + 1, b) <==> OnGrid(base, size, i, b) || b == block
    ensures !OnGrid(base, size, i, block)
  {
    hide OnGrid;
    assert (i + 1) * size == i * size + size;
    OneMore(base, size, i, block);
    forall b: nat ensures OnGrid(base, size, i + 1, b) <==> OnGrid(base, size, i, b) || b == block {
      OneMore(base, size, i, b);
    }
  }

  lemma ThreadOne(before: map<nat, nat>, link: map<nat, nat>, head: nat, list: seq<nat>, base: nat, size: nat, i: nat,
                  block: nat)
    requires size > 0 && block != 0 && Threaded(before, link, head, list, base, size, i)
    requires forall b: nat :: OnGrid(base, size, i + 1, b) <==> OnGrid(base, size, i, b) || b == block
    requires !OnGrid(base, size, i, block)
    ensures Threaded(before, link[block := head], block, [block] + list, base, size, i + 1)
  {
    hide OnGrid, Chain;
    ChainPushed(link, head, list, block);
  }

  lemma AllThreaded(before: map<nat, nat>, link: map<nat, nat>, head: nat, list: seq<nat>, base: nat, size: nat, n: nat)
    requires size > 0 && Threaded(before, link, head, list, base, size, n)
    ensures Chain(link, head, list) && NoDuplicates(list) && |list| == n
    ensures forall b: nat :: b in list <==> OnGrid(base, size, n, b)
    ensures forall b :: b in before && b !in list ==> b in link && link[b] == before[b]
  {
  }

  lemma NewSpanAdoptable(st: State, s: nat, c: SizeClass, shard: nat, base: nat, link: map<nat, nat>, head: nat,
                         list: seq<nat>)
    requires Shaped(st) && ClassFits(st.pageSize, c) && base > 0 && base % st.pageSize == 0
    requires s != 0 && s !in st.live + st.foreign
    requires forall page :: page in st.pages ==> !OnGrid(base, st.pageSize, c.pagesPerSpan, page)
    requires Chain(link, head, list) && NoDuplicates(list) && |list| == c.blocksPerSpan
    requires forall b: nat :: b in list <==> OnGrid(base, c.blockSize, c.blocksPerSpan, b)
    requires forall b :: b in st.link && b !in list ==> b in link && link[b] == st.link[b]
    ensures Adoptable(st, s, NewSpan(c, st.sizeClass, shard, base, head), link, list)
  {
    NewSpanShaped(st.pageSize, c, st.sizeClass, shard, base, head);
    hide Chain, NoDuplicates, OnGrid, IsBlock, WellShaped;
  }

  lemma StillFree(s: Span, which: Which, flag: bool, out: set<nat>)
    requires NoneOut(s, out)
    ensures NoneOut(WithFlag(s, which, flag), out)
  {
    hide OnGrid;
    var s' := WithFlag(s, which, flag);
    forall b: nat | IsBlock(s', b) ensures b !in out {
      assert IsBlock(s, b);
    }
  }

  lemma AdoptKeepsLists(st: State, s: nat, span: Span, link: map<nat, nat>, list: seq<nat>)
    requires ListsOk(st) && st.pageSize > 0 && s !in st.live && !span.inPartial && !span.inEmpty
    requires span.shard < |st.shards|
    ensures ListsOk(Adopt(st, s, span, link, list))
  {
    hide DoubleChain, NoDuplicates, PagesWith;
    var st' := Adopt(st, s, span, link, list);
    forall k: nat | k < |st'.shards| ensures ShardOk(st', k) {
      assert ShardOk(st, k);
    }
  }

  /** A span object that was set up and given back leaves the pool as it was. */
  lemma FailedAllocation(st: State, s: nat, span: Span, link: map<nat, nat>, list: seq<nat>)
    requires Inv(st) && Adoptable(st, s, span, link, list)
    ensures Inv(st.(link := link, spans := st.spans[s := SPARE]))
  {
    hide Core, DoubleChain, NoDuplicates, Adoptable, FlagsOk;
    var st' := st.(link := link, spans := st.spans[s := SPARE]);
    FailedCore(st, s, span, link, list);
    forall k: nat | k < |st'.shards| ensures ShardOk(st', k) {
      assert ShardOk(st, k);
    }
  }

  lemma FailedCore(st: State, s: nat, span: Span, link: map<nat, nat>, list: seq<nat>)
    requires Core(st) && Adoptable(st, s, span, link, list)
    ensures s !in st.live && st.live <= st.spans.Keys && Core(st.(link := link, spans := st.spans[s := SPARE]))
  {
    var st' := st.(link := link, spans := st.spans[s := SPARE]);
    forall t | t in st'.live ensures SpanBlocksOk(st', t) {
      assert SpanBlocksOk(st, t);
      OtherChainKept(st, s, span, link, list, t);
    }
    hide OnGrid, Covers, WellShaped, SpanBlocksOk;
    forall x | x in st'.out ensures exists t :: t in st'.live && IsBlock(st'.spans[t], x) {
      var t :| t in st.live && IsBlock(st.spans[t], x);
      assert IsBlock(st'.spans[t], x);
    }
  }

  /** The whole of adopting a new span, but for the list it is put on. */
  lemma Adopted(st: State, s: nat, span: Span, link: map<nat, nat>, list: seq<nat>)
    requires Inv(st) && Adoptable(st, s, span, link, list)
    requires !span.inPartial && !span.inEmpty && span.shard < |st.shards| && span.freeBlocks == span.totalBlocks
    ensures var st' := Adopt(st, s, span, link, list);
            && Core(st') && ListsOk(st')
            && forall t :: t in st'.live && t != s && t in st'.spans ==> FlagsOk(st'.spans[t])
    ensures s !in st.live && span.totalBlocks > 0 && st.live <= st.spans.Keys
  {
    AdoptKeepsCore(st, s, span, link, list);
    assert s !in st.live && span.totalBlocks > 0;
    AdoptKeepsLists(st, s, span, link, list);
    assert st.live <= st.spans.Keys;
    hide Core, ListsOk, Adoptable, PagesWith;
  }

  // ---------------------------------------------------------------------------
  // Popping blocks
  // ---------------------------------------------------------------------------

  lemma TakeKeepsLists(st: State, s: nat)
    requires ListsOk(st) && s in st.spans && s in st.free && st.free[s] != [] && st.free[s][0] in st.link
    requires st.spans[s].freeBlocks > 0
    ensures ListsOk(Take(st, s))
  {
    hide DoubleChain, NoDuplicates;
    var st' := Take(st, s);
    forall k: nat | k < |st'.shards| ensures ShardOk(st', k) {
      assert ShardOk(st, k);
    }
  }

  lemma InLink(link: map<nat, nat>, head: nat, list: seq<nat>)
    requires Chain(link, head, list)
    ensures forall b :: b in list ==> b in link
  {
  }

  lemma ShardUndisturbed(st: State, st': State, k: nat)
    requires ListsOk(st) && k < |st.shards|
    requires st' == st.(spans := st'.spans, pages := st'.pages, foreign := st'.foreign, link := st'.link,
                        links := st'.links)
    requires forall s :: s in st.live ==> s in st.spans && s in st'.spans && st'.spans[s] == st.spans[s]
    requires forall s :: s in st.live && s in st.links ==> s in st'.links && st'.links[s] == st.links[s]
    ensures ShardOk(st', k)
  {
    assert ShardOk(st, k);
    hide DoubleChain, NoDuplicates;
    forall which
      ensures DoubleChain(st'.links, Head(st.shards[k], which), Listed(st, which, k))
    {
      forall s | s in Listed(st, which, k) ensures s in st'.links && (s in st.links ==> st'.links[s] == st.links[s]) {
        InChain(st.links, Head(st.shards[k], which), Listed(st, which, k), s);
      }
      DoubleChainKept(st.links, st'.links, Head(st.shards[k], which), Listed(st, which, k));
    }
    assert DoubleChain(st'.links, Head(st.shards[k], Partial), Listed(st, Partial, k));
    assert DoubleChain(st'.links, Head(st.shards[k], Empty), Listed(st, Empty, k));
  }

  /** What another size class does with its own spans, the pages and its own memory leaves this
      class's pool at rest. */
  lemma OtherClassesDoNotDisturb(st: State, st': State)
    requires AtRest(st) && Shaped(st') && Indexed(st')
    requires st' == st.(spans := st'.spans, pages := st'.pages, foreign := st'.foreign, link := st'.link,
                        links := st'.links)
    requires forall s :: s in st.live ==> s in st'.spans && st'.spans[s] == st.spans[s]
    requires forall s :: s in st.live && s in st.links ==> s in st'.links && st'.links[s] == st.links[s]
    requires forall s, b: nat :: s in st.live && s in st.spans && IsBlock(st.spans[s], b) && b in st.link
               ==> b in st'.link && st'.link[b] == st.link[b]
    ensures AtRest(st')
  {
    hide OnGrid, Covers, WellShaped, Indexed, DoubleChain;
    forall s | s in st'.live ensures SpanBlocksOk(st', s) {
      assert SpanBlocksOk(st, s);
      InLink(st.link, st.spans[s].freeList, st.free[s]);
      ChainKept(st.link, st'.link, st.spans[s].freeList, st.free[s]);
    }
    hide Chain, NoDuplicates, SpanBlocksOk;
    forall x | x in st'.out ensures exists t :: t in st'.live && IsBlock(st'.spans[t], x) {
      var t :| t in st.live && IsBlock(st.spans[t], x);
      assert IsBlock(st'.spans[t], x);
    }
    forall k: nat | k < |st'.shards| ensures ShardOk(st', k) {
      ShardUndisturbed(st, st', k);
    }
  }
}
