/** The central pool of one size class: spans cut into blocks, the shards' lists of partly and
    wholly free spans, and the index from pages to the spans of all classes. */
module CentralState {
  import opened IntrusiveLists
  import opened Numbers
  import opened Sequences

  const INVALID_CLASS: nat := 0xFFFF
  const MAX_RETAINED_EMPTY: nat := 2
  const MAX_GROUPS: nat := 8

  datatype Span = Span(
    blockSize: nat,
    totalBlocks: nat,
    freeBlocks: nat,
    sizeClass: nat,
    shard: nat,
    freeList: nat,
    base: nat,
    pageCount: nat,
    inPartial: bool,
    inEmpty: bool,
    released: bool)

  /** A span object in the pool of spare objects, after its reset. */
  const SPARE: Span := Span(0, 0, 0, INVALID_CLASS, 0, 0, 0, 0, false, false, false)

  datatype Shard = Shard(partialSpans: nat, emptySpans: nat, emptySpanCount: nat)

  /** `free` lists the free blocks of each live span, `partial` and `empty` the spans on each
      shard's lists, `out` the blocks handed out; `live` are this class's spans, `foreign` the
      other classes'. Span objects and blocks are numbered from 1; 0 is null. */
  datatype State = State(
    pageSize: nat,
    sizeClass: nat,
    link: map<nat, nat>,
    spans: map<nat, Span>,
    links: map<nat, Link>,
    pages: map<nat, nat>,
    shards: seq<Shard>,
    free: map<nat, seq<nat>>,
    partial: seq<seq<nat>>,
    empty: seq<seq<nat>>,
    out: set<nat>,
    live: set<nat>,
    foreign: set<nat>)

  // ---------------------------------------------------------------------------
  // Geometry
  // ---------------------------------------------------------------------------

  /** The range check the program makes before trusting a span. */
  predicate Covers(s: Span, ptr: nat) {
    s.base != 0 && s.blockSize != 0 && s.totalBlocks != 0 && s.base <= ptr < s.base + s.blockSize * s.totalBlocks
  }

  predicate IsBlock(s: Span, b: nat) {
    Covers(s, b) && OnGrid(s.base, s.blockSize, s.totalBlocks, b)
  }

  function PageBase(pageSize: nat, ptr: nat): nat
    requires pageSize > 0
  {
    ptr - ptr % pageSize
  }

  /** `x` is one of `base`, `base + step`, ..., `n` of them. */
  predicate OnGrid(base: nat, step: nat, n: nat, x: nat)
    requires step > 0
  {
    base <= x < base + n * step && (x - base) % step == 0
  }

  predicate IsPageOf(pageSize: nat, s: Span, page: nat)
    requires pageSize > 0
  {
    OnGrid(s.base, pageSize, s.pageCount, page)
  }

  predicate WellShaped(pageSize: nat, s: Span) {
    && pageSize > 0 && s.base > 0 && s.base % pageSize == 0 && s.pageCount > 0
    && s.blockSize > 0 && s.totalBlocks > 0 && s.blockSize * s.totalBlocks <= s.pageCount * pageSize
    && s.sizeClass < INVALID_CLASS && !s.released
  }

  lemma MultipleOf(n: nat, k: nat)
    requires n > 0
    ensures k * n % n == 0
  {
    DivisionIs(k * n, n, k, 0);
  }

  lemma ShiftedRemainder(n: nat, a: nat, b: nat)
    requires n > 0 && a % n == 0
    ensures (a + b) % n == b % n
  {
    assert a + b == (a / n + b / n) * n + b % n;
    DivisionIs(a + b, n, a / n + b / n, b % n);
  }

  /** The page under a pointer into the blocks of a span is one of the span's pages. */
  lemma CoveredPage(pageSize: nat, s: Span, ptr: nat)
    requires WellShaped(pageSize, s) && Covers(s, ptr)
    ensures IsPageOf(pageSize, s, PageBase(pageSize, ptr))
  {
    var off := ptr - s.base;
    ShiftedRemainder(pageSize, s.base, off);
    assert PageBase(pageSize, ptr) - s.base == off - off % pageSize == off / pageSize * pageSize;
    MultipleOf(pageSize, off / pageSize);
  }

  lemma OneMore(base: nat, step: nat, n: nat, x: nat)
    requires step > 0
    ensures OnGrid(base, step, n + 1, x) <==> OnGrid(base, step, n, x) || x == base + n * step
    ensures !OnGrid(base, step, 0, x) && !OnGrid(base, step, n, base + n * step)
  {
    MultipleOf(step, n);
    assert (n + 1) * step == n * step + step;
    if x >= base + n * step && x < base + (n + 1) * step {
      var off := x - base - n * step;
      ShiftedRemainder(step, n * step, off);
      SmallRemainder(step, off);
    }
  }

  // ---------------------------------------------------------------------------
  // Blocks of a span, counted
  // ---------------------------------------------------------------------------

  function BlockSet(base: nat, size: nat, n: nat): set<nat> {
    if n == 0 then {} else BlockSet(base, size, n - 1) + {base + (n - 1) * size}
  }

  lemma {:induction false} BlockSetSize(base: nat, size: nat, n: nat)
    requires size > 0
    ensures |BlockSet(base, size, n)| == n
    ensures forall b: nat :: b in BlockSet(base, size, n) <==> OnGrid(base, size, n, b)
  {
    hide OnGrid;
    if n > 0 {
      BlockSetSize(base, size, n - 1);
      OneMore(base, size, n - 1, base);
    }
    forall b: nat ensures b in BlockSet(base, size, n) <==> OnGrid(base, size, n, b) {
      if n > 0 {
        OneMore(base, size, n - 1, b);
      } else {
        OneMore(base, size, 0, b);
      }
    }
  }

  function SetOf(list: seq<nat>): set<nat> {
    if list == [] then {} else {list[0]} + SetOf(list[1..])
  }

  lemma {:induction false} SetOfMembers(list: seq<nat>)
    ensures forall b: nat :: b in SetOf(list) <==> b in list
  {
    if list != [] {
      SetOfMembers(list[1..]);
      assert list == [list[0]] + list[1..];
    }
  }

  lemma {:induction false} DistinctCount(list: seq<nat>)
    requires NoDuplicates(list)
    ensures |SetOf(list)| == |list|
  {
    if list != [] {
      DistinctCount(list[1..]);
      SetOfMembers(list[1..]);
      assert list[0] !in list[1..];
    }
  }

  lemma SubsetOfSameSize(a: set<nat>, b: set<nat>)
    requires a <= b && |a| == |b|
    ensures a == b
  {
    assert b == a + (b - a) && |b - a| == |b| - |a|;
  }

  lemma SmallerSubset(a: set<nat>, b: set<nat>)
    requires a <= b
    ensures |a| <= |b|
  {
    assert |b| == |a| + |b - a|;
  }

  // ---------------------------------------------------------------------------
  // The invariant
  // ---------------------------------------------------------------------------

  predicate Shaped(st: State) {
    && st.pageSize > 0 && st.sizeClass < INVALID_CLASS
    && st.live + st.foreign <= st.spans.Keys && 0 !in st.spans
    && (forall s :: s in st.live ==> s !in st.foreign)
    && (forall s :: s in st.spans ==>
          if s in st.live then WellShaped(st.pageSize, st.spans[s]) && st.spans[s].sizeClass == st.sizeClass
          else if s in st.foreign then WellShaped(st.pageSize, st.spans[s]) && st.spans[s].sizeClass != st.sizeClass
          else st.spans[s] == SPARE)
  }

  /** The index maps exactly the pages of live spans to their spans. */
  ghost predicate Indexed(st: State)
    requires Shaped(st)
  {
    && (forall page :: page in st.pages ==>
          st.pages[page] in st.live + st.foreign && IsPageOf(st.pageSize, st.spans[st.pages[page]], page))
    && (forall s, page: nat :: s in st.live + st.foreign && IsPageOf(st.pageSize, st.spans[s], page)
          ==> page in st.pages && st.pages[page] == s)
  }

  /** A block of a span is on the span's free list exactly when it is not handed out. */
  ghost predicate SpanBlocksOk(st: State, s: nat)
    requires s in st.spans
  {
    && s in st.free
    && Chain(st.link, st.spans[s].freeList, st.free[s])
    && NoDuplicates(st.free[s])
    && st.spans[s].freeBlocks == |st.free[s]|
    && (forall b: nat :: b in st.free[s] <==> IsBlock(st.spans[s], b) && b !in st.out)
  }

  ghost predicate BlocksOk(st: State)
    requires Shaped(st)
  {
    && (forall s :: s in st.live ==> SpanBlocksOk(st, s))
    && (forall b :: b in st.out ==> exists s :: s in st.live && IsBlock(st.spans[s], b))
  }

  ghost predicate Core(st: State) {
    Shaped(st) && Indexed(st) && BlocksOk(st)
  }

  ghost predicate ShardOk(st: State, k: nat)
    requires k < |st.shards| == |st.partial| == |st.empty|
  {
    && DoubleChain(st.links, st.shards[k].partialSpans, st.partial[k]) && NoDuplicates(st.partial[k])
    && DoubleChain(st.links, st.shards[k].emptySpans, st.empty[k]) && NoDuplicates(st.empty[k])
    && st.shards[k].emptySpanCount == |st.empty[k]|
    && (forall s :: s in st.partial[k]
          <==> s in st.live && s in st.spans && st.spans[s].shard == k && st.spans[s].inPartial)
    && (forall s :: s in st.empty[k]
          <==> s in st.live && s in st.spans && st.spans[s].shard == k && st.spans[s].inEmpty)
  }

  /** Each shard's two lists hold exactly its spans with the corresponding flag; no span has both. */
  ghost predicate ListsOk(st: State) {
    && |st.shards| == |st.partial| == |st.empty|
    && (forall k: nat :: k < |st.shards| ==> ShardOk(st, k))
    && (forall s :: s in st.live && s in st.spans ==> st.spans[s].shard < |st.shards|)
    && (forall s :: s in st.live && s in st.spans ==> !(st.spans[s].inPartial && st.spans[s].inEmpty))
  }

  /** The flags say how many blocks are free. */
  predicate FlagsOk(s: Span) {
    && (s.inPartial <==> 0 < s.freeBlocks < s.totalBlocks)
    && (s.inEmpty <==> s.freeBlocks == s.totalBlocks)
  }

  ghost predicate Inv(st: State) {
    && Core(st)
    && ListsOk(st)
    && (forall s :: s in st.live ==> FlagsOk(st.spans[s]))
  }

  /** No block of the span is handed out. */
  ghost predicate NoneOut(s: Span, out: set<nat>) {
    forall b: nat :: IsBlock(s, b) ==> b !in out
  }

  /** The spans of shard `k` that would have no block handed out, were `out` the blocks that are. */
  ghost function IdleSpans(st: State, out: set<nat>, k: nat): set<nat> {
    set s | s in st.live && s in st.spans && st.spans[s].shard == k && NoneOut(st.spans[s], out)
  }

  /** As `Inv`, and no shard keeps more empty spans than it should between calls. */
  ghost predicate AtRest(st: State) {
    Inv(st) && forall k: nat :: k < |st.shards| ==> st.shards[k].emptySpanCount <= MAX_RETAINED_EMPTY
  }

  // ---------------------------------------------------------------------------
  // Finding the span of a block
  // ---------------------------------------------------------------------------

  function FindSnapshot(pageSize: nat, pages: map<nat, nat>, ptr: nat): nat
    requires pageSize > 0
  {
    var page := PageBase(pageSize, ptr);
    if page in pages then pages[page] else 0
  }

  function FindHinted(pageSize: nat, pages: map<nat, nat>, spans: map<nat, Span>, ptr: nat, hint: nat,
                      sizeClass: nat): nat
    requires pageSize > 0 && (hint == 0 || hint in spans)
  {
    if hint != 0 && !spans[hint].released && spans[hint].sizeClass == sizeClass && Covers(spans[hint], ptr) then hint
    else
      var s := FindSnapshot(pageSize, pages, ptr);
      if s == 0 || s !in spans || spans[s].released || spans[s].sizeClass != sizeClass then 0
      else if Covers(spans[s], ptr) then s else 0
  }

  lemma CoveredIsIndexed(st: State, s: nat, ptr: nat)
    requires Shaped(st) && Indexed(st) && s in st.live + st.foreign && Covers(st.spans[s], ptr)
    ensures FindSnapshot(st.pageSize, st.pages, ptr) == s
  {
    CoveredPage(st.pageSize, st.spans[s], ptr);
  }

  /** A hint, whatever span object it names, never changes the answer. */
  lemma HintIsIrrelevant(st: State, ptr: nat, hint: nat, sizeClass: nat)
    requires Shaped(st) && Indexed(st) && (hint == 0 || hint in st.spans) && sizeClass < INVALID_CLASS
    ensures FindHinted(st.pageSize, st.pages, st.spans, ptr, hint, sizeClass)
            == FindHinted(st.pageSize, st.pages, st.spans, ptr, 0, sizeClass)
  {
    if hint != 0 && st.spans[hint].sizeClass == sizeClass && Covers(st.spans[hint], ptr) {
      CoveredIsIndexed(st, hint, ptr);
    }
  }

  /** The lookup finds exactly the span whose blocks cover the pointer, if it is of the class. */
  lemma FindFindsOwner(st: State, ptr: nat, hint: nat, s: nat)
    requires Shaped(st) && Indexed(st) && (hint == 0 || hint in st.spans) && s != 0
    ensures FindHinted(st.pageSize, st.pages, st.spans, ptr, hint, st.sizeClass) == s
            <==> s in st.live && Covers(st.spans[s], ptr)
  {
    HintIsIrrelevant(st, ptr, hint, st.sizeClass);
    if s in st.live && Covers(st.spans[s], ptr) {
      CoveredIsIndexed(st, s, ptr);
    }
  }

  /** A block belongs to one span only. */
  lemma OneOwner(st: State, s: nat, t: nat, b: nat)
    requires Shaped(st) && Indexed(st) && s in st.live + st.foreign && t in st.live + st.foreign
    requires Covers(st.spans[s], b) && Covers(st.spans[t], b)
    ensures s == t
  {
    CoveredIsIndexed(st, s, b);
    CoveredIsIndexed(st, t, b);
  }

  lemma BlocksOfSpan(pageSize: nat, s: Span)
    requires WellShaped(pageSize, s)
    ensures |BlockSet(s.base, s.blockSize, s.totalBlocks)| == s.totalBlocks
    ensures forall b: nat :: b in BlockSet(s.base, s.blockSize, s.totalBlocks) <==> IsBlock(s, b)
  {
    BlockSetSize(s.base, s.blockSize, s.totalBlocks);
    assert s.blockSize * s.totalBlocks == s.totalBlocks * s.blockSize;
  }

  /** All blocks free is the same as none handed out. */
  lemma AllFree(st: State, s: nat)
    requires Core(st) && s in st.live
    ensures st.spans[s].freeBlocks <= st.spans[s].totalBlocks
    ensures st.spans[s].freeBlocks == st.spans[s].totalBlocks
            <==> NoneOut(st.spans[s], st.out)
  {
    var r, f := st.spans[s], st.free[s];
    assert SpanBlocksOk(st, s) && WellShaped(st.pageSize, r);
    BlocksOfSpan(st.pageSize, r);
    hide Shaped, Indexed, BlocksOk, Chain, IsBlock, BlockSet;
    FreeAgainstAll(f, BlockSet(r.base, r.blockSize, r.totalBlocks), st.out);
  }

  lemma FreeAgainstAll(free: seq<nat>, all: set<nat>, out: set<nat>)
    requires NoDuplicates(free)
    requires forall b: nat :: b in free <==> b in all && b !in out
    ensures |free| <= |all|
    ensures |free| == |all| <==> forall b: nat :: b in all ==> b !in out
  {
    DistinctCount(free);
    SetOfMembers(free);
    hide SetOf, NoDuplicates;
    SmallerSubset(SetOf(free), all);
    if |free| == |all| {
      SubsetOfSameSize(SetOf(free), all);
    }
    if forall b: nat :: b in all ==> b !in out {
      assert SetOf(free) == all;
    }
  }
}
