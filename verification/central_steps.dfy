/** The steps of a central pool on its state, each shown to keep its part of the invariant. */
module CentralSteps {
  import opened IntrusiveLists
  import opened CentralState
  import opened Sequences

  /** Which of a shard's two lists. */
  datatype Which = Partial | Empty

  function Head(shard: Shard, which: Which): nat {
    if which.Partial? then shard.partialSpans else shard.emptySpans
  }

  function WithHead(shard: Shard, which: Which, head: nat): Shard {
    if which.Partial? then shard.(partialSpans := head) else shard.(emptySpans := head)
  }

  function Flag(s: Span, which: Which): bool {
    if which.Partial? then s.inPartial else s.inEmpty
  }

  function WithFlag(s: Span, which: Which, flag: bool): Span {
    if which.Partial? then s.(inPartial := flag) else s.(inEmpty := flag)
  }

  ghost function Listed(st: State, which: Which, k: nat): seq<nat>
    requires k < |st.partial| == |st.empty|
  {
    if which.Partial? then st.partial[k] else st.empty[k]
  }

  ghost function WithList(st: State, which: Which, k: nat, list: seq<nat>): State
    requires k < |st.partial| == |st.empty|
  {
    if which.Partial? then st.(partial := st.partial[k := list]) else st.(empty := st.empty[k := list])
  }

  // ---------------------------------------------------------------------------
  // Putting a span on a list and taking it off
  // ---------------------------------------------------------------------------

  predicate HasShard(st: State, s: nat) {
    s in st.spans && st.spans[s].shard < |st.shards| == |st.partial| == |st.empty|
  }

  ghost function Put(st: State, s: nat, which: Which): State
    requires HasShard(st, s)
  {
    var k := st.spans[s].shard;
    var shard := WithHead(st.shards[k], which, s);
    WithList(st, which, k, [s] + Listed(st, which, k)).(
      links := InsertFront(st.links, Head(st.shards[k], which), s),
      spans := st.spans[s := WithFlag(st.spans[s], which, true)],
      shards := st.shards[k := if which.Empty? then shard.(emptySpanCount := shard.emptySpanCount + 1) else shard])
  }

  ghost function Drop(st: State, s: nat, which: Which, i: nat): State
    requires HasShard(st, s) && s in st.links
    requires i < |Listed(st, which, st.spans[s].shard)|
    requires which.Empty? ==> st.shards[st.spans[s].shard].emptySpanCount > 0
  {
    var k := st.spans[s].shard;
    var list := Listed(st, which, k);
    var (links', head') := Unlink(st.links, Head(st.shards[k], which), s);
    var shard := WithHead(st.shards[k], which, head');
    WithList(st, which, k, list[..i] + list[i + 1..]).(
      links := links',
      spans := st.spans[s := WithFlag(st.spans[s], which, false)],
      shards := st.shards[k := if which.Empty? then shard.(emptySpanCount := shard.emptySpanCount - 1) else shard])
  }

  /** Two different lists of the pool share no span. */
  lemma ListsApart(st: State, j: nat, which: Which, k: nat, which': Which, x: nat)
    requires ListsOk(st) && j < |st.shards| && k < |st.shards| && (j != k || which != which')
    requires x in Listed(st, which, j)
    ensures x !in Listed(st, which', k)
    ensures x in st.live && x != 0 && x in st.links
  {
    assert ShardOk(st, j) && ShardOk(st, k);
    InChain(st.links, Head(st.shards[j], which), Listed(st, which, j), x);
  }

  lemma InChain(links: map<nat, Link>, head: nat, list: seq<nat>, x: nat)
    requires DoubleChain(links, head, list) && x in list
    ensures x != 0 && x in links
  {
  }

  lemma PutKeepsLists(st: State, s: nat, which: Which)
    requires ListsOk(st) && s in st.live && s in st.spans && s != 0
    requires !st.spans[s].inPartial && !st.spans[s].inEmpty
    ensures HasShard(st, s) && ListsOk(Put(st, s, which))
  {
    var k := st.spans[s].shard;
    var st', list, head := Put(st, s, which), Listed(st, which, k), Head(st.shards[k], which);
    assert ShardOk(st, k);
    InsertedFront(st.links, head, list, s);
    forall j: nat | j < |st.shards| ensures ShardOk(st', j) {
      assert ShardOk(st, j);
      forall which' | j != k || which' != which
        ensures DoubleChain(st'.links, Head(st'.shards[j], which'), Listed(st', which', j))
      {
        OtherListKept(st, st'.links, k, which, s, j, which');
      }
      PutShard(st, s, which, j);
    }
  }

  lemma PutShard(st: State, s: nat, which: Which, j: nat)
    requires ListsOk(st) && s in st.live && HasShard(st, s) && j < |st.shards|
    requires !st.spans[s].inPartial && !st.spans[s].inEmpty
    requires var st', k := Put(st, s, which), st.spans[s].shard;
             && (forall which' :: j != k || which' != which
                   ==> DoubleChain(st'.links, Head(st'.shards[j], which'), Listed(st', which', j)))
             && DoubleChain(st'.links, Head(st'.shards[k], which), Listed(st', which, k))
             && NoDuplicates(Listed(st', which, k))
    ensures ShardOk(Put(st, s, which), j)
  {
    hide DoubleChain, InsertFront, NoDuplicates;
    var st', k := Put(st, s, which), st.spans[s].shard;
    assert ShardOk(st, j) && ShardOk(st, k);
    assert DoubleChain(st'.links, Head(st'.shards[j], Partial), Listed(st', Partial, j));
    assert DoubleChain(st'.links, Head(st'.shards[j], Empty), Listed(st', Empty, j));
  }

  /** A list that shares no span with the one being changed keeps its links. */
  lemma OtherListKept(st: State, links': map<nat, Link>, k: nat, which: Which, s: nat, j: nat, which': Which)
    requires ListsOk(st) && j < |st.shards| && k < |st.shards| && (j != k || which' != which)
    requires s !in Listed(st, which', j)
    requires forall x :: x in st.links && x != 0 && x != s && x !in Listed(st, which, k) ==>
               x in links' && links'[x] == st.links[x]
    ensures DoubleChain(links', Head(st.shards[j], which'), Listed(st, which', j))
  {
    hide DoubleChain;
    assert ShardOk(st, j);
    forall x | x in Listed(st, which', j) ensures x in st.links && x in links' && links'[x] == st.links[x] {
      ListsApart(st, j, which', k, which, x);
    }
    DoubleChainKept(st.links, links', Head(st.shards[j], which'), Listed(st, which', j));
  }

  lemma DropKeepsLists(st: State, s: nat, which: Which) returns (i: nat)
    requires ListsOk(st) && s in st.live && s in st.spans && Flag(st.spans[s], which)
    ensures HasShard(st, s) && s in st.links
    ensures i < |Listed(st, which, st.spans[s].shard)| && Listed(st, which, st.spans[s].shard)[i] == s
    ensures which.Empty? ==> st.shards[st.spans[s].shard].emptySpanCount > 0
    ensures s == Head(st.shards[st.spans[s].shard], which) ==> i == 0
    ensures ListsOk(Drop(st, s, which, i))
  {
    i := WhereListed(st, s, which);
    DropAll(st, s, which, i);
    assert ListsOk(Drop(st, s, which, i));
  }

  lemma WhereListed(st: State, s: nat, which: Which) returns (i: nat)
    requires ListsOk(st) && s in st.live && s in st.spans && Flag(st.spans[s], which)
    ensures HasShard(st, s) && s in st.links && s != 0
    ensures var list := Listed(st, which, st.spans[s].shard); i < |list| && list[i] == s && s in list
    ensures which.Empty? ==> st.shards[st.spans[s].shard].emptySpanCount > 0
    ensures s == Head(st.shards[st.spans[s].shard], which) ==> i == 0
  {
    var k := st.spans[s].shard;
    var list := Listed(st, which, k);
    assert ShardOk(st, k) && s in list;
    i :| 0 <= i < |list| && list[i] == s;
    InChain(st.links, Head(st.shards[k], which), list, s);
  }

  lemma DropAll(st: State, s: nat, which: Which, i: nat)
    requires ListsOk(st) && s in st.live && HasShard(st, s) && s in st.links && s != 0
    requires var list := Listed(st, which, st.spans[s].shard); i < |list| && list[i] == s && s in list
    requires which.Empty? ==> st.shards[st.spans[s].shard].emptySpanCount > 0
    ensures ListsOk(Drop(st, s, which, i))
  {
    hide Unlink, DoubleChain, NoDuplicates;
    var k := st.spans[s].shard;
    var list, head := Listed(st, which, k), Head(st.shards[k], which);
    var st' := Drop(st, s, which, i);
    assert ShardOk(st, k);
    Unlinked(st.links, head, list, i);
    UnlinkedFrame(st.links, head, list, i);
    RestMembers(list, i);
    forall j: nat | j < |st.shards| ensures ShardOk(st', j) {
      DropShardWith(st, s, which, i, j);
    }
    DropFlags(st, s, which, i);
  }

  lemma DropFlags(st: State, s: nat, which: Which, i: nat)
    requires ListsOk(st) && s in st.live && HasShard(st, s) && s in st.links
    requires i < |Listed(st, which, st.spans[s].shard)|
    requires which.Empty? ==> st.shards[st.spans[s].shard].emptySpanCount > 0
    ensures var st' := Drop(st, s, which, i);
            && |st'.shards| == |st'.partial| == |st'.empty|
            && (forall t :: t in st'.live && t in st'.spans ==> st'.spans[t].shard < |st'.shards|)
            && (forall t :: t in st'.live && t in st'.spans ==> !(st'.spans[t].inPartial && st'.spans[t].inEmpty))
  {
    hide Unlink, ShardOk;
  }

  lemma DropShardWith(st: State, s: nat, which: Which, i: nat, j: nat)
    requires ListsOk(st) && s in st.live && HasShard(st, s) && s in st.links && s != 0 && j < |st.shards|
    requires var list := Listed(st, which, st.spans[s].shard);
             && i < |list| && list[i] == s && s in list
             && NoDuplicates(list[..i] + list[i + 1..])
             && forall x :: x in list[..i] + list[i + 1..] <==> x in list && x != s
    requires which.Empty? ==> st.shards[st.spans[s].shard].emptySpanCount > 0
    requires var st', k := Drop(st, s, which, i), st.spans[s].shard;
             && DoubleChain(st'.links, Head(st'.shards[k], which), Listed(st', which, k))
             && forall x :: x in st.links && x != 0 && x !in Listed(st, which, k) ==>
               x in st'.links && st'.links[x] == st.links[x]
    ensures ShardOk(Drop(st, s, which, i), j)
  {
    hide Unlink, DoubleChain, NoDuplicates;
    var st', k := Drop(st, s, which, i), st.spans[s].shard;
    forall which' | j != k || which' != which
      ensures DoubleChain(st'.links, Head(st'.shards[j], which'), Listed(st', which', j))
    {
      ListsApart(st, k, which, j, which', s);
      OtherListKept(st, st'.links, k, which, s, j, which');
    }
    DropShard(st, s, which, i, j);
  }

  lemma DropShard(st: State, s: nat, which: Which, i: nat, j: nat)
    requires ListsOk(st) && s in st.live && HasShard(st, s) && s in st.links && j < |st.shards|
    requires i < |Listed(st, which, st.spans[s].shard)| && Listed(st, which, st.spans[s].shard)[i] == s
    requires which.Empty? ==> st.shards[st.spans[s].shard].emptySpanCount > 0
    requires var list := Listed(st, which, st.spans[s].shard);
             && NoDuplicates(list[..i] + list[i + 1..])
             && forall x :: x in list[..i] + list[i + 1..] <==> x in list && x != s
    requires var st', k := Drop(st, s, which, i), st.spans[s].shard;
             && (forall which' :: j != k || which' != which
                   ==> DoubleChain(st'.links, Head(st'.shards[j], which'), Listed(st', which', j)))
             && DoubleChain(st'.links, Head(st'.shards[k], which), Listed(st', which, k))
    ensures ShardOk(Drop(st, s, which, i), j)
  {
    hide DoubleChain, Unlink, NoDuplicates;
    var st', k := Drop(st, s, which, i), st.spans[s].shard;
    assert ShardOk(st, j) && ShardOk(st, k);
    assert DoubleChain(st'.links, Head(st'.shards[j], Partial), Listed(st', Partial, j));
    assert DoubleChain(st'.links, Head(st'.shards[j], Empty), Listed(st', Empty, j));
  }

  lemma CoreUnaffectedGeometry(st: State, st': State)
    requires Shaped(st) && Indexed(st)
    requires st' == st.(spans := st'.spans, links := st'.links, shards := st'.shards, partial := st'.partial,
                        empty := st'.empty)
    requires st'.spans.Keys == st.spans.Keys
    requires forall s :: s in st.spans && s in st.live ==>
               st'.spans[s] == st.spans[s].(inPartial := st'.spans[s].inPartial, inEmpty := st'.spans[s].inEmpty)
    requires forall s :: s in st.spans && s !in st.live ==> st'.spans[s] == st.spans[s]
    ensures Shaped(st') && Indexed(st')
  {
    hide OnGrid;
  }

  /** Flags, links and shards do not matter to geometry, index and blocks. */
  lemma CoreUnaffected(st: State, st': State)
    requires Core(st)
    requires st' == st.(spans := st'.spans, links := st'.links, shards := st'.shards, partial := st'.partial,
                        empty := st'.empty)
    requires st'.spans.Keys == st.spans.Keys
    requires forall s :: s in st.spans && s in st.live ==>
               st'.spans[s] == st.spans[s].(inPartial := st'.spans[s].inPartial, inEmpty := st'.spans[s].inEmpty)
    requires forall s :: s in st.spans && s !in st.live ==> st'.spans[s] == st.spans[s]
    ensures Core(st')
  {
    CoreUnaffectedGeometry(st, st');
    hide Chain, OnGrid, Indexed, WellShaped;
    forall s | s in st'.live ensures SpanBlocksOk(st', s) {
      assert SpanBlocksOk(st, s);
      assert forall b: nat :: IsBlock(st'.spans[s], b) <==> IsBlock(st.spans[s], b);
    }
    forall b | b in st'.out ensures exists s :: s in st'.live && IsBlock(st'.spans[s], b) {
      var s :| s in st.live && IsBlock(st.spans[s], b);
      assert IsBlock(st'.spans[s], b);
    }
  }

  // ---------------------------------------------------------------------------
  // Blocks leaving and returning
  // ---------------------------------------------------------------------------

  /** Handing out the first free block of a span. */
  ghost function Take(st: State, s: nat): State
    requires s in st.spans && s in st.free && st.free[s] != [] && st.free[s][0] in st.link && st.spans[s].freeBlocks > 0
  {
    var b := st.free[s][0];
    st.(spans := st.spans[s := st.spans[s].(freeList := st.link[b], freeBlocks := st.spans[s].freeBlocks - 1)],
        free := st.free[s := st.free[s][1..]],
        out := st.out + {b})
  }

  lemma SameGeometry(st: State, st': State)
    requires Shaped(st) && Indexed(st)
    requires st'.pageSize == st.pageSize && st'.sizeClass == st.sizeClass && st'.pages == st.pages
    requires st'.live == st.live && st'.foreign == st.foreign && st'.spans.Keys == st.spans.Keys
    requires forall s :: s in st.spans && s !in st.live ==> st'.spans[s] == st.spans[s]
    requires forall s :: s in st.live && s in st.spans ==>
               st'.spans[s] == st.spans[s].(freeBlocks := st'.spans[s].freeBlocks, freeList := st'.spans[s].freeList,
                                            inPartial := st'.spans[s].inPartial, inEmpty := st'.spans[s].inEmpty)
    ensures Shaped(st') && Indexed(st')
    ensures forall s, b: nat :: s in st.live ==> (IsBlock(st'.spans[s], b) <==> IsBlock(st.spans[s], b))
  {
    hide OnGrid;
  }

  lemma TakeKeepsCore(st: State, s: nat)
    requires Core(st) && s in st.live && st.free[s] != []
    ensures st.free[s][0] in st.link && st.spans[s].freeBlocks > 0 && st.spans[s].freeList == st.free[s][0] != 0
    ensures Core(Take(st, s)) && st.free[s][0] !in st.out && IsBlock(st.spans[s], st.free[s][0])
  {
    hide Chain, OnGrid, Indexed, Covers, WellShaped;
    assert SpanBlocksOk(st, s);
    ChainPopped(st.link, st.spans[s].freeList, st.free[s]);
    assert st.free[s] == [st.free[s][0]] + st.free[s][1..];
    var b, st' := st.free[s][0], Take(st, s);
    SameGeometry(st, st');
    forall t | t in st'.live ensures SpanBlocksOk(st', t) {
      assert SpanBlocksOk(st, t);
      if t != s {
        NotOfOther(st, s, t, b);
        hide IsBlock;
      }
    }
    TakenOut(st, s, b);
  }

  lemma TakenOut(st: State, s: nat, b: nat)
    requires Core(st) && s in st.live && s in st.free && st.free[s] != [] && b == st.free[s][0]
    requires IsBlock(st.spans[s], b)
    requires b in st.link && st.spans[s].freeBlocks > 0
    ensures var st' := Take(st, s); forall x :: x in st'.out ==> exists t :: t in st'.live && IsBlock(st'.spans[t], x)
  {
    hide OnGrid, Indexed, SpanBlocksOk;
    var st' := Take(st, s);
    forall x | x in st'.out ensures exists t :: t in st'.live && IsBlock(st'.spans[t], x) {
      if x == b {
        assert IsBlock(st'.spans[s], x);
      } else {
        var t :| t in st.live && IsBlock(st.spans[t], x);
        assert IsBlock(st'.spans[t], x);
      }
    }
  }

  lemma NotOfOther(st: State, s: nat, t: nat, b: nat)
    requires Core(st) && s in st.live && t in st.live && s != t && IsBlock(st.spans[s], b)
    ensures !IsBlock(st.spans[t], b)
  {
    if IsBlock(st.spans[t], b) {
      OneOwner(st, s, t, b);
    }
  }

  /** Writing the link of a block that is handed out disturbs nothing. */
  lemma RelinkKeepsCore(st: State, b: nat, v: nat)
    requires Core(st) && b in st.out
    ensures Core(st.(link := st.link[b := v]))
  {
    var st' := st.(link := st.link[b := v]);
    forall s | s in st'.live ensures SpanBlocksOk(st', s) {
      assert SpanBlocksOk(st, s);
      ChainKept(st.link, st'.link, st.spans[s].freeList, st.free[s]);
    }
  }

  /** Hanging a batch of blocks, linked from `head`, in front of their span's free list. */
  ghost function GiveBack(st: State, s: nat, head: nat, blocks: seq<nat>): State
    requires s in st.spans && s in st.free && blocks != []
  {
    var freeBlocks := st.spans[s].freeBlocks + |blocks|;
    st.(link := st.link[blocks[|blocks| - 1] := st.spans[s].freeList],
        spans := st.spans[s := st.spans[s].(freeList := head,
          freeBlocks := if freeBlocks < st.spans[s].totalBlocks then freeBlocks else st.spans[s].totalBlocks)],
        free := st.free[s := blocks + st.free[s]],
        out := st.out - SetOf(blocks))
  }

  ghost predicate Batch(st: State, s: nat, head: nat, blocks: seq<nat>)
    requires s in st.spans
  {
    && blocks != [] && Chain(st.link[blocks[|blocks| - 1] := 0], head, blocks) && NoDuplicates(blocks)
    && forall b: nat :: b in blocks ==> b in st.out && IsBlock(st.spans[s], b)
  }

  lemma GiveBackKeepsCore(st: State, s: nat, head: nat, blocks: seq<nat>)
    requires Core(st) && s in st.live && Batch(st, s, head, blocks)
    ensures Core(GiveBack(st, s, head, blocks))
    ensures st.spans[s].freeBlocks + |blocks| <= st.spans[s].totalBlocks
  {
    var st' := GiveBack(st, s, head, blocks);
    assert SpanBlocksOk(st, s);
    Disjoint(blocks, st.free[s]);
    SetOfMembers(blocks);
    SplicedBatch(st, s, head, blocks);
    BatchFits(st, s, head, blocks);
    SameGeometry(st, st');
    hide OnGrid, Indexed, Covers, WellShaped, SetOf;
    forall t | t in st'.live ensures SpanBlocksOk(st', t) {
      assert SpanBlocksOk(st, t);
      if t != s {
        OtherAfterGiveBack(st, s, head, blocks, t);
      }
    }
    forall x | x in st'.out ensures exists t :: t in st'.live && IsBlock(st'.spans[t], x) {
      var t :| t in st.live && IsBlock(st.spans[t], x);
      assert IsBlock(st'.spans[t], x);
    }
  }

  lemma SplicedBatch(st: State, s: nat, head: nat, blocks: seq<nat>)
    requires Core(st) && s in st.live && Batch(st, s, head, blocks)
    ensures Chain(GiveBack(st, s, head, blocks).link, head, blocks + st.free[s])
  {
    hide OnGrid, Indexed, Covers, WellShaped;
    assert SpanBlocksOk(st, s);
    var last := blocks[|blocks| - 1];
    var ended := st.link[last := 0];
    assert last in blocks && last !in st.free[s];
    ChainKept(st.link, ended, st.spans[s].freeList, st.free[s]);
    Disjoint(blocks, st.free[s]);
    ChainSpliced(ended, head, blocks, st.spans[s].freeList, st.free[s]);
    assert ended[last := st.spans[s].freeList] == st.link[last := st.spans[s].freeList];
  }

  lemma OtherAfterGiveBack(st: State, s: nat, head: nat, blocks: seq<nat>, t: nat)
    requires Core(st) && s in st.live && Batch(st, s, head, blocks) && t in st.live && t != s
    ensures SpanBlocksOk(GiveBack(st, s, head, blocks), t)
  {
    hide OnGrid, Indexed, Covers, WellShaped;
    var st' := GiveBack(st, s, head, blocks);
    assert SpanBlocksOk(st, t) && SpanBlocksOk(st, s);
    SetOfMembers(blocks);
    forall b: nat | b in blocks ensures !IsBlock(st.spans[t], b) {
      NotOfOther(st, s, t, b);
    }
    assert blocks[|blocks| - 1] in blocks;
    ChainKept(st.link, st'.link, st.spans[t].freeList, st.free[t]);
  }

  lemma Disjoint(a: seq<nat>, b: seq<nat>)
    requires NoDuplicates(a) && NoDuplicates(b) && forall x: nat :: x in a ==> x !in b
    ensures NoDuplicates(a + b)
  {
    var all := a + b;
    forall j, k | 0 <= j < k < |all| ensures all[j] != all[k] {
      if j < |a| {
        assert all[j] == a[j] && a[j] in a;
      }
    }
  }

  /** The clamp on the number of free blocks never bites. */
  lemma BatchFits(st: State, s: nat, head: nat, blocks: seq<nat>)
    requires Core(st) && s in st.live && Batch(st, s, head, blocks)
    ensures st.spans[s].freeBlocks + |blocks| <= st.spans[s].totalBlocks
  {
    var r, both := st.spans[s], blocks + st.free[s];
    assert SpanBlocksOk(st, s) && WellShaped(st.pageSize, r);
    Disjoint(blocks, st.free[s]);
    BlocksOfSpan(st.pageSize, r);
    DistinctCount(both);
    SetOfMembers(both);
    hide Chain, NoDuplicates, SetOf, IsBlock, BlockSet;
    SmallerSubset(SetOf(both), BlockSet(r.base, r.blockSize, r.totalBlocks));
  }

  // ---------------------------------------------------------------------------
  // Spans coming and going
  // ---------------------------------------------------------------------------

  ghost function PagesWithout(st: State, s: nat): map<nat, nat>
    requires s in st.spans && st.pageSize > 0
  {
    map page | page in st.pages && !IsPageOf(st.pageSize, st.spans[s], page) :: st.pages[page]
  }

  /** Giving up a span and its pages. */
  ghost function Retire(st: State, s: nat): State
    requires s in st.spans && st.pageSize > 0
  {
    st.(pages := PagesWithout(st, s), spans := st.spans[s := SPARE], live := st.live - {s})
  }

  lemma RetireGeometry(st: State, s: nat)
    requires Shaped(st) && Indexed(st) && s in st.live
    ensures Shaped(Retire(st, s)) && Indexed(Retire(st, s))
  {
    var st' := Retire(st, s);
    hide OnGrid;
    forall t, page: nat | t in st'.live + st'.foreign && IsPageOf(st'.pageSize, st'.spans[t], page)
      ensures page in st'.pages && st'.pages[page] == t
    {
      assert page in st.pages && st.pages[page] == t;
    }
  }

  lemma RetireKeepsCore(st: State, s: nat)
    requires Core(st) && s in st.live && forall b: nat :: IsBlock(st.spans[s], b) ==> b !in st.out
    ensures Core(Retire(st, s))
  {
    var st' := Retire(st, s);
    RetireGeometry(st, s);
    hide OnGrid, Chain, Indexed, WellShaped, Covers;
    forall t | t in st'.live ensures SpanBlocksOk(st', t) {
      assert SpanBlocksOk(st, t);
    }
    forall x | x in st'.out ensures exists t :: t in st'.live && IsBlock(st'.spans[t], x) {
      var t :| t in st.live && IsBlock(st.spans[t], x);
      assert t != s && IsBlock(st'.spans[t], x);
    }
  }

  /** Taking in a new span with all its blocks free. */
  ghost function Adopt(st: State, s: nat, span: Span, link: map<nat, nat>, list: seq<nat>): State
    requires st.pageSize > 0
  {
    st.(link := link, spans := st.spans[s := span], free := st.free[s := list], live := st.live + {s},
        pages := PagesWith(st.pageSize, st.pages, s, span))
  }

  ghost function PagesWith(pageSize: nat, pages: map<nat, nat>, s: nat, span: Span): map<nat, nat>
    requires pageSize > 0
  {
    var last := span.base + span.pageCount * pageSize;
    pages + map page: nat | span.base <= page < last && IsPageOf(pageSize, span, page) :: s
  }

  ghost predicate Adoptable(st: State, s: nat, span: Span, link: map<nat, nat>, list: seq<nat>)
    requires st.pageSize > 0
  {
    && s != 0 && s !in st.live + st.foreign && WellShaped(st.pageSize, span) && span.sizeClass == st.sizeClass
    && (forall page :: page in st.pages ==> !IsPageOf(st.pageSize, span, page))
    && Chain(link, span.freeList, list) && NoDuplicates(list) && span.freeBlocks == |list|
    && (forall b: nat :: b in list <==> IsBlock(span, b))
    && (forall b :: b in st.link && b !in list ==> b in link && link[b] == st.link[b])
  }

  /** No block of a live span lies in pages that are not indexed. */
  lemma NewBlocksAreNew(st: State, s: nat, span: Span, b: nat)
    requires Shaped(st) && Indexed(st) && s in st.live && WellShaped(st.pageSize, span) && Covers(span, b)
    requires forall page :: page in st.pages ==> !IsPageOf(st.pageSize, span, page)
    ensures !Covers(st.spans[s], b)
  {
    CoveredPage(st.pageSize, span, b);
    if Covers(st.spans[s], b) {
      CoveredPage(st.pageSize, st.spans[s], b);
    }
  }

  lemma AdoptKeepsCore(st: State, s: nat, span: Span, link: map<nat, nat>, list: seq<nat>)
    requires Core(st) && Adoptable(st, s, span, link, list)
    ensures Core(Adopt(st, s, span, link, list))
    ensures forall b: nat :: IsBlock(span, b) ==> b !in st.out
  {
    var st' := Adopt(st, s, span, link, list);
    AdoptGeometry(st, s, span, link, list);
    AdoptedNotOut(st, s, span);
    hide OnGrid, Covers, Indexed, WellShaped;
    forall t | t in st'.live ensures SpanBlocksOk(st', t) {
      if t != s {
        assert SpanBlocksOk(st, t);
        OtherChainKept(st, s, span, link, list, t);
      }
    }
    forall x | x in st'.out ensures exists t :: t in st'.live && IsBlock(st'.spans[t], x) {
      var t :| t in st.live && IsBlock(st.spans[t], x);
      assert IsBlock(st'.spans[t], x);
    }
  }

  lemma AdoptedNotOut(st: State, s: nat, span: Span)
    requires Core(st) && WellShaped(st.pageSize, span)
    requires forall page :: page in st.pages ==> !IsPageOf(st.pageSize, span, page)
    ensures forall b: nat :: IsBlock(span, b) ==> b !in st.out
  {
    hide OnGrid, SpanBlocksOk;
    forall b: nat | IsBlock(span, b) ensures b !in st.out {
      if b in st.out {
        var t :| t in st.live && IsBlock(st.spans[t], b);
        NewBlocksAreNew(st, t, span, b);
      }
    }
  }

  lemma AdoptGeometry(st: State, s: nat, span: Span, link: map<nat, nat>, list: seq<nat>)
    requires Shaped(st) && Indexed(st) && Adoptable(st, s, span, link, list)
    ensures Shaped(Adopt(st, s, span, link, list)) && Indexed(Adopt(st, s, span, link, list))
  {
    AdoptShaped(st, s, span, link, list);
    hide Chain, NoDuplicates, Covers, IsBlock, WellShaped, Shaped;
    var st' := Adopt(st, s, span, link, list);
    PagesWithIs(st.pageSize, st.pages, s, span);
    hide OnGrid, IsPageOf, PagesWith;
    forall page | page in st'.pages
      ensures st'.pages[page] in st'.live + st'.foreign && IsPageOf(st'.pageSize, st'.spans[st'.pages[page]], page)
    {
      if !IsPageOf(st.pageSize, span, page) {
        assert page in st.pages;
      }
    }
    forall t, page: nat | t in st'.live + st'.foreign && IsPageOf(st'.pageSize, st'.spans[t], page)
      ensures page in st'.pages && st'.pages[page] == t
    {
      if t != s {
        assert t in st.live + st.foreign && IsPageOf(st.pageSize, st.spans[t], page);
        assert page in st.pages && st.pages[page] == t;
      }
    }
  }

  lemma AdoptShaped(st: State, s: nat, span: Span, link: map<nat, nat>, list: seq<nat>)
    requires Shaped(st) && Adoptable(st, s, span, link, list)
    ensures Shaped(Adopt(st, s, span, link, list))
  {
    hide Chain, NoDuplicates, Covers, IsBlock, WellShaped, OnGrid, IsPageOf, PagesWith;
  }

  lemma PagesWithIs(pageSize: nat, pages: map<nat, nat>, s: nat, span: Span)
    requires pageSize > 0
    ensures forall page: nat :: page in PagesWith(pageSize, pages, s, span)
              <==> page in pages || IsPageOf(pageSize, span, page)
    ensures forall page: nat :: page in PagesWith(pageSize, pages, s, span) ==>
              PagesWith(pageSize, pages, s, span)[page] == if IsPageOf(pageSize, span, page) then s else pages[page]
  {
  }

  lemma OtherChainKept(st: State, s: nat, span: Span, link: map<nat, nat>, list: seq<nat>, t: nat)
    requires Core(st) && Adoptable(st, s, span, link, list) && t in st.live
    ensures Chain(link, st.spans[t].freeList, st.free[t])
  {
    assert SpanBlocksOk(st, t);
    forall b | b in st.free[t] ensures b in link && link[b] == st.link[b] {
      if b in list {
        NewBlocksAreNew(st, t, span, b);
      }
    }
    ChainKept(st.link, link, st.spans[t].freeList, st.free[t]);
  }
}
