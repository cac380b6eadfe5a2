/** Why giving blocks back keeps a central pool in order: groups of blocks waiting to go home,
    the walk over a returned chain, and what survives other operations meanwhile. */
module CentralReturns {
  import opened IntrusiveLists
  import opened CentralFetch
  import opened CentralState
  import opened CentralSteps
  import opened Numbers
  import opened Sequences

  /** Blocks of one span collected while a returned chain is walked. */
  datatype Group = Group(span: nat, head: nat, tail: nat, count: nat, shard: nat)

  /** What survives other operations: no new spans, and the live ones keep their place. */
  predicate SameShape(st: State, st': State) {
    && st'.live <= st.live && st'.live <= st.spans.Keys && st'.live <= st'.spans.Keys
    && st'.spans.Keys == st.spans.Keys && st'.foreign == st.foreign
    && st'.pageSize == st.pageSize && st'.sizeClass == st.sizeClass
    && |st'.shards| == |st.shards|
    && forall s :: s in st'.live ==>
         && st'.spans[s].base == st.spans[s].base && st'.spans[s].blockSize == st.spans[s].blockSize
         && st'.spans[s].totalBlocks == st.spans[s].totalBlocks && st'.spans[s].shard == st.spans[s].shard
  }

  lemma SameShapeReflexive(st: State)
    requires st.live <= st.spans.Keys
    ensures SameShape(st, st)
  {
  }

  lemma SameShapeTransitive(a: State, b: State, c: State)
    requires SameShape(a, b) && SameShape(b, c)
    ensures SameShape(a, c)
  {
  }

  /** Only flag `which` of span `s` and the lists changed. */
  ghost predicate Refiled(st: State, st': State, s: nat, which: Which, flag: bool) {
    && s in st.spans && |st'.shards| == |st.shards|
    && st' == st.(spans := st.spans[s := WithFlag(st.spans[s], which, flag)], links := st'.links, shards := st'.shards,
                  partial := st'.partial, empty := st'.empty)
    && forall k: nat :: k < |st.shards| ==>
         st'.shards[k].emptySpanCount == st.shards[k].emptySpanCount
           + if which.Empty? && k == st.spans[s].shard then (if flag then 1 else -1) else 0
  }

  lemma RefiledCore(st: State, st': State, s: nat, which: Which, flag: bool)
    requires Core(st) && s in st.live && Refiled(st, st', s, which, flag)
    ensures Core(st') && SameShape(st, st')
  {
    CoreUnaffected(st, st');
  }

  lemma GiveBackShape(st: State, s: nat, head: nat, blocks: seq<nat>)
    requires s in st.spans && s in st.free && blocks != [] && st.live <= st.spans.Keys
    ensures SameShape(st, GiveBack(st, s, head, blocks))
  {
  }

  lemma SameBlocks(st: State, st': State, s: nat)
    requires SameShape(st, st') && s in st'.live
    ensures forall b: nat :: IsBlock(st'.spans[s], b) <==> IsBlock(st.spans[s], b)
  {
  }

  /** A span with a block handed out has not been given up. */
  lemma StillLive(st: State, st': State, s: nat, b: nat)
    requires Core(st) && Core(st') && SameShape(st, st')
    requires s in st.live && IsBlock(st.spans[s], b) && b in st'.out
    ensures s in st'.live
  {
    var t :| t in st'.live && IsBlock(st'.spans[t], b);
    hide Indexed, BlocksOk, OnGrid;
    SameBlocks(st, st', t);
    OneOwner(st, s, t, b);
  }

  ghost predicate GroupOk(st: State, g: Group, list: seq<nat>) {
    && g.span in st.live && g.span in st.spans && Batch(st, g.span, g.head, list)
    && g.tail == list[|list| - 1] && g.count == |list| && g.shard == st.spans[g.span].shard
  }

  lemma GroupStays(st: State, st': State, g: Group, list: seq<nat>)
    requires Core(st) && Core(st') && SameShape(st, st') && GroupOk(st, g, list)
    requires forall b: nat :: b in list && b in st.out ==>
               b in st'.out && (b in st.link ==> b in st'.link && st'.link[b] == st.link[b])
    ensures GroupOk(st', g, list)
  {
    var last := list[|list| - 1];
    assert last in list;
    StillLive(st, st', g.span, last);
    SameBlocks(st, st', g.span);
    hide IsBlock, Shaped, Indexed, BlocksOk;
    forall b | b in list
      ensures b in st'.link[last := 0] && (b in st.link[last := 0] ==> st'.link[last := 0][b] == st.link[last := 0][b])
    {
      assert b in st.link[last := 0] by { ChainMember(st.link[last := 0], g.head, list, b); }
    }
    ChainKept(st.link[last := 0], st'.link[last := 0], g.head, list);
  }

  // ---------------------------------------------------------------------------
  // How many spans are idle
  // ---------------------------------------------------------------------------

  /** A shard's count of empty spans is the number of its spans without a block handed out. */
  lemma IdleAreCounted(st: State, k: nat)
    requires Inv(st) && k < |st.shards|
    ensures st.shards[k].emptySpanCount == |IdleSpans(st, st.out, k)|
  {
    assert ShardOk(st, k);
    var list := st.empty[k];
    forall s ensures s in list <==> s in IdleSpans(st, st.out, k) {
      if s in st.live {
        AllFree(st, s);
      }
    }
    hide Core, ListsOk, NoneOut, DoubleChain;
    DistinctCount(list);
    SetOfMembers(list);
    assert SetOf(list) == IdleSpans(st, st.out, k);
  }

  /** Of the spans there were in `was`, those that are idle now count up to the number kept. */
  ghost predicate Kept(was: State, st: State) {
    forall k: nat :: k < |st.shards| ==>
      st.shards[k].emptySpanCount == Min(MAX_RETAINED_EMPTY, |IdleSpans(was, st.out, k)|)
  }

  lemma NothingTrimmed(st: State)
    requires AtRest(st)
    ensures Kept(st, st)
  {
    forall k: nat | k < |st.shards|
      ensures st.shards[k].emptySpanCount == Min(MAX_RETAINED_EMPTY, |IdleSpans(st, st.out, k)|)
    {
      IdleAreCounted(st, k);
    }
  }

  /** Blocks of one span come back: that span may become idle, and no other does. */
  lemma IdleGrows(was: State, out: set<nat>, s: nat, list: seq<nat>, k: nat)
    requires Shaped(was) && Indexed(was) && s in was.live && s in was.spans && list != []
    requires forall b: nat :: b in list ==> b in out && IsBlock(was.spans[s], b)
    ensures var idle, idle' := IdleSpans(was, out, k), IdleSpans(was, out - SetOf(list), k);
            |idle'| == |idle| + if was.spans[s].shard == k && NoneOut(was.spans[s], out - SetOf(list)) then 1 else 0
  {
    SetOfMembers(list);
    var out' := out - SetOf(list);
    var idle, idle' := IdleSpans(was, out, k), IdleSpans(was, out', k);
    assert list[0] in list;
    hide SetOf, Indexed, Shaped, OnGrid;
    forall t | t in was.live && t in was.spans && t != s
      ensures NoneOut(was.spans[t], out') <==> NoneOut(was.spans[t], out)
    {
      OthersIdleAlike(was, out, s, list, t);
    }
    assert idle' == idle + if was.spans[s].shard == k && NoneOut(was.spans[s], out') then {s} else {};
    assert s !in idle;
  }

  lemma OthersIdleAlike(was: State, out: set<nat>, s: nat, list: seq<nat>, t: nat)
    requires Shaped(was) && Indexed(was) && s in was.live && s in was.spans && t in was.live && t in was.spans && t != s
    requires forall b: nat :: b in list ==> IsBlock(was.spans[s], b)
    ensures NoneOut(was.spans[t], out - SetOf(list)) <==> NoneOut(was.spans[t], out)
  {
    SetOfMembers(list);
    hide SetOf, Indexed, Shaped, OnGrid;
    forall b: nat | b in list ensures !IsBlock(was.spans[t], b) {
      if IsBlock(was.spans[t], b) {
        OneOwner(was, s, t, b);
      }
    }
  }

  /** What `Kept` needs of giving back one group. */
  lemma KeptFlush(was: State, st: State, st': State, g: Group, list: seq<nat>)
    requires Core(was) && Kept(was, st) && SameShape(was, st) && GroupOk(st, g, list) && st.out <= was.out
    requires |st'.shards| == |st.shards| && st'.out == st.out - SetOf(list)
    requires forall k: nat :: k < |st.shards| ==>
               st'.shards[k].emptySpanCount
               == if k == g.shard
                  then Min(MAX_RETAINED_EMPTY,
                           st.shards[k].emptySpanCount + if NoneOut(st.spans[g.span], st'.out) then 1 else 0)
                  else st.shards[k].emptySpanCount
    ensures Kept(was, st')
  {
    var s := g.span;
    SameBlocks(was, st, s);
    hide Core, SetOf, OnGrid, Batch;
    GroupBlocks(st, g, list);
    assert Shaped(was) && Indexed(was) by { CoreShape(was); }
    assert NoneOut(st.spans[s], st'.out) <==> NoneOut(was.spans[s], st'.out);
    forall k: nat | k < |st'.shards|
      ensures st'.shards[k].emptySpanCount == Min(MAX_RETAINED_EMPTY, |IdleSpans(was, st'.out, k)|)
    {
      IdleGrows(was, st.out, s, list, k);
    }
  }

  /** All blocks are free exactly when none is out, of the span as it was before. */
  lemma IdleNow(was: State, st: State, s: nat)
    requires Core(st) && SameShape(was, st) && s in st.live
    ensures s in was.spans && s in st.spans
    ensures st.spans[s].freeBlocks == st.spans[s].totalBlocks <==> NoneOut(was.spans[s], st.out)
  {
    AllFree(st, s);
    SameBlocks(was, st, s);
    hide Core, IsBlock;
  }

  lemma CoreShape(st: State)
    requires Core(st)
    ensures Shaped(st) && Indexed(st)
  {
  }

  lemma GroupBlocks(st: State, g: Group, list: seq<nat>)
    requires GroupOk(st, g, list)
    ensures list != [] && forall b: nat :: b in list ==> b in st.out && IsBlock(st.spans[g.span], b)
  {
  }

  /** Changes that leave the counts and the blocks handed out alone. */
  lemma KeptStays(was: State, st: State, st': State)
    requires Kept(was, st) && st'.out == st.out && st'.shards == st.shards
    ensures Kept(was, st')
  {
  }

  /** What the counts say of the spans themselves. */
  lemma KeptIdle(was: State, st: State)
    requires AtRest(st) && Kept(was, st)
    ensures forall k: nat :: k < |st.shards| ==>
              |IdleSpans(st, st.out, k)| == Min(MAX_RETAINED_EMPTY, |IdleSpans(was, st.out, k)|)
  {
    forall k: nat | k < |st.shards|
      ensures |IdleSpans(st, st.out, k)| == Min(MAX_RETAINED_EMPTY, |IdleSpans(was, st.out, k)|)
    {
      IdleAreCounted(st, k);
    }
  }

  lemma NeededStayLive(was: State, st: State)
    requires Core(was) && Core(st) && SameShape(was, st)
    ensures forall s, b: nat :: s in was.live && s in was.spans && IsBlock(was.spans[s], b) && b in st.out ==>
              s in st.live
  {
    hide Core, SameShape, IsBlock;
    forall s, b: nat | s in was.live && s in was.spans && IsBlock(was.spans[s], b) && b in st.out ensures s in st.live {
      StillLive(was, st, s, b);
    }
  }

  // ---------------------------------------------------------------------------
  // A returned chain being walked
  // ---------------------------------------------------------------------------

  ghost predicate Pending(st: State, groups: seq<Group>, lists: seq<seq<nat>>, first: nat) {
    && |groups| == |lists|
    && (forall k: nat :: first <= k < |groups| ==> GroupOk(st, groups[k], lists[k]))
    && (forall j, k :: 0 <= j < k < |groups| ==> groups[j].span != groups[k].span)
  }

  /** What is left of the chain, linked from `current`. */
  ghost predicate Unwalked(st: State, current: nat, rest: seq<nat>, lists: seq<seq<nat>>) {
    && Chain(st.link, current, rest) && NoDuplicates(rest)
    && (forall b: nat :: b in rest ==> b in st.out)
    && (forall k: nat, b: nat :: k < |lists| && b in lists[k] ==> b !in rest)
  }

  ghost predicate InSome(lists: seq<seq<nat>>, first: nat, b: nat) {
    exists k: nat :: first <= k < |lists| && b in lists[k]
  }

  /** The blocks walked so far are those given back and those in groups. */
  ghost predicate Accounted(walked: seq<nat>, flushed: set<nat>, lists: seq<seq<nat>>, first: nat) {
    forall b: nat :: b in walked <==> b in flushed || InSome(lists, first, b)
  }

  lemma PendingStays(st: State, st': State, groups: seq<Group>, lists: seq<seq<nat>>, first: nat)
    requires Core(st) && Core(st') && SameShape(st, st') && Pending(st, groups, lists, first)
    requires forall k: nat, b: nat :: first <= k < |lists| && b in lists[k] && b in st.out ==>
               b in st'.out && (b in st.link ==> b in st'.link && st'.link[b] == st.link[b])
    ensures Pending(st', groups, lists, first)
  {
    hide Core, SameShape, GroupOk;
    forall k: nat | first <= k < |groups| ensures GroupOk(st', groups[k], lists[k]) {
      GroupStays(st, st', groups[k], lists[k]);
    }
  }

  /** Groups of different spans have no block in common. */
  lemma GroupsApart(st: State, g: Group, list: seq<nat>, g': Group, list': seq<nat>)
    requires Core(st) && GroupOk(st, g, list) && GroupOk(st, g', list') && g.span != g'.span
    ensures forall b: nat :: b in list ==> b !in list'
  {
    hide Shaped, Indexed, BlocksOk, OnGrid, Chain;
    forall b: nat | b in list ensures b !in list' {
      if b in list' {
        OneOwner(st, g.span, g'.span, b);
      }
    }
  }

  /** The span of a block that is handed out is found whatever the hint. */
  lemma OwnerFound(st: State, b: nat, hint: nat)
    requires Core(st) && b in st.out && (hint == 0 || hint in st.spans)
    ensures st.pageSize > 0
    ensures var s := FindHinted(st.pageSize, st.pages, st.spans, b, hint, st.sizeClass);
            s != 0 && s in st.live && s in st.spans && !st.spans[s].released && IsBlock(st.spans[s], b)
  {
    var s :| s in st.live && IsBlock(st.spans[s], b);
    FindFindsOwner(st, b, hint, s);
  }

  lemma Grown(st: State, g: Group, list: seq<nat>, b: nat)
    requires GroupOk(st, g, list) && b in st.out && b != 0 && b !in list && IsBlock(st.spans[g.span], b)
    ensures GroupOk(st.(link := st.link[b := g.head]), Group(g.span, b, g.tail, g.count + 1, g.shard), [b] + list)
  {
    hide IsBlock;
    var last := list[|list| - 1];
    assert last in list && ([b] + list)[|list|] == last;
    ChainPushed(st.link[last := 0], g.head, list, b);
    assert st.link[last := 0][b := g.head] == st.link[b := g.head][last := 0];
  }

  lemma Started(st: State, s: nat, b: nat, v: nat)
    requires s in st.live && s in st.spans && b in st.out && b != 0 && IsBlock(st.spans[s], b)
    ensures GroupOk(st.(link := st.link[b := v]), Group(s, b, b, 1, st.spans[s].shard), [b])
  {
  }

  ghost function Relinked(st: State, b: nat, v: nat): State {
    st.(link := st.link[b := v])
  }

  /** The groups after block `b` of span `s` has joined group `k`. */
  ghost function GroupsWith(groups: seq<Group>, k: nat, s: nat, shard: nat, b: nat): seq<Group>
    requires k <= |groups|
  {
    if k < |groups| then groups[k := Group(groups[k].span, b, groups[k].tail, groups[k].count + 1, groups[k].shard)]
    else groups + [Group(s, b, b, 1, shard)]
  }

  ghost function ListsWith(lists: seq<seq<nat>>, k: nat, b: nat): seq<seq<nat>>
    requires k <= |lists|
  {
    if k < |lists| then lists[k := [b] + lists[k]] else lists + [[b]]
  }

  lemma InListsWith(lists: seq<seq<nat>>, k: nat, b: nat, x: nat)
    requires k <= |lists|
    ensures InSome(ListsWith(lists, k, b), 0, x) <==> x == b || InSome(lists, 0, x)
  {
    var lists' := ListsWith(lists, k, b);
    if InSome(lists, 0, x) {
      var j: nat :| j < |lists| && x in lists[j];
      assert x in lists'[j];
    }
    assert b in lists'[k];
  }

  lemma ListsWithMember(lists: seq<seq<nat>>, k: nat, b: nat, j: nat, x: nat)
    requires k <= |lists| && j < |ListsWith(lists, k, b)| && x in ListsWith(lists, k, b)[j]
    ensures x == b || (j < |lists| && x in lists[j])
  {
  }

  lemma ListsWithSize(groups: seq<Group>, lists: seq<seq<nat>>, k: nat, b: nat, st: State)
    requires Pending(st, groups, lists, 0) && k <= |groups|
    ensures k <= |lists|
    ensures k < |groups| ==> groups[k].tail != 0
  {
    if k < |groups| {
      assert GroupOk(st, groups[k], lists[k]);
    }
  }

  lemma RelinkKeepsRest(st: State, b: nat, v: nat)
    requires AtRest(st) && b in st.out
    ensures AtRest(Relinked(st, b, v)) && SameShape(st, Relinked(st, b, v))
  {
    RelinkKeepsCore(st, b, v);
    assert Shaped(st);
    hide Core, DoubleChain, NoDuplicates;
    var st' := Relinked(st, b, v);
    forall k: nat | k < |st'.shards| ensures ShardOk(st', k) {
      assert ShardOk(st, k);
    }
  }

  /** The chain moves on past its first block, whatever is done with that block. */
  lemma UnwalkedNext(st: State, st': State, b: nat, rest: seq<nat>, lists: seq<seq<nat>>, lists': seq<seq<nat>>)
    requires Unwalked(st, b, rest, lists) && rest != []
    requires forall x: nat :: x in st.link && x != b ==> x in st'.link && st'.link[x] == st.link[x]
    requires forall x: nat :: x in st.out && x != b ==> x in st'.out
    requires forall j: nat, x: nat :: j < |lists'| && x in lists'[j] ==> x == b || (j < |lists| && x in lists[j])
    ensures b == rest[0] && b in st.link && Unwalked(st', st.link[b], rest[1..], lists')
  {
    var next := rest[1..];
    assert rest == [b] + next && b !in next by { HeadOf(st.link, b, rest); }
    NextChain(st.link, st'.link, b, rest);
    hide Chain;
    forall j: nat, x: nat | j < |lists'| && x in lists'[j] ensures x !in next {
      assert x != b ==> x !in rest;
    }
  }

  lemma NextChain(link: map<nat, nat>, link': map<nat, nat>, b: nat, rest: seq<nat>)
    requires Chain(link, b, rest) && NoDuplicates(rest) && rest != []
    requires forall x: nat :: x in link && x != b ==> x in link' && link'[x] == link[x]
    ensures b == rest[0] && b in link && Chain(link', link[b], rest[1..]) && NoDuplicates(rest[1..])
  {
    ChainPopped(link, b, rest);
    var next := rest[1..];
    assert rest == [b] + next;
    hide Chain;
    forall x | x in next ensures x != b && x in link' && link'[x] == link[x] {
      ChainMember(link, b, rest, x);
    }
    ChainKept(link, link', link[b], next);
  }

  lemma Collected(st: State, s: nat, b: nat, groups: seq<Group>, lists: seq<seq<nat>>, k: nat, rest: seq<nat>)
    requires AtRest(st) && s in st.live && s in st.spans && IsBlock(st.spans[s], b)
    requires Pending(st, groups, lists, 0) && rest != [] && Unwalked(st, b, rest, lists)
    requires k <= |groups| && (k < |groups| ==> groups[k].span == s)
    requires k == |groups| ==> forall j :: 0 <= j < k ==> groups[j].span != s
    ensures k <= |lists| && b in st.link
    ensures var st' := Relinked(st, b, if k < |groups| then groups[k].head else 0);
            && AtRest(st') && Pending(st', GroupsWith(groups, k, s, st.spans[s].shard, b), ListsWith(lists, k, b), 0)
            && Unwalked(st', st.link[b], rest[1..], ListsWith(lists, k, b))
    ensures forall x: nat :: InSome(ListsWith(lists, k, b), 0, x) <==> x == b || InSome(lists, 0, x)
  {
    hide Core, ListsOk, Chain, NoDuplicates, SameShape, IsBlock, Batch, InSome;
    assert b == rest[0] != 0 && b in rest && b in st.out by { HeadOf(st.link, b, rest); }
    var v := if k < |groups| then groups[k].head else 0;
    var st' := Relinked(st, b, v);
    RelinkKeepsRest(st, b, v);
    PendingStays(st, st', groups, lists, 0);
    forall j: nat, x: nat | j < |ListsWith(lists, k, b)| && x in ListsWith(lists, k, b)[j]
      ensures x == b || (j < |lists| && x in lists[j])
    {
      ListsWithMember(lists, k, b, j, x);
    }
    UnwalkedNext(st, st', b, rest, lists, ListsWith(lists, k, b));
    if k < |groups| {
      Grown(st, groups[k], lists[k], b);
    } else {
      Started(st, s, b, 0);
    }
    forall x: nat ensures InSome(ListsWith(lists, k, b), 0, x) <==> x == b || InSome(lists, 0, x) {
      InListsWith(lists, k, b, x);
    }
  }

  /** One block flushed on its own leaves the groups and the rest of the chain as they are. */
  lemma SingleFlushed(st: State, st': State, b: nat, groups: seq<Group>, lists: seq<seq<nat>>, rest: seq<nat>)
    requires Core(st) && Core(st') && SameShape(st, st') && st'.out == st.out - SetOf([b])
    requires forall x: nat :: x in st.link && x != b ==> x in st'.link && st'.link[x] == st.link[x]
    requires Pending(st, groups, lists, 0) && Unwalked(st, b, rest, lists) && rest != []
    ensures b in st.link && st'.out == st.out - {b}
    ensures Pending(st', groups, lists, 0) && Unwalked(st', st.link[b], rest[1..], lists)
  {
    assert SetOf([b]) == {b} by { SetOfMembers([b]); }
    hide Core, Chain, NoDuplicates, SameShape, SetOf;
    assert b in rest by { HeadOf(st.link, b, rest); }
    UnwalkedNext(st, st', b, rest, lists, lists);
    PendingStays(st, st', groups, lists, 0);
  }

  /** Flushing one group leaves the others as they are. */
  lemma GroupFlushed(st: State, st': State, groups: seq<Group>, lists: seq<seq<nat>>, k: nat)
    requires Core(st) && Core(st') && SameShape(st, st') && Pending(st, groups, lists, k) && k < |groups|
    requires st'.out == st.out - SetOf(lists[k])
    requires forall x: nat :: x in st.link && x != groups[k].tail ==> x in st'.link && st'.link[x] == st.link[x]
    ensures Pending(st', groups, lists, k + 1)
  {
    hide Core, GroupOk, SameShape, SetOf;
    SetOfMembers(lists[k]);
    TailInList(st, groups[k], lists[k]);
    forall j: nat, b: nat | k + 1 <= j < |lists| && b in lists[j] && b in st.out
      ensures b in st'.out && (b in st.link ==> b in st'.link && st'.link[b] == st.link[b])
    {
      GroupsApart(st, groups[j], lists[j], groups[k], lists[k]);
      assert b !in lists[k];
    }
    PendingStays(st, st', groups, lists, k + 1);
  }

  lemma TailInList(st: State, g: Group, list: seq<nat>)
    requires GroupOk(st, g, list)
    ensures g.tail in list
  {
  }

  lemma AccountedNext(walked: seq<nat>, b: nat, flushed: set<nat>, lists: seq<seq<nat>>, flushed': set<nat>,
                      lists': seq<seq<nat>>)
    requires Accounted(walked, flushed, lists, 0)
    requires forall x: nat :: (x in flushed' || InSome(lists', 0, x)) <==> x == b || x in flushed || InSome(lists, 0, x)
    ensures Accounted(walked + [b], flushed', lists', 0)
  {
    hide InSome;
  }

  lemma AccountedFlush(walked: seq<nat>, flushed: set<nat>, lists: seq<seq<nat>>, k: nat)
    requires Accounted(walked, flushed, lists, k) && k < |lists|
    ensures Accounted(walked, flushed + SetOf(lists[k]), lists, k + 1)
  {
    SetOfMembers(lists[k]);
    hide SetOf;
    forall b: nat ensures InSome(lists, k, b) <==> b in lists[k] || InSome(lists, k + 1, b) {
    }
  }

  /** Where the walk over the returned chain stands after `i` blocks. */
  ghost predicate WalkOk(was: State, st: State, chain: seq<nat>, i: nat, current: nat, hint: nat,
                         groups: seq<Group>, lists: seq<seq<nat>>, flushed: set<nat>)
  {
    && AtRest(was) && AtRest(st) && SameShape(was, st) && Kept(was, st) && i <= |chain| && |groups| <= MAX_GROUPS
    && Pending(st, groups, lists, 0) && Unwalked(st, current, chain[i..], lists)
    && Accounted(chain[..i], flushed, lists, 0) && st.out == was.out - flushed
    && (hint == 0 || hint in st.spans)
  }

  ghost predicate FlushOk(was: State, st: State, walked: seq<nat>, groups: seq<Group>, lists: seq<seq<nat>>, k: nat,
                          flushed: set<nat>)
  {
    && AtRest(was) && AtRest(st) && SameShape(was, st) && Kept(was, st) && k <= |groups|
    && Pending(st, groups, lists, k)
    && Accounted(walked, flushed, lists, k) && st.out == was.out - flushed
  }

  lemma FlushStart(was: State, st: State, chain: seq<nat>, i: nat, current: nat, hint: nat, count: nat,
                   groups: seq<Group>, lists: seq<seq<nat>>, flushed: set<nat>)
    requires WalkOk(was, st, chain, i, current, hint, groups, lists, flushed) && i <= count
    requires i == count || current == 0
    ensures i == Min(count, |chain|)
    ensures FlushOk(was, st, chain[..i], groups, lists, 0, flushed)
  {
    hide AtRest, SameShape, Pending, Accounted, Kept;
  }

  lemma FlushEnd(was: State, st: State, walked: seq<nat>, groups: seq<Group>, lists: seq<seq<nat>>, flushed: set<nat>)
    requires FlushOk(was, st, walked, groups, lists, |groups|, flushed)
    ensures st.out == was.out - SetOf(walked) && AtRest(st) && SameShape(was, st) && Kept(was, st)
  {
    SetOfMembers(walked);
    hide AtRest, SameShape, SetOf, GroupOk, Kept;
    assert forall b: nat :: b in walked <==> b in flushed;
  }

  lemma HeadOf(link: map<nat, nat>, head: nat, list: seq<nat>)
    requires Chain(link, head, list) && list != []
    ensures head == list[0] && head != 0 && head in list
  {
  }

  lemma ChainMember(link: map<nat, nat>, head: nat, list: seq<nat>, b: nat)
    requires Chain(link, head, list) && b in list
    ensures b in link && b != 0
  {
  }

  lemma SingleGroup(st: State, s: nat, b: nat)
    requires s in st.live && s in st.spans && b in st.out && b != 0 && b in st.link && IsBlock(st.spans[s], b)
    ensures GroupOk(st, Group(s, b, b, 1, st.spans[s].shard), [b])
  {
    Started(st, s, b, st.link[b]);
    assert st.link[b := st.link[b]] == st.link;
  }

  lemma RelinkShape(st: State, st': State)
    requires st' == st.(link := st'.link) && st.live <= st.spans.Keys
    ensures SameShape(st, st')
  {
  }

  lemma HeadOfRest(st: State, chain: seq<nat>, i: nat, current: nat, lists: seq<seq<nat>>)
    requires i <= |chain| && Unwalked(st, current, chain[i..], lists) && current != 0
    ensures i < |chain| && chain[i..] != [] && current == chain[i] && current in st.out && current in st.link
    ensures chain[i..][1..] == chain[i + 1..] && chain[..i + 1] == chain[..i] + [current]
  {
    assert chain[i..] != [];
    assert current in chain[i..];
  }

  lemma WalkStart(st: State, head: nat, hint: nat, chain: seq<nat>)
    requires AtRest(st) && Chain(st.link, head, chain) && NoDuplicates(chain)
    requires forall b: nat :: b in chain ==> b in st.out
    requires hint == 0 || hint in st.spans
    ensures WalkOk(st, st, chain, 0, head, hint, [], [], {})
  {
    CoreFacts(st);
    SameShapeReflexive(st);
    NothingTrimmed(st);
    hide AtRest, SameShape, Chain, NoDuplicates, Kept;
    assert chain[0..] == chain;
  }

  lemma NothingReturned(st: State, head: nat, count: nat, chain: seq<nat>)
    requires AtRest(st) && Chain(st.link, head, chain) && (head == 0 || count == 0)
    ensures SameShape(st, st) && SetOf(chain[..Min(count, |chain|)]) == {}
  {
    CoreFacts(st);
  }

  lemma SameShards(st: State, st': State)
    requires SameShape(st, st')
    ensures |st'.shards| == |st.shards| && st'.spans.Keys == st.spans.Keys
  {
  }

  lemma CountsMatch(st: State)
    requires ListsOk(st)
    ensures |st.empty| == |st.shards|
    ensures forall k: nat :: k < |st.shards| ==> st.shards[k].emptySpanCount == |st.empty[k]|
  {
    forall k: nat | k < |st.shards| ensures st.shards[k].emptySpanCount == |st.empty[k]| {
      assert ShardOk(st, k);
    }
  }

  /** The end of a list, `n` elements at most. */
  function LastFew(list: seq<nat>, n: nat): seq<nat> {
    list[|list| - Min(n, |list|)..]
  }

  lemma GivenAreGone(st: State, k: nat, given: nat)
    requires ListsOk(st) && k < |st.empty| && given <= |st.empty[k]|
    ensures forall s :: s in st.empty[k][..given] ==> s !in st.empty[k][given..]
  {
    assert ShardOk(st, k);
  }

  /** All that a whole return of blocks says of spans. */
  lemma Returned(was: State, st: State)
    requires AtRest(was) && AtRest(st) && SameShape(was, st) && (Kept(was, st) || st == was)
    ensures forall s, b: nat :: s in was.live && s in was.spans && IsBlock(was.spans[s], b) && b in st.out ==>
              s in st.live
    ensures forall k: nat :: k < |st.shards| ==>
              |IdleSpans(st, st.out, k)| == Min(MAX_RETAINED_EMPTY, |IdleSpans(was, st.out, k)|)
  {
    hide Core, ListsOk, SameShape, IsBlock, Kept, IdleSpans;
    if st == was {
      NothingTrimmed(st);
    }
    NeededStayLive(was, st);
    KeptIdle(was, st);
  }

  lemma FirstEmpty(st: State, k: nat)
    requires Inv(st) && k < |st.shards| && st.shards[k].emptySpanCount > 0
    ensures var s := st.shards[k].emptySpans;
            s != 0 && s in st.live && s in st.spans && st.spans[s].inEmpty && st.spans[s].shard == k
            && k < |st.empty| && st.empty[k] != [] && st.empty[k][0] == s
  {
    assert ShardOk(st, k);
    assert st.empty[k][0] in st.empty[k];
  }

  lemma GiveBackKeepsLists(st: State, s: nat, head: nat, blocks: seq<nat>)
    requires ListsOk(st) && s in st.live && s in st.spans && s in st.free && blocks != []
    ensures ListsOk(GiveBack(st, s, head, blocks))
  {
    hide DoubleChain, NoDuplicates;
    var st' := GiveBack(st, s, head, blocks);
    forall k: nat | k < |st'.shards| ensures ShardOk(st', k) {
      assert ShardOk(st, k);
    }
  }

  /** Ready facts about spans. */
  lemma LiveFacts(st: State, s: nat)
    requires Inv(st)
    ensures Shaped(st) && st.live <= st.spans.Keys && 0 !in st.spans
    ensures s in st.live ==>
              && s != 0 && s in st.spans && s in st.free && st.spans[s].totalBlocks > 0 && FlagsOk(st.spans[s])
              && st.spans[s].shard < |st.shards|
  {
    if s in st.live {
      assert SpanBlocksOk(st, s);
    }
  }

  lemma ReturnedBatch(st: State, s: nat, head: nat, blocks: seq<nat>)
    requires Core(st) && ListsOk(st) && s in st.live && s in st.spans && Batch(st, s, head, blocks)
    ensures blocks != [] && s != 0 && s in st.free && st.live <= st.spans.Keys
    ensures st.spans[s].freeBlocks + |blocks| <= st.spans[s].totalBlocks
    ensures var st' := GiveBack(st, s, head, blocks); Core(st') && ListsOk(st') && SameShape(st, st')
  {
    BatchIsSome(st, s, head, blocks);
    assert SpanBlocksOk(st, s);
    BatchFits(st, s, head, blocks);
    GiveBackKeepsCore(st, s, head, blocks);
    CoreFacts(st);
    hide Core, ListsOk, Batch, SetOf, SameShape, GiveBack;
    GiveBackKeepsLists(st, s, head, blocks);
    GiveBackShape(st, s, head, blocks);
  }

  lemma BatchIsSome(st: State, s: nat, head: nat, blocks: seq<nat>)
    requires s in st.spans && Batch(st, s, head, blocks)
    ensures blocks != []
  {
  }

  lemma AdoptableFacts(st: State, s: nat, span: Span, link: map<nat, nat>, list: seq<nat>)
    requires Core(st) && Adoptable(st, s, span, link, list)
    ensures s != 0 && s !in st.live && forall page :: page in st.pages ==> !IsPageOf(st.pageSize, span, page)
    ensures NoneOut(span, st.out)
  {
    AdoptedNotOut(st, s, span);
  }

  lemma NoneFree(st: State, s: nat)
    requires Core(st) && s in st.live
    ensures s in st.spans && s in st.free && (st.spans[s].freeList == 0 <==> st.free[s] == [])
  {
    assert SpanBlocksOk(st, s);
  }

  lemma FreeCount(st: State, s: nat)
    requires Core(st) && s in st.live
    ensures s in st.spans && s in st.free && st.spans[s].freeBlocks == |st.free[s]| && NoDuplicates(st.free[s])
    ensures forall b: nat :: b in st.free[s] ==> IsBlock(st.spans[s], b) && b !in st.out
  {
    assert SpanBlocksOk(st, s);
  }

  lemma OneMovedOver(taken: seq<nat>, left: seq<nat>, all: seq<nat>)
    requires taken + left == all && left != []
    ensures (taken + [left[0]]) + left[1..] == all && |taken| < |all|
  {
    assert left == [left[0]] + left[1..];
  }

  lemma SetOfLonger(list: seq<nat>, b: nat)
    ensures SetOf(list + [b]) == SetOf(list) + {b}
  {
    SetOfMembers(list);
    SetOfMembers(list + [b]);
    hide SetOf;
  }

  lemma FirstListed(st: State, k: nat)
    requires Inv(st) && k < |st.shards|
    ensures var s := st.shards[k].partialSpans; s != 0 ==> s in st.live && s in st.spans && st.spans[s].inPartial
    ensures var s := st.shards[k].emptySpans; s != 0 ==> s in st.live && s in st.spans && st.spans[s].inEmpty
    ensures st.shards[k].emptySpans == 0 ==> st.shards[k].emptySpanCount == 0
  {
    assert ShardOk(st, k);
    assert st.partial[k] != [] ==> st.partial[k][0] in st.partial[k];
    assert st.empty[k] != [] ==> st.empty[k][0] in st.empty[k];
    assert st.empty[k] != [] ==> st.empty[k][0] != 0;
  }

  lemma SameGrid(s: Span, t: Span, b: nat)
    requires t.base == s.base && t.blockSize == s.blockSize && t.totalBlocks == s.totalBlocks
    ensures IsBlock(s, b) <==> IsBlock(t, b)
    ensures IsBlock(s, b) ==> b != 0
  {
  }

  lemma Served(st: State, st': State, s: nat, blocks: seq<nat>)
    requires Core(st) && s in st.live && s in st.free && |blocks| <= |st.free[s]| && blocks == st.free[s][..|blocks|]
    requires s in st.spans && s in st'.spans && st'.spans[s].base == st.spans[s].base
    requires st'.spans[s].blockSize == st.spans[s].blockSize && st'.spans[s].totalBlocks == st.spans[s].totalBlocks
    ensures NoDuplicates(blocks) && forall b: nat :: b in blocks ==> b !in st.out && b != 0 && IsBlock(st'.spans[s], b)
  {
    hide Core, OnGrid, IsBlock;
    FreeCount(st, s);
    forall b: nat | b in blocks ensures b in st.free[s] && b != 0 && IsBlock(st'.spans[s], b) {
      SameGrid(st.spans[s], st'.spans[s], b);
    }
  }

  lemma SpareIsFree(st: State, spare: nat)
    requires Shaped(st) && (spare in st.spans ==> st.spans[spare] == SPARE)
    ensures spare !in st.live + st.foreign
  {
  }

  lemma ChainNone(link: map<nat, nat>)
    ensures Chain(link, 0, [])
  {
  }

  lemma OutIsBlock(st: State, b: nat)
    requires AtRest(st) && b in st.out
    ensures b != 0
  {
    var s :| s in st.live && IsBlock(st.spans[s], b);
  }

  lemma HeldOrFree(st: State)
    requires AtRest(st)
    ensures forall b: nat :: b in st.out ==> exists s :: s in st.live && s in st.spans && IsBlock(st.spans[s], b)
    ensures forall s, b: nat :: s in st.live && s in st.spans && s in st.free && IsBlock(st.spans[s], b)
              ==> (b in st.out <==> b !in st.free[s])
  {
    hide OnGrid, IsBlock, Chain, ListsOk;
    forall s, b: nat | s in st.live && s in st.spans && s in st.free && IsBlock(st.spans[s], b)
      ensures b in st.out <==> b !in st.free[s]
    {
      assert SpanBlocksOk(st, s);
    }
  }

  lemma CoreFacts(st: State)
    requires Core(st)
    ensures Shaped(st) && st.live <= st.spans.Keys && 0 !in st.spans && st.pageSize > 0
  {
  }

  lemma RetireShape(st: State, s: nat)
    requires s in st.spans && st.pageSize > 0 && st.live <= st.spans.Keys
    ensures SameShape(st, Retire(st, s))
  {
    hide PagesWithout;
  }

  /** The front of shard `k`'s list is gone. */
  ghost predicate FrontGone(lists: seq<seq<nat>>, lists': seq<seq<nat>>, k: nat) {
    k < |lists| && lists[k] != [] && lists' == lists[k := lists[k][1..]]
  }

  lemma RetiredWhole(was: State, st: State, s: nat)
    requires Core(st) && ListsOk(st) && SameShape(was, st) && s in st.live && s in st.spans
    requires !st.spans[s].inPartial && !st.spans[s].inEmpty && NoneOut(st.spans[s], st.out)
    ensures st.pageSize > 0 && Core(Retire(st, s)) && ListsOk(Retire(st, s)) && SameShape(was, Retire(st, s))
  {
    hide ListsOk, SameShape, Retire, PagesWithout, IsBlock;
    CoreFacts(st);
    RetireKeepsCore(st, s);
    RetireKeepsLists(st, s);
    RetireShape(st, s);
    SameShapeTransitive(was, st, Retire(st, s));
  }

  lemma RetireKeepsLists(st: State, s: nat)
    requires ListsOk(st) && Core(st) && s in st.live && s in st.spans && !st.spans[s].inPartial && !st.spans[s].inEmpty
    ensures ListsOk(Retire(st, s))
  {
    hide DoubleChain, NoDuplicates;
    var st' := Retire(st, s);
    forall k: nat | k < |st'.shards| ensures ShardOk(st', k) {
      assert ShardOk(st, k);
    }
  }
}
