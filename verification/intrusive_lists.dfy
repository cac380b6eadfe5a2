/** Lists threaded through their own elements: singly linked block lists and doubly linked
    span lists. Address or number 0 is the null pointer. */
module IntrusiveLists {
  import opened Sequences

  /** The element behind position `k`, or null. */
  function After(list: seq<nat>, k: nat): nat {
    if k + 1 < |list| then list[k + 1] else 0
  }

  /** The element in front of position `k`, or null. */
  function Before(list: seq<nat>, k: nat): nat {
    if 0 < k <= |list| then list[k - 1] else 0
  }

  // ---------------------------------------------------------------------------
  // Singly linked
  // ---------------------------------------------------------------------------

  /** Following `link` from `head` visits exactly `list` and then ends. */
  predicate Chain(link: map<nat, nat>, head: nat, list: seq<nat>) {
    && head == (if list == [] then 0 else list[0])
    && (forall k: nat :: k < |list| ==> list[k] != 0 && list[k] in link)
    && (forall k: nat :: k < |list| ==> link[list[k]] == After(list, k))
  }

  lemma ChainKept(link: map<nat, nat>, link': map<nat, nat>, head: nat, list: seq<nat>)
    requires Chain(link, head, list)
    requires forall b :: b in list ==> b in link' && (b in link ==> link'[b] == link[b])
    ensures Chain(link', head, list)
  {
    assert forall k :: 0 <= k < |list| ==> list[k] in list;
  }

  lemma ChainPushed(link: map<nat, nat>, head: nat, list: seq<nat>, b: nat)
    requires Chain(link, head, list) && b != 0 && b !in list
    ensures Chain(link[b := head], b, [b] + list)
  {
    var link', list' := link[b := head], [b] + list;
    forall k: nat | k < |list'|
      ensures list'[k] != 0 && list'[k] in link'
      ensures link'[list'[k]] == After(list', k)
    {
      if k > 0 {
        assert list'[k] == list[k - 1] && list[k - 1] in list && After(list', k) == After(list, k - 1);
      }
    }
  }

  lemma ChainPopped(link: map<nat, nat>, head: nat, list: seq<nat>)
    requires Chain(link, head, list) && list != []
    ensures head == list[0] && head != 0 && head in link && Chain(link, link[head], list[1..])
  {
    assert link[list[0]] == After(list, 0);
    forall k: nat | k < |list[1..]|
      ensures list[1..][k] != 0 && list[1..][k] in link
      ensures link[list[1..][k]] == After(list[1..], k)
    {
      assert list[1..][k] == list[k + 1] && After(list[1..], k) == After(list, k + 1);
    }
  }

  /** Hanging one list behind the last element of another. */
  lemma ChainSpliced(link: map<nat, nat>, head: nat, list: seq<nat>, head': nat, list': seq<nat>)
    requires Chain(link, head, list) && Chain(link, head', list') && list != [] && NoDuplicates(list + list')
    ensures Chain(link[list[|list| - 1] := head'], head, list + list')
  {
    var last := |list| - 1;
    var all, after := list + list', link[list[last] := head'];
    forall k: nat | k < |all|
      ensures all[k] != 0 && all[k] in after
      ensures after[all[k]] == After(all, k)
    {
      assert all[last] == list[last];
      if k < last {
        assert all[k] == list[k] && After(all, k) == After(list, k);
      } else if k > last {
        assert all[k] == list'[k - |list|] && After(all, k) == After(list', k - |list|);
      } else {
        assert list' != [] ==> all[k + 1] == list'[0];
      }
    }
  }

  // ---------------------------------------------------------------------------
  // Doubly linked
  // ---------------------------------------------------------------------------

  datatype Link = Link(next: nat, prev: nat)

  predicate DoubleChain(links: map<nat, Link>, head: nat, list: seq<nat>) {
    && head == (if list == [] then 0 else list[0])
    && (forall k: nat :: k < |list| ==> list[k] != 0 && list[k] in links)
    && (forall k: nat :: k < |list| ==> links[list[k]] == Link(After(list, k), Before(list, k)))
  }

  lemma DoubleChainKept(links: map<nat, Link>, links': map<nat, Link>, head: nat, list: seq<nat>)
    requires DoubleChain(links, head, list)
    requires forall s :: s in list ==> s in links' && (s in links ==> links'[s] == links[s])
    ensures DoubleChain(links', head, list)
  {
    assert forall k :: 0 <= k < |list| ==> list[k] in list;
  }

  function InsertFront(links: map<nat, Link>, head: nat, s: nat): map<nat, Link> {
    var inserted := links[s := Link(head, 0)];
    if head != 0 && head in inserted then inserted[head := inserted[head].(prev := s)] else inserted
  }

  lemma InsertedFront(links: map<nat, Link>, head: nat, list: seq<nat>, s: nat)
    requires DoubleChain(links, head, list) && s != 0 && s !in list && NoDuplicates(list)
    ensures DoubleChain(InsertFront(links, head, s), s, [s] + list) && NoDuplicates([s] + list)
    ensures forall x :: x in links && x != s && x !in list ==>
              x in InsertFront(links, head, s) && InsertFront(links, head, s)[x] == links[x]
  {
    var links', list' := InsertFront(links, head, s), [s] + list;
    assert list != [] ==> list[0] in list;
    forall k: nat | k < |list'|
      ensures list'[k] != 0 && list'[k] in links'
      ensures links'[list'[k]] == Link(After(list', k), Before(list', k))
    {
      if k > 0 {
        assert list'[k] == list[k - 1] && list[k - 1] in list && After(list', k) == After(list, k - 1);
        assert k > 1 ==> list[k - 1] != list[0] && Before(list', k) == Before(list, k - 1);
      } else {
        assert list != [] ==> list'[1] == list[0];
      }
    }
  }

  /** The links and the head after taking `s` out. */
  function Unlink(links: map<nat, Link>, head: nat, s: nat): (map<nat, Link>, nat)
    requires s in links
  {
    var l := links[s];
    var head' := if l.prev == 0 then l.next else head;
    var a := if l.prev != 0 && l.prev in links then links[l.prev := links[l.prev].(next := l.next)] else links;
    var b := if l.next != 0 && l.next in a then a[l.next := a[l.next].(prev := l.prev)] else a;
    (b[s := Link(0, 0)], head')
  }

  lemma UnlinkGet(links: map<nat, Link>, head: nat, s: nat, x: nat)
    requires s in links && x in links && x != s && x != 0
    ensures var (links', _) := Unlink(links, head, s);
            && x in links'
            && links'[x] == Link(if x == links[s].prev then links[s].next else links[x].next,
                                 if x == links[s].next then links[s].prev else links[x].prev)
  {
  }

  /** What the neighbours of position `j` are once position `i` is left out. */
  lemma Neighbours(list: seq<nat>, i: nat, k: nat)
    requires i < |list| && k < |list| - 1
    ensures var rest, j := list[..i] + list[i + 1..], if k < i then k else k + 1;
            && rest[k] == list[j]
            && After(rest, k) == (if j + 1 == i then After(list, i) else After(list, j))
            && Before(rest, k) == (if j == i + 1 then Before(list, i) else Before(list, j))
  {
  }

  /** Only neighbours of `list[i]` are linked to it. */
  lemma WhoIsNext(list: seq<nat>, i: nat, j: nat)
    requires NoDuplicates(list) && i < |list| && j < |list| && j != i && forall k :: 0 <= k < |list| ==> list[k] != 0
    ensures list[j] == Before(list, i) <==> j + 1 == i
    ensures list[j] == After(list, i) <==> j == i + 1
  {
  }

  lemma Unlinked(links: map<nat, Link>, head: nat, list: seq<nat>, i: nat)
    requires DoubleChain(links, head, list) && NoDuplicates(list) && i < |list|
    ensures var (links', head') := Unlink(links, head, list[i]);
            DoubleChain(links', head', list[..i] + list[i + 1..])
  {
    var s, rest := list[i], list[..i] + list[i + 1..];
    var (links', head') := Unlink(links, head, s);
    UnlinkedHead(links, head, list, i);
    forall k: nat | k < |rest|
      ensures rest[k] != 0 && rest[k] in links'
      ensures links'[rest[k]] == Link(After(rest, k), Before(rest, k))
    {
      hide *;
      UnlinkedAt(links, head, list, i, k);
    }
  }

  lemma UnlinkedAt(links: map<nat, Link>, head: nat, list: seq<nat>, i: nat, k: nat)
    requires DoubleChain(links, head, list) && NoDuplicates(list) && i < |list| && k < |list| - 1
    ensures var rest, links' := list[..i] + list[i + 1..], Unlink(links, head, list[i]).0;
            rest[k] != 0 && rest[k] in links' && links'[rest[k]] == Link(After(rest, k), Before(rest, k))
  {
    hide Unlink;
    var j := if k < i then k else k + 1;
    Neighbours(list, i, k);
    WhoIsNext(list, i, j);
    assert links[list[i]] == Link(After(list, i), Before(list, i));
    assert list[j] != 0 && links[list[j]] == Link(After(list, j), Before(list, j));
    UnlinkGet(links, head, list[i], list[j]);
  }

  /** Links outside the list stay as they are. */
  lemma UnlinkedFrame(links: map<nat, Link>, head: nat, list: seq<nat>, i: nat)
    requires DoubleChain(links, head, list) && NoDuplicates(list) && i < |list|
    ensures forall x :: x in links && x != 0 && x !in list ==>
              x in Unlink(links, head, list[i]).0 && Unlink(links, head, list[i]).0[x] == links[x]
  {
    hide Unlink;
    assert links[list[i]] == Link(After(list, i), Before(list, i));
    forall x | x in links && x != 0 && x !in list
      ensures x in Unlink(links, head, list[i]).0 && Unlink(links, head, list[i]).0[x] == links[x]
    {
      UnlinkGet(links, head, list[i], x);
      assert i > 0 ==> list[i - 1] in list;
      assert i + 1 < |list| ==> list[i + 1] in list;
    }
  }

  lemma UnlinkedHead(links: map<nat, Link>, head: nat, list: seq<nat>, i: nat)
    requires DoubleChain(links, head, list) && NoDuplicates(list) && i < |list|
    ensures var rest := list[..i] + list[i + 1..];
            Unlink(links, head, list[i]).1 == if rest == [] then 0 else rest[0]
  {
    assert links[list[i]] == Link(After(list, i), Before(list, i));
  }

  lemma RestMembers(list: seq<nat>, i: nat)
    requires NoDuplicates(list) && i < |list|
    ensures NoDuplicates(list[..i] + list[i + 1..])
    ensures forall x :: x in list[..i] + list[i + 1..] <==> x in list && x != list[i]
  {
    var rest := list[..i] + list[i + 1..];
    forall x | x in list && x != list[i] ensures x in rest {
      var j :| 0 <= j < |list| && list[j] == x;
      assert rest[if j < i then j else j - 1] == x;
    }
    forall x | x in rest ensures x in list && x != list[i] {
      var k :| 0 <= k < |rest| && rest[k] == x;
      assert rest[k] == list[if k < i then k else k + 1];
    }
    forall j, k | 0 <= j < k < |rest| ensures rest[j] != rest[k] {
      assert rest[j] == list[if j < i then j else j + 1] && rest[k] == list[if k < i then k else k + 1];
    }
  }
}
