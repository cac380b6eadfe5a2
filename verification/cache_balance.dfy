/** Bookkeeping of the thread cache: what its counters record, and where every block is. */
module CacheBalance {
  import opened CacheState
  import opened CacheWeights
  import opened CentralFetch
  import opened Numbers

  // ---------------------------------------------------------------------------
  // Counts and bytes
  // ---------------------------------------------------------------------------

  /** Recorded counts are what 16 bits keep of the lengths; recorded bytes are exact. */
  ghost predicate Counted(lists: seq<seq<nat>>, counts: seq<nat>, bytes: nat) {
    && |lists| == |counts| == NUM_CLASSES
    && (forall c: nat :: c < NUM_CLASSES ==> counts[c] == Wrap(|lists[c]|))
    && bytes == Total(lists)
  }

  lemma WrapSteps(n: nat)
    ensures Wrap(Wrap(n) + 1) == Wrap(n + 1)
    ensures n > 0 ==> Wrap(Wrap(n) + MAX_UINT16) == Wrap(n - 1)
  {
  }

  lemma PopCounted(lists: seq<seq<nat>>, counts: seq<nat>, bytes: nat, c: nat)
    requires Counted(lists, counts, bytes) && c < NUM_CLASSES && lists[c] != []
    ensures bytes >= BlockSize(c)
    ensures Counted(lists[c := lists[c][1..]], counts[c := Wrap(counts[c] + MAX_UINT16)], bytes - BlockSize(c))
  {
    hide BlockSize, Weight, Wrap;
    WeightShorter(lists, c);
    WrapSteps(|lists[c]|);
  }

  lemma PushCounted(lists: seq<seq<nat>>, counts: seq<nat>, bytes: nat, c: nat, b: nat)
    requires Counted(lists, counts, bytes) && c < NUM_CLASSES
    ensures Counted(lists[c := [b] + lists[c]], counts[c := Wrap(counts[c] + 1)], bytes + BlockSize(c))
  {
    hide BlockSize, Weight, Wrap;
    WeightLonger(lists, c, b);
    WrapSteps(|lists[c]|);
  }

  // ---------------------------------------------------------------------------
  // One block after the other
  // ---------------------------------------------------------------------------

  lemma {:induction false} ReversedLonger(list: seq<nat>, b: nat)
    ensures Reversed(list + [b]) == [b] + Reversed(list)
  {
    if list == [] {
      assert ([] + [b])[1..] == [];
    } else {
      assert (list + [b])[1..] == list[1..] + [b];
      ReversedLonger(list[1..], b);
    }
  }

  lemma NothingMoved(list: seq<nat>, onto: seq<nat>)
    ensures Rest(list, 0) == list && Piled(list, 0, onto) == onto
  {
    assert list[..0] == [];
  }

  /** One more block off the front of a list, and onto another. */
  lemma OneMoved(list: seq<nat>, n: nat, onto: seq<nat>)
    requires n < |list|
    ensures Rest(list, n) != [] && Rest(list, n)[0] == list[n] && Rest(list, n)[1..] == Rest(list, n + 1)
    ensures Piled(list, n + 1, onto) == [list[n]] + Piled(list, n, onto)
  {
    assert list[..n + 1] == list[..n] + [list[n]];
    ReversedLonger(list[..n], list[n]);
  }

  lemma AllMoved(list: seq<nat>, n: nat, requested: nat, onto: seq<nat>)
    requires n == requested <= |list| || n == |list| <= requested
    ensures Rest(list, n) == Rest(list, requested) && Piled(list, n, onto) == Piled(list, requested, onto)
  {
  }

  // ---------------------------------------------------------------------------
  // Where the blocks are
  // ---------------------------------------------------------------------------

  ghost function Whereabouts(lists: seq<seq<nat>>, deferred: seq<seq<nat>>, central: seq<multiset<nat>>,
                             user: seq<multiset<nat>>, i: nat): multiset<nat>
    requires i < NUM_CLASSES == |lists| == |deferred| == |central| == |user|
  {
    multiset(lists[i]) + multiset(deferred[i]) + central[i] + user[i]
  }

  /** With `hand` blocks of class `c` in transit, every class's blocks are all accounted for. */
  ghost predicate Balanced(lists: seq<seq<nat>>, deferred: seq<seq<nat>>, central: seq<multiset<nat>>,
                           user: seq<multiset<nat>>, blocks: seq<set<nat>>, c: nat, hand: multiset<nat>)
  {
    && |lists| == |deferred| == |central| == |user| == |blocks| == NUM_CLASSES
    && forall i: nat :: i < NUM_CLASSES ==>
         multiset(blocks[i]) == Whereabouts(lists, deferred, central, user, i) + if i == c then hand else multiset{}
  }

  lemma SplitHead(list: seq<nat>)
    requires list != []
    ensures multiset(list) == multiset{list[0]} + multiset(list[1..])
  {
    assert list == [list[0]] + list[1..];
  }

  lemma PopBalanced(lists: seq<seq<nat>>, deferred: seq<seq<nat>>, central: seq<multiset<nat>>,
                    user: seq<multiset<nat>>, blocks: seq<set<nat>>, c: nat, hand: multiset<nat>)
    requires c < NUM_CLASSES && Balanced(lists, deferred, central, user, blocks, c, hand)
    requires lists[c] != []
    ensures Balanced(lists[c := lists[c][1..]], deferred, central, user, blocks, c, hand + multiset{lists[c][0]})
  {
    SplitHead(lists[c]);
  }

  lemma PushBalanced(lists: seq<seq<nat>>, deferred: seq<seq<nat>>, central: seq<multiset<nat>>,
                     user: seq<multiset<nat>>, blocks: seq<set<nat>>, c: nat, hand: multiset<nat>, b: nat)
    requires c < NUM_CLASSES && Balanced(lists, deferred, central, user, blocks, c, hand + multiset{b})
    ensures Balanced(lists[c := [b] + lists[c]], deferred, central, user, blocks, c, hand)
  {
    SplitHead([b] + lists[c]);
  }

  lemma DeferredMirrored(lists: seq<seq<nat>>, deferred: seq<seq<nat>>, central: seq<multiset<nat>>,
                         user: seq<multiset<nat>>, blocks: seq<set<nat>>, c: nat, hand: multiset<nat>)
    requires c < NUM_CLASSES && Balanced(lists, deferred, central, user, blocks, c, hand)
    ensures Balanced(deferred, lists, central, user, blocks, c, hand)
  {
    forall i: nat | i < NUM_CLASSES
      ensures multiset(blocks[i])
              == Whereabouts(deferred, lists, central, user, i) + if i == c then hand else multiset{}
    {
      assert multiset(blocks[i])
             == Whereabouts(lists, deferred, central, user, i) + if i == c then hand else multiset{};
    }
  }

  lemma GiveBalanced(lists: seq<seq<nat>>, deferred: seq<seq<nat>>, central: seq<multiset<nat>>,
                     user: seq<multiset<nat>>, blocks: seq<set<nat>>, c: nat, hand: multiset<nat>)
    requires c < NUM_CLASSES && Balanced(lists, deferred, central, user, blocks, c, hand)
    ensures Balanced(lists, deferred, central[c := central[c] + hand], user, blocks, c, multiset{})
  {
  }

  lemma FirstHand(batch: seq<nat>)
    requires batch != []
    ensures multiset(batch) == multiset(batch[1..]) + multiset{batch[0]}
  {
    SplitHead(batch);
  }

  lemma NextHand(batch: seq<nat>, i: nat)
    requires 0 < i < |batch|
    ensures multiset(batch[i..]) + multiset{batch[0]}
            == (multiset(batch[i + 1..]) + multiset{batch[0]}) + multiset{batch[i]}
  {
    SplitHead(batch[i..]);
    assert batch[i..][1..] == batch[i + 1..];
  }

  lemma LastHand(batch: seq<nat>)
    requires batch != []
    ensures multiset(batch[|batch|..]) + multiset{batch[0]} == multiset{} + multiset{batch[0]}
  {
  }
}
