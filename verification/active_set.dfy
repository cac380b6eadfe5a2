/** The set of identifiers in use: open addressing with linear probing, tombstones and
    rehashing, for an arbitrary hash function. */
module ActiveSets {
  import opened Numbers

  datatype SlotState = Empty | Occupied | Tombstone

  const INVALID_ID: nat := 0
  const MIN_CAPACITY: nat := 16

  // ---------------------------------------------------------------------------
  // Capacities
  // ---------------------------------------------------------------------------

  predicate IsPowerOfTwo(n: nat)
    decreases n
  {
    n == 1 || (n >= 2 && n % 2 == 0 && IsPowerOfTwo(n / 2))
  }

  /** The least power of two that is at least `n`, searched upwards from `p`. */
  function BitCeilFrom(n: nat, p: nat): (r: nat)
    requires p >= 1 && IsPowerOfTwo(p)
    ensures r >= n && r >= p && IsPowerOfTwo(r)
    ensures r == p || r < 2 * n
    decreases if p >= n then 0 else n - p
  {
    if p >= n then p else BitCeilFrom(n, 2 * p)
  }

  function NormalizeCapacity(capacity: nat): (r: nat)
    ensures r >= capacity && r >= MIN_CAPACITY && IsPowerOfTwo(r)
    ensures capacity >= MIN_CAPACITY ==> r < 2 * capacity
  {
    BitCeilFrom(if capacity < MIN_CAPACITY then MIN_CAPACITY else capacity, 1)
  }

  // ---------------------------------------------------------------------------
  // Probe sequences
  // ---------------------------------------------------------------------------

  type Hash = nat -> nat

  /** Masking with `Capacity - 1` is the remainder, capacities being powers of two. */
  function Home(mix: Hash, capacity: nat, id: nat): (i: nat)
    requires capacity > 0
    ensures i < capacity
  {
    mix(id) % capacity
  }

  /** The slot `probe` steps on from `start`, going round. */
  function Index(capacity: nat, start: nat, probe: nat): (i: nat)
    requires start < capacity && probe < capacity
    ensures i < capacity
  {
    if start + probe < capacity then start + probe else start + probe - capacity
  }

  /** How the program computes it: masking with `capacity - 1` again. */
  function Masked(capacity: nat, start: nat, probe: nat): (i: nat)
    requires start < capacity && probe < capacity
    ensures i == Index(capacity, start, probe)
  {
    var i := Index(capacity, start, probe);
    DivisionIs(start + probe, capacity, if i == start + probe then 0 else 1, i);
    (start + probe) % capacity
  }

  /** How many probes from `start` reach slot `i`. */
  function Distance(capacity: nat, start: nat, i: nat): (d: nat)
    requires start < capacity && i < capacity
    ensures d < capacity && Index(capacity, start, d) == i
    ensures forall p: nat :: p < capacity && Index(capacity, start, p) == i ==> p == d
  {
    if i >= start then i - start else i + capacity - start
  }

  // ---------------------------------------------------------------------------
  // Tables
  // ---------------------------------------------------------------------------

  datatype Table = Table(keys: seq<nat>, states: seq<SlotState>)

  predicate Sized(t: Table) {
    |t.keys| == |t.states|
  }

  /** No empty slot lies on the probe sequence of the key in slot `i` before that slot. */
  predicate Reachable(mix: Hash, t: Table, i: nat)
    requires Sized(t) && i < |t.keys|
  {
    var n := |t.keys|;
    var start := Home(mix, n, t.keys[i]);
    forall p: nat :: p < Distance(n, start, i) ==> t.states[Index(n, start, p)] != Empty
  }

  ghost predicate TableOk(mix: Hash, t: Table) {
    && Sized(t)
    && (forall i: nat :: i < |t.keys| && t.states[i] == Occupied ==> t.keys[i] != INVALID_ID && Reachable(mix, t, i))
    && (forall i: nat, j: nat :: i < j < |t.keys| && t.states[i] == Occupied && t.states[j] == Occupied
          ==> t.keys[i] != t.keys[j])
  }

  function Elements(t: Table): set<nat>
    requires Sized(t)
  {
    set i: nat | i < |t.keys| && t.states[i] == Occupied :: t.keys[i]
  }

  function Count(states: seq<SlotState>, s: SlotState): (n: nat)
    ensures n <= |states|
  {
    if states == [] then 0
    else Count(states[..|states| - 1], s) + if states[|states| - 1] == s then 1 else 0
  }

  lemma {:induction false} CountUpdate(states: seq<SlotState>, i: nat, to: SlotState, s: SlotState)
    requires i < |states|
    ensures Count(states[i := to], s)
            == Count(states, s) - (if states[i] == s then 1 else 0) + (if to == s then 1 else 0)
    decreases |states|
  {
    var n := |states| - 1;
    if i < n {
      assert states[i := to][..n] == states[..n][i := to];
      CountUpdate(states[..n], i, to, s);
    } else {
      assert states[i := to][..n] == states[..n];
    }
  }

  lemma {:induction false} CountsAdd(states: seq<SlotState>)
    ensures Count(states, Occupied) + Count(states, Tombstone) + Count(states, Empty) == |states|
    decreases |states|
  {
    if states != [] {
      CountsAdd(states[..|states| - 1]);
    }
  }

  lemma {:induction false} NoneCounted(states: seq<SlotState>, s: SlotState)
    requires forall i :: 0 <= i < |states| ==> states[i] != s
    ensures Count(states, s) == 0
    decreases |states|
  {
    if states != [] {
      NoneCounted(states[..|states| - 1], s);
    }
  }

  lemma {:induction false} AllCounted(states: seq<SlotState>, s: SlotState)
    requires forall i :: 0 <= i < |states| ==> states[i] == s
    ensures Count(states, s) == |states|
    decreases |states|
  {
    if states != [] {
      AllCounted(states[..|states| - 1], s);
    }
  }

  /** What a search has seen after `probe` steps: neither an empty slot nor the key. */
  predicate Passed(mix: Hash, t: Table, id: nat, probe: nat)
    requires Sized(t) && |t.keys| > 0 && probe <= |t.keys|
  {
    var n := |t.keys|;
    var start := Home(mix, n, id);
    forall p: nat :: p < probe ==>
      t.states[Index(n, start, p)] != Empty
      && !(t.states[Index(n, start, p)] == Occupied && t.keys[Index(n, start, p)] == id)
  }

  /** A search that meets an empty slot, or has been all around, has proved the key absent. */
  lemma SearchEnds(mix: Hash, t: Table, id: nat, probe: nat)
    requires TableOk(mix, t) && |t.keys| > 0 && probe <= |t.keys| && Passed(mix, t, id, probe)
    requires probe < |t.keys| ==> t.states[Index(|t.keys|, Home(mix, |t.keys|, id), probe)] == Empty
    ensures id !in Elements(t)
  {
    var n := |t.keys|;
    var start := Home(mix, n, id);
    forall i: nat | i < n && t.states[i] == Occupied ensures t.keys[i] != id {
      assert Reachable(mix, t, i);
      assert Index(n, start, Distance(n, start, i)) == i;
    }
  }

  lemma SearchFull(mix: Hash, t: Table, id: nat)
    requires Sized(t) && |t.keys| > 0 && Passed(mix, t, id, |t.keys|)
    ensures Count(t.states, Occupied) + Count(t.states, Tombstone) == |t.keys|
  {
    var n := |t.keys|;
    forall i: nat | i < n ensures t.states[i] != Empty {
      var d := Distance(n, Home(mix, n, id), i);
      assert Index(n, Home(mix, n, id), d) == i;
    }
    NoneCounted(t.states, Empty);
    CountsAdd(t.states);
  }

  lemma Found(t: Table, i: nat)
    requires Sized(t) && i < |t.keys| && t.states[i] == Occupied
    ensures t.keys[i] in Elements(t)
  {
  }

  lemma StepPast(mix: Hash, t: Table, id: nat, probe: nat)
    requires Sized(t) && probe < |t.keys| && Passed(mix, t, id, probe)
    requires var i := Index(|t.keys|, Home(mix, |t.keys|, id), probe);
             t.states[i] != Empty && !(t.states[i] == Occupied && t.keys[i] == id)
    ensures Passed(mix, t, id, probe + 1)
  {
  }

  lemma NothingPassed(mix: Hash, t: Table, id: nat)
    requires Sized(t) && |t.keys| > 0
    ensures Passed(mix, t, id, 0)
  {
  }

  function Put(t: Table, i: nat, id: nat): Table
    requires Sized(t) && i < |t.keys|
  {
    Table(t.keys[i := id], t.states[i := Occupied])
  }

  /** Storing an absent key in a free slot that its search passed, or stopped at. */
  lemma PutKeepsTable(mix: Hash, t: Table, id: nat, probe: nat)
    requires TableOk(mix, t) && 0 < |t.keys| && probe < |t.keys| && id != INVALID_ID && id !in Elements(t)
    requires forall p: nat :: p < probe ==> t.states[Index(|t.keys|, Home(mix, |t.keys|, id), p)] != Empty
    requires t.states[Index(|t.keys|, Home(mix, |t.keys|, id), probe)] != Occupied
    ensures var i := Index(|t.keys|, Home(mix, |t.keys|, id), probe);
            var t' := Put(t, i, id);
            && TableOk(mix, t') && Elements(t') == Elements(t) + {id}
            && Count(t'.states, Occupied) == Count(t.states, Occupied) + 1
            && Count(t'.states, Tombstone) == Count(t.states, Tombstone) - if t.states[i] == Tombstone then 1 else 0
  {
    var n := |t.keys|;
    var i := Index(n, Home(mix, n, id), probe);
    var t' := Put(t, i, id);
    assert Distance(n, Home(mix, n, id), i) == probe;
    forall j: nat | j < n && t'.states[j] == Occupied ensures t'.keys[j] != INVALID_ID && Reachable(mix, t', j) {
      if j != i {
        assert Reachable(mix, t, j);
      }
    }
    forall j: nat | j < n && j != i && t.states[j] == Occupied ensures t.keys[j] != id {
      assert t.keys[j] in Elements(t);
    }
    PutElements(t, i, id);
    CountUpdate(t.states, i, Occupied, Occupied);
    CountUpdate(t.states, i, Occupied, Tombstone);
  }

  lemma PutElements(t: Table, i: nat, id: nat)
    requires Sized(t) && i < |t.keys| && t.states[i] != Occupied
    ensures Elements(Put(t, i, id)) == Elements(t) + {id}
  {
    var t' := Put(t, i, id);
    forall x | x in Elements(t) + {id} ensures x in Elements(t') {
      if x in Elements(t) {
        var j: nat :| j < |t.keys| && t.states[j] == Occupied && t.keys[j] == x;
        assert t'.states[j] == Occupied && t'.keys[j] == x;
      } else {
        assert t'.states[i] == Occupied && t'.keys[i] == x;
      }
    }
    forall x | x in Elements(t') ensures x in Elements(t) + {id} {
      var j: nat :| j < |t.keys| && t'.states[j] == Occupied && t'.keys[j] == x;
      if j != i {
        assert t.states[j] == Occupied && t.keys[j] == x;
      }
    }
  }

  function Bury(t: Table, i: nat): Table
    requires Sized(t) && i < |t.keys|
  {
    Table(t.keys[i := INVALID_ID], t.states[i := Tombstone])
  }

  lemma BuryKeepsTable(mix: Hash, t: Table, i: nat)
    requires TableOk(mix, t) && i < |t.keys| && t.states[i] == Occupied
    ensures var t' := Bury(t, i);
            && TableOk(mix, t') && Elements(t') == Elements(t) - {t.keys[i]}
            && Count(t'.states, Occupied) == Count(t.states, Occupied) - 1
            && Count(t'.states, Tombstone) == Count(t.states, Tombstone) + 1
  {
    var n, t' := |t.keys|, Bury(t, i);
    forall j: nat | j < n && t'.states[j] == Occupied ensures t'.keys[j] != INVALID_ID && Reachable(mix, t', j) {
      assert Reachable(mix, t, j);
    }
    forall x | x in Elements(t) - {t.keys[i]} ensures x in Elements(t') {
      var j: nat :| j < n && t.states[j] == Occupied && t.keys[j] == x;
      assert t'.states[j] == Occupied && t'.keys[j] == x;
    }
    forall x | x in Elements(t') ensures x in Elements(t) - {t.keys[i]} {
      var j: nat :| j < n && t'.states[j] == Occupied && t'.keys[j] == x;
      assert t.states[j] == Occupied && t.keys[j] == x;
    }
    CountUpdate(t.states, i, Tombstone, Occupied);
    CountUpdate(t.states, i, Tombstone, Tombstone);
  }

  lemma EmptyTable(mix: Hash, t: Table)
    requires Sized(t) && forall i :: 0 <= i < |t.states| ==> t.states[i] == Empty
    ensures TableOk(mix, t) && Elements(t) == {}
    ensures Count(t.states, Occupied) == 0 && Count(t.states, Tombstone) == 0
  {
    NoneCounted(t.states, Occupied);
    NoneCounted(t.states, Tombstone);
  }

  lemma NoPrefix(t: Table)
    requires Sized(t)
    ensures Elements(Table(t.keys[..0], t.states[..0])) == {} && Count(t.states[..0], Occupied) == 0
  {
  }

  /** Extending a prefix of a table by one slot. */
  lemma PrefixElements(t: Table, i: nat)
    requires Sized(t) && i < |t.keys|
    ensures var before := Table(t.keys[..i], t.states[..i]);
            var after := Table(t.keys[..i + 1], t.states[..i + 1]);
            && Elements(after) == Elements(before) + (if t.states[i] == Occupied then {t.keys[i]} else {})
            && Count(after.states, Occupied)
               == Count(before.states, Occupied) + if t.states[i] == Occupied then 1 else 0
  {
    var before := Table(t.keys[..i], t.states[..i]);
    var after := Table(t.keys[..i + 1], t.states[..i + 1]);
    assert after.states[..i] == before.states;
    forall x | x in Elements(before) ensures x in Elements(after) {
      var j: nat :| j < i && before.states[j] == Occupied && before.keys[j] == x;
      assert after.states[j] == Occupied && after.keys[j] == x;
    }
    forall x | x in Elements(after) ensures x in Elements(before) || (t.states[i] == Occupied && x == t.keys[i]) {
      var j: nat :| j < i + 1 && after.states[j] == Occupied && after.keys[j] == x;
      if j < i {
        assert before.states[j] == Occupied && before.keys[j] == x;
      }
    }
    if t.states[i] == Occupied {
      assert after.states[i] == Occupied && after.keys[i] == t.keys[i];
    }
  }

  lemma NewInPrefix(mix: Hash, t: Table, i: nat)
    requires TableOk(mix, t) && i < |t.keys| && t.states[i] == Occupied
    ensures t.keys[i] !in Elements(Table(t.keys[..i], t.states[..i])) && t.keys[i] != INVALID_ID
  {
  }

  // ---------------------------------------------------------------------------
  // The set
  // ---------------------------------------------------------------------------

  class ActiveSet {
    const mix: Hash
    var capacity: nat
    var size: nat
    var tombstoneCount: nat
    var keys: array<nat>
    var states: array<SlotState>

    ghost function Contents(): Table
      reads this, keys, states
    {
      Table(keys[..], states[..])
    }

    /** The identifiers in the set. */
    ghost function Ids(): set<nat>
      reads this, keys, states
      requires keys.Length == states.Length
    {
      Elements(Contents())
    }

    /** Exact counts, at most seven tenths in use, and every stored key within reach. */
    ghost predicate Valid()
      reads this, keys, states
    {
      && keys.Length == states.Length == capacity
      && TableOk(mix, Contents())
      && size == Count(states[..], Occupied)
      && tombstoneCount == Count(states[..], Tombstone)
      && (size + tombstoneCount) * 10 <= capacity * 7
      && (capacity == 0 || (capacity >= MIN_CAPACITY && IsPowerOfTwo(capacity)))
    }

    constructor (mix: Hash)
      ensures Valid() && Ids() == {} && capacity == 0 && this.mix == mix
      ensures fresh(keys) && fresh(states)
    {
      this.mix := mix;
      capacity, size, tombstoneCount := 0, 0, 0;
      keys := new nat[0];
      states := new SlotState[0];
    }

    method Reserve(requested: nat)
      requires Valid()
      modifies this, keys, states
      ensures Valid() && Ids() == old(Ids()) && capacity >= requested
      ensures (keys == old(keys) && states == old(states)) || (fresh(keys) && fresh(states))
    {
      if requested <= capacity {
        return;
      }
      Rehash(NormalizeCapacity(requested));
    }

    /** After this there is room for one more key within the load limit. The table is rebuilt, twice
        as large, only when it is too full, and as large as it was only when it holds more than 32
        tombstones and more of them than keys; otherwise nothing is touched. */
    method EnsureInsertCapacity()
      requires Valid()
      modifies this, keys, states
      ensures Valid() && Ids() == old(Ids()) && capacity > 0
      ensures (size + tombstoneCount + 1) * 10 <= capacity * 7
      ensures var full := (old(size + tombstoneCount) + 1) * 10 > old(capacity) * 7;
              var littered := old(tombstoneCount) > 32 && old(tombstoneCount) > old(size);
              && (old(capacity) == 0 ==> capacity == 16)
              && (old(capacity) > 0 && full ==> capacity >= 2 * old(capacity) && tombstoneCount == 0)
              && (old(capacity) > 0 && !full && littered ==> capacity >= old(capacity) && tombstoneCount == 0)
              && (old(capacity) > 0 && !full && !littered ==>
                    keys == old(keys) && states == old(states) && Contents() == old(Contents())
                    && capacity == old(capacity) && size == old(size) && tombstoneCount == old(tombstoneCount))
      ensures (keys == old(keys) && states == old(states)) || (fresh(keys) && fresh(states))
    {
      if capacity == 0 {
        Rehash(16);
        return;
      }
      var used := size + tombstoneCount + 1;
      if used * 10 > capacity * 7 {
        Rehash(NormalizeCapacity(capacity * 2));
        return;
      }
      if tombstoneCount > 32 && tombstoneCount > size {
        Rehash(capacity);
      }
    }

    method Store(target: nat, id: nat)
      requires keys.Length == states.Length == capacity && target < capacity && states[target] != Occupied
      requires tombstoneCount == Count(states[..], Tombstone)
      modifies this`size, this`tombstoneCount, keys, states
      ensures Contents() == Put(old(Contents()), target, id)
      ensures size == old(size) + 1
      ensures tombstoneCount == old(tombstoneCount) - if old(states[target]) == Tombstone then 1 else 0
    {
      CountUpdate(states[..], target, Occupied, Tombstone);
      keys[target] := id;
      if states[target] == Tombstone {
        tombstoneCount := tombstoneCount - 1;
      }
      states[target] := Occupied;
      size := size + 1;
    }

    /** The probing loop of an insertion: finds the identifier, or the slot to store it in,
        which is the first tombstone passed or else the empty slot that ends the search. */
    method FindSlot(id: nat) returns (present: bool, target: nat, ghost targetProbe: nat)
      requires Valid() && capacity > 0 && (size + tombstoneCount + 1) * 10 <= capacity * 7
      ensures present <==> id in Ids()
      ensures !present ==>
                && targetProbe < capacity && target == Index(capacity, Home(mix, capacity, id), targetProbe)
                && states[target] != Occupied
                && forall p: nat :: p < targetProbe ==> states[Index(capacity, Home(mix, capacity, id), p)] == Occupied
    {
      hide Masked;
      hide TableOk, Elements, Count, Passed, IsPowerOfTwo, Home, Index;
      ghost var t := Contents();
      NothingPassed(mix, t, id);
      var start := Home(mix, capacity, id);
      var firstTombstone: int := -1;
      ghost var graveProbe: nat := 0;
      var probe := 0;
      while probe < capacity
        invariant probe <= capacity && Passed(mix, t, id, probe)
        invariant firstTombstone >= 0 ==>
                    && graveProbe < probe && firstTombstone == Index(capacity, start, graveProbe)
                    && states[firstTombstone] == Tombstone
        invariant forall p: nat :: p < (if firstTombstone >= 0 then graveProbe else probe) ==>
                    states[Index(capacity, start, p)] == Occupied
      {
        var index := Masked(capacity, start, probe);
        match states[index] {
          case Empty =>
            SearchEnds(mix, t, id, probe);
            target := if firstTombstone >= 0 then firstTombstone else index;
            targetProbe := if firstTombstone >= 0 then graveProbe else probe;
            return false, target, targetProbe;
          case Occupied =>
            if keys[index] == id {
              Found(t, index);
              return true, index, probe;
            }
          case Tombstone =>
            if firstTombstone < 0 {
              firstTombstone, graveProbe := index, probe;
            }
        }
        StepPast(mix, t, id, probe);
        probe := probe + 1;
      }
      // The program has a fallback here that it calls unreachable, and it is.
      SearchFull(mix, t, id);
      assert false;
    }

    /** Inserts and reports whether the identifier was new; the invalid one never is. */
    method Insert(id: nat) returns (inserted: bool)
      requires Valid()
      modifies this, keys, states
      ensures Valid()
      ensures inserted <==> id != INVALID_ID && id !in old(Ids())
      ensures Ids() == old(Ids()) + if id == INVALID_ID then {} else {id}
      ensures (keys == old(keys) && states == old(states)) || (fresh(keys) && fresh(states))
    {
      if id == INVALID_ID {
        return false;
      }
      EnsureInsertCapacity();
      var present, target, targetProbe := FindSlot(id);
      if present {
        return false;
      }
      Place(id, target, targetProbe);
      inserted := true;
    }

    method Place(id: nat, target: nat, ghost targetProbe: nat)
      requires Valid() && capacity > 0 && (size + tombstoneCount + 1) * 10 <= capacity * 7
      requires id != INVALID_ID && id !in Ids()
      requires targetProbe < capacity && target == Index(capacity, Home(mix, capacity, id), targetProbe)
      requires states[target] != Occupied
      requires forall p: nat :: p < targetProbe ==> states[Index(capacity, Home(mix, capacity, id), p)] != Empty
      modifies this`size, this`tombstoneCount, keys, states
      ensures Valid() && Ids() == old(Ids()) + {id}
    {
      hide TableOk, Elements, Count, Home, Index, IsPowerOfTwo;
      ghost var t := Contents();
      forall p: nat | p < targetProbe ensures t.states[Index(capacity, Home(mix, capacity, id), p)] != Empty {
        assert states[Index(capacity, Home(mix, capacity, id), p)] != Empty;
      }
      PutKeepsTable(mix, t, id, targetProbe);
      Store(target, id);
    }

    /** Erases and reports whether the identifier was present. */
    method Erase(id: nat) returns (erased: bool)
      requires Valid()
      modifies this, keys, states
      ensures Valid() && keys == old(keys) && states == old(states)
      ensures erased <==> id in old(Ids())
      ensures Ids() == old(Ids()) - {id}
    {
      hide Masked;
      if id == INVALID_ID || capacity == 0 {
        return false;
      }
      ghost var t := Contents();
      var start := Home(mix, capacity, id);
      var probe := 0;
      while probe < capacity
        invariant probe <= capacity && Contents() == t && Passed(mix, t, id, probe)
      {
        var index := Masked(capacity, start, probe);
        match states[index] {
          case Empty =>
            SearchEnds(mix, t, id, probe);
            return false;
          case Occupied =>
            if keys[index] == id {
              BuryKeepsTable(mix, t, index);
              keys[index] := INVALID_ID;
              states[index] := Tombstone;
              size := size - 1;
              tombstoneCount := tombstoneCount + 1;
              assert Contents() == Bury(t, index);
              return true;
            }
          case Tombstone =>
        }
        probe := probe + 1;
      }
      SearchEnds(mix, t, id, probe);
      erased := false;
    }

    /** Whether the identifier is in the set. */
    method Contains(id: nat) returns (present: bool)
      requires Valid()
      ensures present <==> id in Ids()
    {
      hide Masked;
      if id == INVALID_ID || capacity == 0 {
        return false;
      }
      ghost var t := Contents();
      var start := Home(mix, capacity, id);
      var probe := 0;
      while probe < capacity
        invariant probe <= capacity && Passed(mix, t, id, probe)
      {
        var index := Masked(capacity, start, probe);
        match states[index] {
          case Empty =>
            SearchEnds(mix, t, id, probe);
            return false;
          case Occupied =>
            if keys[index] == id {
              return true;
            }
          case Tombstone =>
        }
        probe := probe + 1;
      }
      SearchEnds(mix, t, id, probe);
      present := false;
    }

    /** Moves every key to a larger table without tombstones; the set stays the same. */
    method Rehash(requested: nat)
      requires Valid()
      modifies this
      ensures Valid() && Ids() == old(Ids())
      ensures size == old(size) && tombstoneCount == 0
      ensures capacity == NormalizeCapacity(if requested >= 2 * old(size) + 16 then requested else 2 * old(size) + 16)
      ensures fresh(keys) && fresh(states)
    {
      var oldKeys, oldStates := keys, states;
      ghost var t := Contents();
      StartTable(NormalizeCapacity(if requested >= 2 * size + 16 then requested else 2 * size + 16));
      MoveAll(oldKeys, oldStates, t);
      assert t.keys[..|t.keys|] == t.keys && t.states[..|t.keys|] == t.states;
    }

    method StartTable(newCapacity: nat)
      requires newCapacity > 0
      modifies this
      ensures fresh(keys) && fresh(states) && keys.Length == states.Length == capacity == newCapacity
      ensures TableOk(mix, Contents()) && Ids() == {}
      ensures size == 0 == Count(states[..], Occupied) && tombstoneCount == 0 == Count(states[..], Tombstone)
    {
      keys := new nat[newCapacity](i => INVALID_ID);
      states := new SlotState[newCapacity](i => Empty);
      capacity, size, tombstoneCount := newCapacity, 0, 0;
      EmptyTable(mix, Contents());
    }

    method MoveAll(oldKeys: array<nat>, oldStates: array<SlotState>, ghost t: Table)
      requires t == Table(oldKeys[..], oldStates[..]) && TableOk(mix, t) && Count(t.states, Occupied) < capacity
      requires keys.Length == states.Length == capacity && TableOk(mix, Contents()) && Ids() == {}
      requires size == 0 == Count(states[..], Occupied) && tombstoneCount == 0 == Count(states[..], Tombstone)
      requires keys != oldKeys && states != oldStates
      modifies this`size, keys, states
      ensures Sized(t) && Holds(t, |t.keys|)
    {
      NoPrefix(t);
      assert Sized(t);
      hide TableOk, Elements, Count;
      var i := 0;
      while i < oldKeys.Length
        invariant i <= oldKeys.Length && oldKeys[..] == t.keys && oldStates[..] == t.states && Holds(t, i)
      {
        if oldStates[i] == Occupied {
          MoveKey(oldKeys[i], t, i);
        } else {
          PrefixElements(t, i);
        }
        i := i + 1;
      }
    }

    /** The new table holds exactly the keys of the first `i` slots of the old one. */
    ghost predicate Holds(t: Table, i: nat)
      requires Sized(t) && i <= |t.keys|
      reads this, keys, states
    {
      && keys.Length == states.Length == capacity > 0
      && TableOk(mix, Contents()) && Ids() == Elements(Table(t.keys[..i], t.states[..i]))
      && size == Count(states[..], Occupied) == Count(t.states[..i], Occupied)
      && tombstoneCount == 0 == Count(states[..], Tombstone)
    }

    method MoveKey(id: nat, ghost t: Table, ghost i: nat)
      requires TableOk(mix, t) && Sized(t) && i < |t.keys| && t.states[i] == Occupied && id == t.keys[i]
      requires Holds(t, i) && Count(t.states, Occupied) < capacity
      modifies this`size, keys, states
      ensures Holds(t, i + 1)
    {
      hide TableOk, Elements, Count;
      PrefixElements(t, i);
      PrefixCount(t.states, i + 1);
      NewInPrefix(mix, t, i);
      InsertDuringRehash(id);
    }

    method InsertDuringRehash(id: nat)
      requires keys.Length == states.Length == capacity > 0
      requires TableOk(mix, Contents()) && id != INVALID_ID && id !in Ids()
      requires size == Count(states[..], Occupied) < capacity
      requires tombstoneCount == 0 == Count(states[..], Tombstone)
      modifies this`size, keys, states
      ensures TableOk(mix, Contents()) && Ids() == old(Ids()) + {id}
      ensures size == old(size) + 1 == Count(states[..], Occupied)
      ensures Count(states[..], Tombstone) == 0
    {
      hide Masked;
      ghost var t := Contents();
      var start := Home(mix, capacity, id);
      var probe := 0;
      while probe < capacity
        invariant probe <= capacity && Contents() == t && size == old(size)
        invariant forall p: nat :: p < probe ==> t.states[Index(capacity, start, p)] != Empty
      {
        var index := Masked(capacity, start, probe);
        if states[index] == Empty {
          PutKeepsTable(mix, t, id, probe);
          keys[index] := id;
          states[index] := Occupied;
          size := size + 1;
          assert Contents() == Put(t, index, id);
          return;
        }
        probe := probe + 1;
      }
      // The program calls this point unreachable, and it is.
      AllTaken(mix, t, id);
      assert false;
    }
  }

  lemma AllTaken(mix: Hash, t: Table, id: nat)
    requires Sized(t) && |t.keys| > 0
    requires forall p: nat :: p < |t.keys| ==> t.states[Index(|t.keys|, Home(mix, |t.keys|, id), p)] != Empty
    ensures Count(t.states, Occupied) + Count(t.states, Tombstone) == |t.keys|
  {
    var n := |t.keys|;
    forall i: nat | i < n ensures t.states[i] != Empty {
      assert Index(n, Home(mix, n, id), Distance(n, Home(mix, n, id), i)) == i;
    }
    NoneCounted(t.states, Empty);
    CountsAdd(t.states);
  }

  lemma {:induction false} PrefixCount(states: seq<SlotState>, i: nat)
    requires i <= |states|
    ensures Count(states[..i], Occupied) <= Count(states, Occupied)
    decreases |states|
  {
    if i < |states| {
      assert states[..|states| - 1][..i] == states[..i];
      PrefixCount(states[..|states| - 1], i);
    } else {
      assert states[..i] == states;
    }
  }
}
