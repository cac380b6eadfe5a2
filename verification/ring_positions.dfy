/** Unbounded positions in a ring of cells. */
module RingPositions {
  import opened Numbers

  /** The cell of a position. The program masks with `Capacity - 1`, which is the remainder
      because the capacity is a power of two. */
  function Slot(capacity: nat, pos: nat): (i: nat)
    requires capacity > 0
    ensures i < capacity
  {
    pos % capacity
  }

  lemma NeighbourTurns(capacity: nat, p: nat)
    requires capacity >= 2
    ensures Slot(capacity, p + 1) != Slot(capacity, p)
    ensures Slot(capacity, p + capacity) == Slot(capacity, p)
  {
    var q, r := p / capacity, p % capacity;
    assert p == q * capacity + r;
    if r + 1 < capacity {
      DivisionIs(p + 1, capacity, q, r + 1);
    } else {
      DivisionIs(p + 1, capacity, q + 1, 0);
    }
    DivisionIs(p + capacity, capacity, q + 1, r);
  }

  lemma NextTurn(capacity: nat, p: nat)
    requires capacity > 0
    ensures Slot(capacity, p + capacity) == Slot(capacity, p)
  {
    assert p == p / capacity * capacity + p % capacity;
    DivisionIs(p + capacity, capacity, p / capacity + 1, p % capacity);
  }

  lemma CongruentWithin(n: nat, p: nat, k: nat)
    requires n > 0 && Slot(n, p) == Slot(n, k)
    ensures p == k || p >= k + n || p + n == k || p + 2 * n <= k
  {
    Multiple(n, p / n - k / n);
    assert p == p / n * n + p % n && k == k / n * n + k % n;
    assert p - k == (p / n - k / n) * n;
  }

  lemma Multiple(n: nat, d: int)
    requires n > 0
    ensures d * n == 0 || d * n >= n || d * n == -1 * n || d * n <= -2 * n
  {
    if d >= 1 {
      assert d * n == n + (d - 1) * n;
    } else if d <= -2 {
      assert d * n == -2 * n - (-2 - d) * n;
    }
  }
}
