/** Sizes, sums over the size classes, and the round-robin argument of the thread cache. */
module CacheWeights {
  import opened CentralFetch
  import opened Numbers

  const NUM_CLASSES: nat := 56

  /** More than one unit of alignment. */
  type LargeBytes = n: nat | n > MAX_ALIGN witness MAX_ALIGN + 1

  const LARGE_CLASSES: seq<LargeBytes> :=
    [24, 32, 40, 48, 56, 64, 80, 96, 112, 128, 160, 192, 224, 256] +
    ([320, 384, 448, 512, 640, 768, 896, 1024] +
     ([1280, 1536, 1792, 2048, 2560, 3072, 3584, 4096] +
      ([5120, 6144, 7168, 8192, 10240, 12288, 14336, 16384] +
       ([20480, 24576, 28672, 32768, 40960, 49152, 57344, 65536] +
        [81920, 98304, 114688, 131072, 163840, 196608, 229376, 262144]))))

  function ClassSize(c: nat): (size: nat)
    requires c < NUM_CLASSES
    ensures size > 0
  {
    if c == 0 then 8 else if c == 1 then 16 else LARGE_CLASSES[c - 2]
  }

  const DRAIN_MIN: nat := 16
  const DRAIN_MAX: nat := 128
  const BATCHES_FACTOR: nat := 2
  const TRIM_MIN_CHUNK: nat := 8
  const TRIM_MAX_CHUNK: nat := 32
  const SPILL_MIN: nat := 2
  const MAX_BATCH: nat := 128
  const MIN_BYTES_PER_CLASS: nat := 256
  const MIN_OBJECTS_PER_CLASS: nat := 8

  function BlockSize(c: nat): (size: nat)
    requires c < NUM_CLASSES
    ensures size >= MAX_ALIGN
  {
    AlignUp(ClassSize(c), MAX_ALIGN)
  }

  lemma SmallestBlocks(c: nat)
    requires c < NUM_CLASSES
    ensures c < 2 ==> BlockSize(c) == MAX_ALIGN
    ensures c >= 2 ==> BlockSize(c) >= 2 * MAX_ALIGN
  {
    if c >= 2 {
      TwoUnits(ClassSize(c));
    }
  }

  lemma TwoUnits(size: nat)
    requires size > MAX_ALIGN
    ensures AlignUp(size, MAX_ALIGN) >= 2 * MAX_ALIGN
  {
  }

  /** The largest classes hold a fifth of a megabyte and more in seven blocks. */
  lemma LargestBlocks()
    ensures BlockSize(49) == 98304 && BlockSize(50) == 114688 && BlockSize(51) == 131072 && BlockSize(52) == 163840
    ensures BlockSize(53) == 196608 && BlockSize(54) == 229376 && BlockSize(55) == 262144
  {
    var top := [81920, 98304, 114688, 131072, 163840, 196608, 229376, 262144];
    assert forall k: nat :: k < 8 ==> LARGE_CLASSES[46 + k] == top[k];
  }

  /** The bytes of all blocks on the lists of the first `n` classes. */
  function Weight(lists: seq<seq<nat>>, n: nat): nat
    requires n <= |lists| && n <= NUM_CLASSES
  {
    if n == 0 then 0 else Weight(lists, n - 1) + Times(|lists[n - 1]|, BlockSize(n - 1))
  }

  lemma {:induction false} WeightElsewhere(lists: seq<seq<nat>>, lists': seq<seq<nat>>, n: nat)
    requires n <= |lists| == |lists'| && n <= NUM_CLASSES && forall i: nat :: i < n ==> lists'[i] == lists[i]
    ensures Weight(lists', n) == Weight(lists, n)
  {
    if n > 0 {
      WeightElsewhere(lists, lists', n - 1);
    }
  }

  /** Changing the list of one class changes the sum by that class's share. */
  lemma {:induction false} WeightUpdated(lists: seq<seq<nat>>, n: nat, c: nat, list: seq<nat>)
    requires c < n <= |lists| && n <= NUM_CLASSES
    ensures Weight(lists[c := list], n)
            == Weight(lists, n) - Times(|lists[c]|, BlockSize(c)) + Times(|list|, BlockSize(c))
  {
    hide Times, BlockSize;
    if c == n - 1 {
      WeightElsewhere(lists, lists[c := list], c);
    } else {
      WeightUpdated(lists, n - 1, c, list);
    }
  }

  lemma WeightShorter(lists: seq<seq<nat>>, c: nat)
    requires c < NUM_CLASSES == |lists| && lists[c] != []
    ensures BlockSize(c) <= Weight(lists, NUM_CLASSES)
    ensures Weight(lists[c := lists[c][1..]], NUM_CLASSES) == Weight(lists, NUM_CLASSES) - BlockSize(c)
  {
    WeightUpdated(lists, NUM_CLASSES, c, lists[c][1..]);
    ProductStep(|lists[c]| - 1, BlockSize(c));
  }

  lemma WeightLonger(lists: seq<seq<nat>>, c: nat, b: nat)
    requires c < NUM_CLASSES == |lists|
    ensures Weight(lists[c := [b] + lists[c]], NUM_CLASSES) == Weight(lists, NUM_CLASSES) + BlockSize(c)
  {
    WeightUpdated(lists, NUM_CLASSES, c, [b] + lists[c]);
    ProductStep(|lists[c]|, BlockSize(c));
  }

  lemma {:induction false} WeightMonotone(lists: seq<seq<nat>>, lists': seq<seq<nat>>, n: nat)
    requires n <= |lists| == |lists'| && n <= NUM_CLASSES && forall i: nat :: i < n ==> |lists[i]| <= |lists'[i]|
    ensures Weight(lists, n) <= Weight(lists', n)
  {
    if n > 0 {
      WeightMonotone(lists, lists', n - 1);
      ProductGrows(|lists[n - 1]|, |lists'[n - 1]|, BlockSize(n - 1));
    }
  }

  lemma {:induction false} WeightOfOne(lists: seq<seq<nat>>, n: nat, c: nat)
    requires c < n <= |lists| && n <= NUM_CLASSES
    ensures Times(|lists[c]|, MAX_ALIGN) <= Times(|lists[c]|, BlockSize(c)) <= Weight(lists, n)
  {
    hide Times, BlockSize;
    LargerBlocks(|lists[c]|, BlockSize(c));
    if c < n - 1 {
      WeightOfOne(lists, n - 1, c);
    }
  }

  lemma LargerBlocks(n: nat, size: nat)
    requires size >= MAX_ALIGN
    ensures Times(n, MAX_ALIGN) <= Times(n, size)
  {
  }

  lemma {:induction false} WeightOfNothing(lists: seq<seq<nat>>, n: nat)
    requires n <= |lists| && n <= NUM_CLASSES && forall i: nat :: i < n ==> lists[i] == []
    ensures Weight(lists, n) == 0
  {
    if n > 0 {
      WeightOfNothing(lists, n - 1);
    }
  }

  // ---------------------------------------------------------------------------
  // Round robin
  // ---------------------------------------------------------------------------

  /** How many classes the cursor passes before it is at `c`. */
  function Lag(cursor: nat, c: nat): nat
    requires cursor < NUM_CLASSES && c < NUM_CLASSES
  {
    if c >= cursor then c - cursor else c + NUM_CLASSES - cursor
  }

  function Probe(cursor: nat, offset: nat): (c: nat)
    requires cursor < NUM_CLASSES
    ensures c < NUM_CLASSES
  {
    (cursor + offset) % NUM_CLASSES
  }

  lemma ProbeLag(cursor: nat, offset: nat)
    requires cursor < NUM_CLASSES && offset < NUM_CLASSES
    ensures Lag(cursor, Probe(cursor, offset)) == offset
  {
  }

  lemma LagProbe(cursor: nat, c: nat)
    requires cursor < NUM_CLASSES && c < NUM_CLASSES
    ensures Lag(cursor, c) < NUM_CLASSES && Probe(cursor, Lag(cursor, c)) == c
  {
  }

  /** Where class `c` stands when `n` batches have been drained: it is empty, or has been
      visited twice, or will be visited for the second or the first time soon enough. */
  predicate Progress(n: nat, cursor: nat, c: nat, now: nat, before: nat, batch: nat)
    requires cursor < NUM_CLASSES && c < NUM_CLASSES
  {
    || now == 0
    || now + 2 * batch <= before
    || (now + batch <= before && n + Lag(cursor, c) < 2 * NUM_CLASSES)
    || (now <= before && n + Lag(cursor, c) < NUM_CLASSES)
  }

  lemma ProgressStart(cursor: nat, c: nat, now: nat, batch: nat)
    requires cursor < NUM_CLASSES && c < NUM_CLASSES
    ensures Progress(0, cursor, c, now, now, batch)
  {
    LagProbe(cursor, c);
  }

  /** One batch, taken from the first class at or behind the cursor that has any blocks. */
  lemma ProgressKept(n: nat, cursor: nat, offset: nat, c: nat, now: nat, now': nat, before: nat, batch: nat)
    requires cursor < NUM_CLASSES && c < NUM_CLASSES && offset < NUM_CLASSES
    requires Progress(n, cursor, c, now, before, batch)
    requires Lag(cursor, c) < offset ==> now == 0
    requires now' == if c == Probe(cursor, offset) then now - Min(now, batch) else now
    ensures Progress(n + 1, Probe(Probe(cursor, offset), 1), c, now', before, batch)
  {
    var hit := Probe(cursor, offset);
    ProbeLag(cursor, offset);
    var cursor' := Probe(hit, 1);
    if c == hit {
      assert Lag(cursor', c) == NUM_CLASSES - 1;
    } else if Lag(cursor, c) > offset {
      assert Lag(cursor', c) == Lag(cursor, c) - offset - 1;
    } else {
      LagProbe(cursor, c);
    }
  }

  /** Two visits for every class are as many batches as one drain may take. */
  lemma ProgressDone(cursor: nat, c: nat, now: nat, before: nat, batch: nat)
    requires cursor < NUM_CLASSES && c < NUM_CLASSES
    requires Progress(BATCHES_FACTOR * NUM_CLASSES, cursor, c, now, before, batch)
    ensures now == 0 || now + 2 * batch <= before
  {
  }
}
