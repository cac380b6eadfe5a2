/** The trie as a map from keys to non-null values, with its two fixed node pools. */
module RadixTrees {
  import opened IntrusiveLists
  import opened Numbers
  import opened Options
  import opened RadixState
  import opened Sequences

  /** A fixed number of nodes, the spare ones threaded into a free list. */
  class FixedNodePool<T(==)> {
    const capacity: nat
    const blank: T
    var storage: seq<T>
    var next: map<nat, nat>
    var freeList: nat
    var freeCount: nat
    ghost var free: seq<nat>

    ghost predicate Valid()
      reads this
    {
      && |storage| == capacity && freeCount == |free|
      && Chain(next, freeList, free) && NoDuplicates(free)
      && forall n: nat :: n in free ==> 1 <= n <= capacity
    }

    constructor (capacity: nat, blank: T)
      ensures Valid() && this.capacity == capacity && this.blank == blank && |free| == capacity
      ensures forall n: nat :: n < capacity ==> storage[n] == blank
    {
      this.capacity, this.blank := capacity, blank;
      storage := seq(capacity, n => blank);
      next, freeList, freeCount, free := map[], 0, 0, [];
      new;
      while freeCount < capacity
        invariant freeCount <= capacity && Valid() && forall n: nat :: n in free ==> n <= freeCount
        invariant forall n: nat :: n < capacity ==> storage[n] == blank
      {
        var node := freeCount + 1;
        ChainPushed(next, freeList, free, node);
        next := next[node := freeList];
        freeList, free := node, [node] + free;
        freeCount := freeCount + 1;
      }
    }

    /** A blank node, or null when none is left. */
    method Acquire() returns (n: nat)
      requires Valid()
      modifies this
      ensures Valid()
      ensures n == 0 <==> old(free) == []
      ensures n == 0 ==> free == old(free) && storage == old(storage)
      ensures n != 0 ==> n == old(free)[0] && 1 <= n <= capacity
      ensures n != 0 ==> free == old(free)[1..] && storage == old(storage)[n - 1 := blank]
    {
      if freeList == 0 {
        return 0;
      }
      ChainPopped(next, freeList, free);
      RestDistinct(free);
      n := freeList;
      freeList := next[n];
      storage := storage[n - 1 := blank];
      freeCount := freeCount - 1;
      free := free[1..];
    }

    method Release(n: nat)
      requires Valid() && InUse(n, capacity, free)
      modifies this
      ensures Valid() && free == [n] + old(free) && storage == old(storage)[n - 1 := blank]
    {
      ChainPushed(next, freeList, free, n);
      storage := storage[n - 1 := blank];
      next := next[n := freeList];
      freeList := n;
      freeCount := freeCount + 1;
      free := [n] + free;
    }

    function Used(): int
      reads this
    {
      capacity - freeCount
    }
  }

  // ---------------------------------------------------------------------------
  // Prefixes of what is stored
  // ---------------------------------------------------------------------------

  ghost function RowPrefixes(contents: map<Path, nat>): set<nat> {
    set p | p in contents :: p.i
  }

  ghost function ColumnPrefixes(contents: map<Path, nat>): set<(nat, nat)> {
    set p | p in contents :: (p.i, p.j)
  }

  lemma PrefixesGrow(contents: map<Path, nat>, p: Path, v: nat)
    ensures RowPrefixes(contents[p := v]) == RowPrefixes(contents) + {p.i}
    ensures ColumnPrefixes(contents[p := v]) == ColumnPrefixes(contents) + {(p.i, p.j)}
  {
    var after := contents[p := v];
    assert p in after;
    forall q | q in contents ensures q in after {
    }
  }

  /** Removing one path removes its prefixes when no other path has them. */
  lemma PrefixesShrink(contents: map<Path, nat>, p: Path)
    requires p in contents
    ensures var after := contents - {p};
            && ColumnPrefixes(after)
               == (if exists q :: q in after && q.i == p.i && q.j == p.j then ColumnPrefixes(contents)
                                         else ColumnPrefixes(contents) - {(p.i, p.j)})
            && RowPrefixes(after) == (if exists q :: q in after && q.i == p.i then RowPrefixes(contents)
                                      else RowPrefixes(contents) - {p.i})
  {
    var after := contents - {p};
    forall q | q in contents && q != p ensures q in after {
    }
  }

  // ---------------------------------------------------------------------------
  // Keys
  // ---------------------------------------------------------------------------

  /** The three indices of a key, lowest digits last; `unit` is what the key is shifted by. */
  function Decode(key: nat, unit: nat, size0: nat, size1: nat, size2: nat): Option<Path>
    requires unit > 0 && size0 > 0 && size1 > 0 && size2 > 0
  {
    var normalized := key / unit;
    if normalized / size2 / size1 / size0 != 0 then None
    else Some(Path(normalized / size2 / size1 % size0, normalized / size2 % size1, normalized % size2))
  }

  lemma DigitsDetermine(a: nat, b: nat, n: nat)
    requires n > 0 && a / n == b / n && a % n == b % n
    ensures a == b
  {
    assert a == a / n * n + a % n;
  }

  /** A key is in range exactly below the product of the sizes, and its place is its digits. */
  lemma DecodeIsDigits(key: nat, unit: nat, size0: nat, size1: nat, size2: nat)
    requires unit > 0 && size0 > 0 && size1 > 0 && size2 > 0
    ensures var p, normalized := Decode(key, unit, size0, size1, size2), key / unit;
            && (p.Some? <==> normalized < size0 * size1 * size2)
            && (p.Some? ==>
                  && p.value.i < size0 && p.value.j < size1 && p.value.k < size2
                  && normalized == (p.value.i * size1 + p.value.j) * size2 + p.value.k)
  {
    hide Decode;
    var n := key / unit;
    var a, b := n / size2, n / size2 / size1;
    QuotientBounds(n, size2);
    QuotientBounds(a, size1);
    if b < size0 {
      InRange(n, a, b, size0, size1, size2);
      SmallRemainder(size0, b);
      DivisionIs(b, size0, 0, b);
    } else {
      OutOfRange(n, a, b, size0, size1, size2);
      AtLeast(b, size0, 1);
    }
    DecodeParts(key, unit, size0, size1, size2);
  }

  lemma DecodeParts(key: nat, unit: nat, size0: nat, size1: nat, size2: nat)
    requires unit > 0 && size0 > 0 && size1 > 0 && size2 > 0
    ensures var n := key / unit;
            Decode(key, unit, size0, size1, size2)
            == if n / size2 / size1 / size0 != 0 then None
               else Some(Path(n / size2 / size1 % size0, n / size2 % size1, n % size2))
  {
  }

  lemma InRange(n: nat, a: nat, b: nat, size0: nat, size1: nat, size2: nat)
    requires n < a * size2 + size2 && a < b * size1 + size1 && b < size0
    ensures n < size0 * size1 * size2
  {
    ProductGrows(b + 1, size0, size1);
    ProductStep(b, size1);
    ProductGrows(a + 1, size0 * size1, size2);
    ProductStep(a, size2);
  }

  lemma OutOfRange(n: nat, a: nat, b: nat, size0: nat, size1: nat, size2: nat)
    requires a * size2 <= n && b * size1 <= a && size0 <= b
    ensures n >= size0 * size1 * size2
  {
    ProductGrows(size0, b, size1);
    ProductGrows(size0 * size1, a, size2);
  }

  /** Keys that fall on the same place are the same but for the digits shifted out. */
  lemma DecodeIsInjective(key: nat, key': nat, unit: nat, size0: nat, size1: nat, size2: nat)
    requires unit > 0 && size0 > 0 && size1 > 0 && size2 > 0
    requires Decode(key, unit, size0, size1, size2).Some?
    ensures Decode(key, unit, size0, size1, size2) == Decode(key', unit, size0, size1, size2)
            <==> key / unit == key' / unit
  {
    if Decode(key, unit, size0, size1, size2) == Decode(key', unit, size0, size1, size2) {
      var a, b := key / unit, key' / unit;
      DigitsDetermine(a / size2 / size1, b / size2 / size1, size0);
      DigitsDetermine(a / size2, b / size2, size1);
      DigitsDetermine(a, b, size2);
    }
  }

  class RadixTree {
    const unit: nat
    const size0: nat
    const size1: nat
    const size2: nat
    const root: array<nat>
    const pool1: FixedNodePool<Level1Node>
    const pool2: FixedNodePool<Level2Node>
    var size: nat
    var poolExhaustionFailures: nat
    var keyOutOfRangeFailures: nat
    ghost var contents: map<Path, nat>
    ghost var rows: set<nat>
    ghost var columns: set<(nat, nat)>

    ghost function Current(): Trie
      reads this, root, pool1, pool2
    {
      Trie(root[..], pool1.storage, pool2.storage, pool1.free, pool2.free, size1, size2, contents, rows, columns)
    }

    ghost predicate Sizes()
      reads this, pool1, pool2
    {
      && unit > 0 && size0 > 0 && size1 > 0 && size2 > 0
      && root.Length == size0 && pool1.Valid() && pool2.Valid()
      && pool1.blank == Blank1(size1) && pool2.blank == Blank2(size2)
    }

    ghost predicate Sound()
      reads this, root, pool1, pool2
    {
      Sizes() && Shape(Current()) && Counts(Current())
    }

    /** Between calls nodes are in use exactly for the prefixes of stored paths. */
    ghost predicate Valid()
      reads this, root, pool1, pool2
    {
      Sound() && size == |contents| && rows == RowPrefixes(contents) && columns == ColumnPrefixes(contents)
    }

    constructor (unit: nat, size0: nat, size1: nat, size2: nat, capacity1: nat, capacity2: nat)
      requires unit > 0 && size0 > 0 && size1 > 0 && size2 > 0
      ensures Valid() && contents == map[] && fresh(root) && fresh(pool1) && fresh(pool2)
      ensures this.unit == unit && this.size0 == size0 && this.size1 == size1 && this.size2 == size2
      ensures pool1.capacity == capacity1 && pool2.capacity == capacity2
    {
      this.unit, this.size0, this.size1, this.size2 := unit, size0, size1, size2;
      root := new nat[size0](i => 0);
      pool1 := new FixedNodePool(capacity1, Blank1(size1));
      pool2 := new FixedNodePool(capacity2, Blank2(size2));
      size, poolExhaustionFailures, keyOutOfRangeFailures := 0, 0, 0;
      contents, rows, columns := map[], {}, {};
      new;
      EmptyTrie(Current());
    }

    /** The pools' counters say how many different prefixes the stored paths have. */
    lemma NodesUsedArePrefixes()
      requires Valid()
      ensures pool1.Used() == |RowPrefixes(contents)| && pool2.Used() == |ColumnPrefixes(contents)|
      ensures size == |contents|
    {
      FreeCounts(Current());
    }

    function PathOf(key: nat): (p: Option<Path>)
      requires unit > 0 && size0 > 0 && size1 > 0 && size2 > 0
      ensures p.Some? ==> p.value.i < size0 && p.value.j < size1 && p.value.k < size2
    {
      Decode(key, unit, size0, size1, size2)
    }

    // -------------------------------------------------------------------------
    // Nodes coming and going
    // -------------------------------------------------------------------------

    method AcquireRow(i: nat) returns (n: nat)
      requires Sound() && i < size0 && i !in rows
      modifies root, pool1, `rows
      ensures Sound() && (n == 0 <==> |old(rows)| == pool1.capacity)
      ensures rows == if n == 0 then old(rows) else old(rows) + {i}
    {
      hide Shape, Counts;
      ghost var was := Current();
      FreeCounts(was);
      n := pool1.Acquire();
      if n != 0 {
        AddRowShape(was, i);
        AddRowCounts(was, i);
        root[i] := n;
        rows := rows + {i};
        assert Current() == AddRow(was, i);
      } else {
        assert Current() == was;
      }
    }

    method ReleaseRow(i: nat)
      requires Sound() && i in rows && forall j: nat :: (i, j) !in columns
      modifies root, pool1, `rows
      ensures Sound() && rows == old(rows) - {i}
    {
      hide Shape, Counts;
      ghost var was := Current();
      DropRowShape(was, i);
      DropRowCounts(was, i);
      pool1.Release(root[i]);
      root[i] := 0;
      rows := rows - {i};
      assert Current() == DropRow(was, i);
    }

    method AcquireColumn(i: nat, j: nat) returns (m: nat)
      requires Sound() && i in rows && j < size1 && (i, j) !in columns
      modifies pool1, pool2, `columns
      ensures Sound() && (m == 0 <==> |old(columns)| == pool2.capacity)
      ensures columns == if m == 0 then old(columns) else old(columns) + {(i, j)}
    {
      hide Shape, Counts, Child, NoDuplicates, Chain, Nulls;
      ghost var was := Current();
      FreeCounts(was);
      m := pool2.Acquire();
      if m != 0 {
        ColumnAdded(was, i, j);
        var n := root[i] - 1;
        var node := pool1.storage[n];
        pool1.storage := pool1.storage[n := Level1Node(node.children[j := m], node.usedCount + 1)];
        columns := columns + {(i, j)};
        assert Current() == AddColumn(was, i, j);
      } else {
        assert Current() == was;
      }
    }

    method ReleaseColumn(i: nat, j: nat)
      requires Sound() && (i, j) in columns && PathsOf(Current(), i, j) == {}
      modifies pool1, pool2, `columns
      ensures Sound() && columns == old(columns) - {(i, j)}
    {
      hide Shape, Counts, Child, PathsOf, NoDuplicates, Chain, Nulls;
      ghost var was := Current();
      ColumnDropped(was, i, j);
      var n := root[i] - 1;
      var node := pool1.storage[n];
      pool2.Release(node.children[j]);
      pool1.storage := pool1.storage[n := Level1Node(node.children[j := 0], node.usedCount - 1)];
      columns := columns - {(i, j)};
      assert Current() == DropColumn(was, i, j, node.usedCount - 1);
    }

    // -------------------------------------------------------------------------
    // The map
    // -------------------------------------------------------------------------

    /** The value under a key, or null. */
    method Find(key: nat) returns (value: nat)
      requires Valid()
      ensures value == if PathOf(key).Some? && PathOf(key).value in contents then contents[PathOf(key).value] else 0
    {
      hide Shape, Counts, Child, Cell, RowPrefixes, ColumnPrefixes, NoDuplicates, Chain, Nulls, Decode;
      var path := PathOf(key);
      if path.None? {
        return 0;
      }
      var Path(i, j, k) := path.value;
      Lookup(Current(), path.value);
      if root[i] == 0 {
        return 0;
      }
      var m := pool1.storage[root[i] - 1].children[j];
      if m == 0 {
        return 0;
      }
      return pool2.storage[m - 1].values[k];
    }

    method StoreCell(path: Path, value: nat)
      requires Sound() && (path.i, path.j) in columns && path.k < size2 && value != 0
      modifies pool2, `size, `contents
      ensures Sound() && contents == old(contents)[path := value]
      ensures size == old(size) + if path in old(contents) then 0 else 1
    {
      hide Shape, Counts, Child, Cell, PathsOf, NoDuplicates, Chain, Nulls;
      ghost var was := Current();
      CellStored(was, path, value);
      var m := pool1.storage[root[path.i] - 1].children[path.j] - 1;
      var node := pool2.storage[m];
      if node.values[path.k] == 0 {
        pool2.storage := pool2.storage[m := Level2Node(node.values[path.k := value], node.usedCount + 1)];
        size := size + 1;
      } else {
        pool2.storage := pool2.storage[m := Level2Node(node.values[path.k := value], node.usedCount)];
      }
      contents := contents[path := value];
      assert Current() == SetCell(was, path, value);
    }

    /** Maps a key to a value; null erases. It fails, changing nothing, exactly when the key is
        out of range or needs a node of a pool that has none left. */
    method InsertOrAssign(key: nat, value: nat) returns (ok: bool)
      requires Valid()
      modifies this, root, pool1, pool2
      ensures Valid()
      ensures ok <==>
              || value == 0
              || (PathOf(key).Some? && HasRoom(old(contents), PathOf(key).value, pool1.capacity, pool2.capacity))
      ensures contents == if !ok || PathOf(key).None? then old(contents)
                          else if value == 0 then old(contents) - {PathOf(key).value}
                          else old(contents)[PathOf(key).value := value]
      ensures !ok ==> rows == old(rows) && columns == old(columns)
      ensures keyOutOfRangeFailures
              == old(keyOutOfRangeFailures) + if value != 0 && PathOf(key).None? then 1 else 0
      ensures poolExhaustionFailures == old(poolExhaustionFailures) + if !ok && PathOf(key).Some? then 1 else 0
    {
      hide Shape, Counts, Decode, HasRoom, RowPrefixes, ColumnPrefixes;
      if value == 0 {
        var _ := Erase(key);
        return true;
      }
      var decoded := PathOf(key);
      if decoded.None? {
        keyOutOfRangeFailures := keyOutOfRangeFailures + 1;
        return false;
      }
      ok := Assign(decoded.value, value);
    }

    method Assign(path: Path, value: nat) returns (ok: bool)
      requires Valid() && path.i < size0 && path.j < size1 && path.k < size2 && value != 0
      modifies this, root, pool1, pool2
      ensures Valid() && (ok <==> HasRoom(old(contents), path, pool1.capacity, pool2.capacity))
      ensures contents == if ok then old(contents)[path := value] else old(contents)
      ensures !ok ==> rows == old(rows) && columns == old(columns)
      ensures poolExhaustionFailures == old(poolExhaustionFailures) + if ok then 0 else 1
      ensures keyOutOfRangeFailures == old(keyOutOfRangeFailures)
    {
      hide Shape, Counts, RowPrefixes, ColumnPrefixes, NoDuplicates, Chain, Nulls, Decode;
      PrefixesGrow(contents, path, value);
      ok := MakeRoom(path);
      if !ok {
        poolExhaustionFailures := poolExhaustionFailures + 1;
        return;
      }
      StoreCell(path, value);
    }

    /** Makes sure there are nodes for a path, or leaves everything as it was. */
    method MakeRoom(path: Path) returns (ok: bool)
      requires Sound() && path.i < size0 && path.j < size1
      modifies root, pool1, pool2, `rows, `columns
      ensures Sound()
      ensures ok <==> (path.i in old(rows) || |old(rows)| != pool1.capacity)
                      && ((path.i, path.j) in old(columns) || |old(columns)| != pool2.capacity)
      ensures rows == if ok then old(rows) + {path.i} else old(rows)
      ensures columns == if ok then old(columns) + {(path.i, path.j)} else old(columns)
    {
      hide Shape, Counts, Child, Cell, PathsOf, ColumnsOf, NoDuplicates, Chain, Nulls;
      var Path(i, j, k) := path;
      UsedRows(Current());
      var newRow := false;
      if root[i] == 0 {
        var n := AcquireRow(i);
        if n == 0 {
          return false;
        }
        newRow := true;
      }
      ok := ColumnRoom(i, j, newRow);
    }

    method ColumnRoom(i: nat, j: nat, newRow: bool) returns (ok: bool)
      requires Sound() && i in rows && j < size1 && (newRow ==> forall y: nat :: (i, y) !in columns)
      modifies root, pool1, pool2, `rows, `columns
      ensures Sound()
      ensures ok <==> (i, j) in old(columns) || |old(columns)| != pool2.capacity
      ensures rows == if !ok && newRow then old(rows) - {i} else old(rows)
      ensures columns == if ok then old(columns) + {(i, j)} else old(columns)
    {
      hide Shape, Counts, Child, Cell, PathsOf, ColumnsOf, NoDuplicates, Chain, Nulls;
      RowNode(Current(), i, j);
      if pool1.storage[root[i] - 1].children[j] == 0 {
        var m := AcquireColumn(i, j);
        if m == 0 {
          RowNode(Current(), i, j);
          if newRow && pool1.storage[root[i] - 1].usedCount == 0 {
            ReleaseRow(i);
          }
          return false;
        }
      }
      return true;
    }

    method ClearCellOf(path: Path)
      requires Sound() && path in contents && size > 0
      modifies pool2, `size, `contents
      ensures Sound() && contents == old(contents) - {path} && size == old(size) - 1
    {
      hide Shape, Counts, Child, Cell, PathsOf, NoDuplicates, Chain, Nulls;
      ghost var was := Current();
      CellCleared(was, path);
      var m := pool1.storage[root[path.i] - 1].children[path.j] - 1;
      var node := pool2.storage[m];
      pool2.storage := pool2.storage[m := Level2Node(node.values[path.k := 0], node.usedCount - 1)];
      size := size - 1;
      contents := contents - {path};
      assert Current() == ClearCell(was, path);
    }

    /** Gives back the nodes on a path that no longer lead anywhere. */
    method Prune(path: Path)
      requires Sound() && (path.i, path.j) in columns && path.i in rows && path.j < size1
      modifies root, pool1, pool2, `rows, `columns
      ensures Sound()
      ensures columns == if PathsOf(old(Current()), path.i, path.j) == {} then old(columns) - {(path.i, path.j)}
                         else old(columns)
      ensures rows == if ColumnsOf(Current(), path.i) == {} then old(rows) - {path.i} else old(rows)
    {
      hide Shape, Counts, Child, Cell, PathsOf, ColumnsOf, NoDuplicates, Chain, Nulls;
      var Path(i, j, k) := path;
      ColumnNode(Current(), i, j);
      if pool2.storage[pool1.storage[root[i] - 1].children[j] - 1].usedCount == 0 {
        ReleaseColumn(i, j);
      }
      RowNode(Current(), i, j);
      RowEmpty(Current(), i);
      ghost var pruned := Current();
      if pool1.storage[root[i] - 1].usedCount == 0 {
        ReleaseRow(i);
        SameColumnsOf(pruned, Current(), i);
      }
    }

    /** Removes a key's mapping, and reports whether there was one. */
    method Erase(key: nat) returns (ok: bool)
      requires Valid()
      modifies this, root, pool1, pool2
      ensures Valid() && unchanged(`poolExhaustionFailures) && unchanged(`keyOutOfRangeFailures)
      ensures ok <==> PathOf(key).Some? && PathOf(key).value in old(contents)
      ensures contents == if ok then old(contents) - {PathOf(key).value} else old(contents)
    {
      hide Shape, Counts, Child, Cell, PathsOf, ColumnsOf, RowPrefixes, ColumnPrefixes, NoDuplicates, Chain, Nulls,
          Decode;
      var decoded := PathOf(key);
      if decoded.None? {
        return false;
      }
      var path := decoded.value;
      var Path(i, j, k) := path;
      Lookup(Current(), path);
      if root[i] == 0 {
        return false;
      }
      var m := pool1.storage[root[i] - 1].children[j];
      if m == 0 || pool2.storage[m - 1].values[k] == 0 {
        return false;
      }
      ghost var before := contents;
      NotEmpty(contents, path);
      ClearCellOf(path);
      PrefixesShrink(before, path);
      ghost var cleared := Current();
      Prune(path);
      PathsLeft(cleared, i, j);
      RowsLeft(Current(), i);
      return true;
    }

    /** Forgets everything; use counts are not kept up on the way, only on arrival. */
    method Clear()
      requires Valid()
      modifies this, root, pool1, pool2
      ensures Valid() && contents == map[]
      ensures unchanged(`poolExhaustionFailures) && unchanged(`keyOutOfRangeFailures)
    {
      hide Shape, Counts, Child, Cell, NoDuplicates, Chain, Nulls, RowPrefixes, ColumnPrefixes;
      var i: nat := 0;
      while i < size0
        invariant i <= size0 && Sizes() && Shape(Current())
        invariant forall x :: x in rows ==> i <= x
        invariant unchanged(`poolExhaustionFailures) && unchanged(`keyOutOfRangeFailures)
      {
        UsedRows(Current());
        if root[i] != 0 {
          ClearRow(i);
        }
        i := i + 1;
      }
      size := 0;
      NothingLeft(Current());
    }

    method ClearRow(i: nat)
      requires Sizes() && Shape(Current()) && i in rows && i < size0
      modifies root, pool1, pool2, `rows, `columns, `contents
      ensures Sizes() && Shape(Current()) && rows == old(rows) - {i}
    {
      hide Shape, Child, Cell, NoDuplicates, Chain, Nulls;
      var j: nat := 0;
      while j < size1
        invariant j <= size1 && Sizes() && Shape(Current()) && rows == old(rows)
        invariant forall y: nat :: y < j ==> (i, y) !in columns
      {
        ghost var was := Current();
        RowNodeShape(was, i, j);
        var n := root[i] - 1;
        var m := pool1.storage[n].children[j];
        if m != 0 {
          DropColumnShape(was, i, j, pool1.storage[n].usedCount);
          pool2.Release(m);
          pool1.storage := pool1.storage[n := Level1Node(pool1.storage[n].children[j := 0],
                                                         pool1.storage[n].usedCount)];
          columns := columns - {(i, j)};
          contents := map p | p in contents && !(p.i == i && p.j == j) :: contents[p];
          assert Current() == DropColumn(was, i, j, pool1.storage[n].usedCount);
        }
        j := j + 1;
      }
      ghost var emptied := Current();
      ColumnsInRange(emptied);
      DropRowShape(emptied, i);
      pool1.Release(root[i]);
      root[i] := 0;
      rows := rows - {i};
      assert Current() == DropRow(emptied, i);
    }
  }

  lemma EmptyTrie(t: Trie)
    requires t.contents == map[] && t.rows == {} && t.columns == {} && |t.free1| == |t.level1|
    requires |t.free2| == |t.level2|
    requires forall i: nat :: i < |t.root| ==> t.root[i] == 0
    requires forall n: nat :: n < |t.level1| ==> t.level1[n] == Blank1(t.size1)
    requires forall n: nat :: n < |t.level2| ==> t.level2[n] == Blank2(t.size2)
    ensures Shape(t) && Counts(t) && RowPrefixes(t.contents) == {} && ColumnPrefixes(t.contents) == {}
  {
    assert RowsOk(t);
    assert ColumnsOk(t);
  }

  ghost predicate HasRoom(contents: map<Path, nat>, path: Path, capacity1: nat, capacity2: nat) {
    && (path.i in RowPrefixes(contents) || |RowPrefixes(contents)| != capacity1)
    && ((path.i, path.j) in ColumnPrefixes(contents) || |ColumnPrefixes(contents)| != capacity2)
  }

  lemma UsedRows(t: Trie)
    requires Shape(t)
    ensures forall i: nat :: i < |t.root| ==> (t.root[i] == 0 <==> i !in t.rows)
    ensures forall c :: c in t.columns ==> c.0 in t.rows
    ensures |t.rows| <= |t.level1| && |t.columns| <= |t.level2|
  {
  }

  lemma RowNode(t: Trie, i: nat, j: nat)
    requires Shape(t) && Counts(t) && i in t.rows && j < t.size1
    ensures i < |t.root| && 1 <= t.root[i] <= |t.level1| && j < |t.level1[t.root[i] - 1].children|
    ensures t.level1[t.root[i] - 1].children[j] == 0 <==> (i, j) !in t.columns
    ensures t.level1[t.root[i] - 1].usedCount == 0 <==> forall y: nat :: (i, y) !in t.columns
  {
    var c := (i, j);
    assert c.0 == i && c.1 == j;
    assert t.level1[t.root[i] - 1].usedCount == |ColumnsOf(t, i)|;
    if forall y: nat :: (i, y) !in t.columns {
      forall c | c in t.columns ensures c.0 != i {
        assert c == (c.0, c.1);
      }
      assert ColumnsOf(t, i) == {};
    } else {
      var y: nat :| (i, y) in t.columns;
      assert (i, y) in ColumnsOf(t, i);
    }
  }

  lemma CellStored(t: Trie, p: Path, v: nat)
    requires Shape(t) && Counts(t) && (p.i, p.j) in t.columns && p.k < t.size2 && v != 0
    ensures p.i < |t.root| && InUse(t.root[p.i], |t.level1|, t.free1) && p.j < |t.level1[t.root[p.i] - 1].children|
    ensures t.level1[t.root[p.i] - 1].children[p.j] == Child(t, p.i, p.j)
    ensures InUse(Child(t, p.i, p.j), |t.level2|, t.free2) && p.k < |t.level2[Child(t, p.i, p.j) - 1].values|
    ensures t.level2[Child(t, p.i, p.j) - 1].values[p.k] == 0 <==> p !in t.contents
    ensures Shape(SetCell(t, p, v)) && Counts(SetCell(t, p, v))
  {
    hide RowsOk, ColumnsOk, CellsOk, Counts, Child, SetCell;
    ColumnFacts(t, p.i, p.j);
    SetCellShape(t, p, v);
    SetCellCounts(t, p, v);
    CellIs(t, p);
  }

  lemma NotEmpty(contents: map<Path, nat>, p: Path)
    requires p in contents
    ensures |contents| > 0 && |contents - {p}| == |contents| - 1
  {
    assert contents == (contents - {p})[p := contents[p]];
  }

  lemma CellCleared(t: Trie, p: Path)
    requires Shape(t) && Counts(t) && p in t.contents
    ensures p.i < |t.root| && InUse(t.root[p.i], |t.level1|, t.free1) && p.j < |t.level1[t.root[p.i] - 1].children|
    ensures t.level1[t.root[p.i] - 1].children[p.j] == Child(t, p.i, p.j)
    ensures InUse(Child(t, p.i, p.j), |t.level2|, t.free2) && p.k < |t.level2[Child(t, p.i, p.j) - 1].values|
    ensures t.level2[Child(t, p.i, p.j) - 1].usedCount > 0 && Shape(ClearCell(t, p)) && Counts(ClearCell(t, p))
  {
    hide RowsOk, ColumnsOk, Counts, Child, ClearCell;
    MappedPath(t, p);
    ColumnFacts(t, p.i, p.j);
    ColumnUsed(t, p.i, p.j);
    ClearCellCounts(t, p);
    ClearCellShape(t, p);
  }

  lemma ColumnNode(t: Trie, i: nat, j: nat)
    requires Shape(t) && Counts(t) && (i, j) in t.columns
    ensures i < |t.root| && 1 <= t.root[i] <= |t.level1| && j < |t.level1[t.root[i] - 1].children|
    ensures 1 <= t.level1[t.root[i] - 1].children[j] <= |t.level2|
    ensures t.level2[t.level1[t.root[i] - 1].children[j] - 1].usedCount == 0 <==> PathsOf(t, i, j) == {}
  {
    ColumnFacts(t, i, j);
    assert ColumnCount(t, (i, j));
  }

  lemma RowEmpty(t: Trie, i: nat)
    ensures ColumnsOf(t, i) == {} <==> forall y: nat :: (i, y) !in t.columns
  {
    if forall y: nat :: (i, y) !in t.columns {
      forall c | c in t.columns ensures c.0 != i {
        assert c == (c.0, c.1);
      }
    } else {
      var y: nat :| (i, y) in t.columns;
      assert (i, y) in ColumnsOf(t, i);
    }
  }

  lemma PathsLeft(t: Trie, i: nat, j: nat)
    ensures PathsOf(t, i, j) == {} <==> !exists q :: q in t.contents && q.i == i && q.j == j
  {
    if q :| q in t.contents && q.i == i && q.j == j {
      assert q in PathsOf(t, i, j);
    }
  }

  lemma RowsLeft(t: Trie, i: nat)
    requires t.columns == ColumnPrefixes(t.contents)
    ensures ColumnsOf(t, i) == {} <==> !exists q :: q in t.contents && q.i == i
  {
    if q :| q in t.contents && q.i == i {
      assert (q.i, q.j) in ColumnsOf(t, i);
    }
  }

  lemma RowNodeShape(t: Trie, i: nat, j: nat)
    requires Shape(t) && i in t.rows && j < t.size1
    ensures i < |t.root| && 1 <= t.root[i] <= |t.level1| && j < |t.level1[t.root[i] - 1].children|
    ensures t.level1[t.root[i] - 1].children[j] == Child(t, i, j)
    ensures t.level1[t.root[i] - 1].children[j] == 0 <==> (i, j) !in t.columns
  {
    var c := (i, j);
    assert c.0 == i && c.1 == j;
  }

  lemma ColumnsInRange(t: Trie)
    requires Shape(t)
    ensures forall x: nat, y: nat :: (x, y) in t.columns ==> y < t.size1
  {
    forall x: nat, y: nat | (x, y) in t.columns ensures y < t.size1 {
      var c := (x, y);
      assert c in t.columns && c.1 == y;
    }
  }

  lemma NothingLeft(t: Trie)
    requires Shape(t) && forall x :: x in t.rows ==> |t.root| <= x
    ensures t.rows == {} && t.columns == {} && t.contents == map[] && Counts(t)
    ensures RowPrefixes(t.contents) == {} && ColumnPrefixes(t.contents) == {}
  {
    hide Child;
    assert t.rows == {};
    assert t.columns == {};
    forall p ensures p !in t.contents {
    }
  }

  lemma FreeCounts(t: Trie)
    requires Shape(t)
    ensures |t.rows| + |t.free1| == |t.level1| && |t.columns| + |t.free2| == |t.level2|
    ensures t.free1 == [] <==> |t.rows| == |t.level1|
    ensures t.free2 == [] <==> |t.columns| == |t.level2|
    ensures forall i: nat :: i in t.rows <==> i < |t.root| && t.root[i] != 0
  {
  }

  lemma ColumnFacts(t: Trie, i: nat, j: nat)
    requires Shape(t) && (i, j) in t.columns
    ensures i in t.rows && i < |t.root| && InUse(t.root[i], |t.level1|, t.free1)
    ensures j < |t.level1[t.root[i] - 1].children|
    ensures InUse(Child(t, i, j), |t.level2|, t.free2) && Child(t, i, j) == t.level1[t.root[i] - 1].children[j]
  {
    ColumnUsed(t, i, j);
  }

  lemma ColumnAdded(t: Trie, i: nat, j: nat)
    requires Shape(t) && Counts(t) && NoDuplicates(t.free2) && i in t.rows && j < t.size1 && (i, j) !in t.columns
    requires t.free2 != [] && 1 <= t.free2[0] <= |t.level2|
    ensures i < |t.root| && InUse(t.root[i], |t.level1|, t.free1) && j < |t.level1[t.root[i] - 1].children|
    ensures Shape(AddColumn(t, i, j)) && Counts(AddColumn(t, i, j))
  {
    hide Shape, Counts, Child, NoDuplicates;
    AddColumnShape(t, i, j);
    AddColumnCounts(t, i, j);
  }

  lemma ColumnDropped(t: Trie, i: nat, j: nat)
    requires Shape(t) && Counts(t) && (i, j) in t.columns && PathsOf(t, i, j) == {}
    ensures i in t.rows && i < |t.root| && InUse(t.root[i], |t.level1|, t.free1)
    ensures j < |t.level1[t.root[i] - 1].children|
    ensures InUse(Child(t, i, j), |t.level2|, t.free2) && Child(t, i, j) == t.level1[t.root[i] - 1].children[j]
    ensures t.level1[t.root[i] - 1].usedCount > 0
    ensures var t' := DropColumn(t, i, j, t.level1[t.root[i] - 1].usedCount - 1);
            Shape(t') && Counts(t') && t'.contents == t.contents
  {
    hide Shape, Counts, Child, PathsOf;
    ColumnFacts(t, i, j);
    DropColumnCounts(t, i, j);
    DropColumnShape(t, i, j, t.level1[t.root[i] - 1].usedCount - 1);
    NothingDropped(t, i, j, t.level1[t.root[i] - 1].usedCount - 1);
  }

  lemma NothingDropped(t: Trie, i: nat, j: nat, usedCount: nat)
    requires i < |t.root| && 1 <= t.root[i] <= |t.level1| && j < |t.level1[t.root[i] - 1].children|
    requires 1 <= Child(t, i, j) <= |t.level2| && PathsOf(t, i, j) == {}
    ensures DropColumn(t, i, j, usedCount).contents == t.contents
  {
    forall p | p in t.contents ensures !(p.i == i && p.j == j) {
      assert p !in PathsOf(t, i, j);
    }
  }

  /** Following a path through the nodes finds what it maps to, or ends in a null. */
  lemma Lookup(t: Trie, p: Path)
    requires Shape(t) && p.i < |t.root| && p.j < t.size1 && p.k < t.size2
    ensures t.root[p.i] != 0 <==> p.i in t.rows
    ensures t.root[p.i] == 0 ==> p !in t.contents
    ensures t.root[p.i] != 0 ==>
              && 1 <= t.root[p.i] <= |t.level1| && |t.level1[t.root[p.i] - 1].children| == t.size1
              && var m := t.level1[t.root[p.i] - 1].children[p.j];
              && m == Child(t, p.i, p.j)
              && (m != 0 <==> (p.i, p.j) in t.columns)
              && (m == 0 ==> p !in t.contents)
              && (m != 0 ==> 1 <= m <= |t.level2| && |t.level2[m - 1].values| == t.size2
                             && t.level2[m - 1].values[p.k] == Cell(t, p)
                             && (Cell(t, p) == 0 <==> p !in t.contents)
                             && Cell(t, p) == if p in t.contents then t.contents[p] else 0)
  {
    var c := (p.i, p.j);
    assert c.0 == p.i && c.1 == p.j;
    assert c in t.columns ==> InUse(Child(t, c.0, c.1), |t.level2|, t.free2);
  }
}
