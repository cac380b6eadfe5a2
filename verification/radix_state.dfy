/** A three-level trie over two fixed pools of nodes: its invariant, and the six changes from
    which insertion and erasure are made. Nodes are numbered from 1; 0 is the null pointer. */
module RadixState {
  import opened IntrusiveLists
  import opened Sequences

  datatype Level1Node = Level1Node(children: seq<nat>, usedCount: nat)
  datatype Level2Node = Level2Node(values: seq<nat>, usedCount: nat)

  datatype Path = Path(i: nat, j: nat, k: nat)

  /** `rows` and `columns` name the nodes in use by the path prefixes that lead to them, and
      `contents` is the map the trie stands for. */
  datatype Trie = Trie(
    root: seq<nat>,
    level1: seq<Level1Node>,
    level2: seq<Level2Node>,
    free1: seq<nat>,
    free2: seq<nat>,
    size1: nat,
    size2: nat,
    contents: map<Path, nat>,
    rows: set<nat>,
    columns: set<(nat, nat)>)

  function Nulls(n: nat): (s: seq<nat>)
    ensures |s| == n && forall i :: 0 <= i < n ==> s[i] == 0
  {
    seq(n, i => 0)
  }

  function Blank1(size: nat): Level1Node { Level1Node(Nulls(size), 0) }

  function Blank2(size: nat): Level2Node { Level2Node(Nulls(size), 0) }

  // ---------------------------------------------------------------------------
  // The invariant
  // ---------------------------------------------------------------------------

  predicate InUse(n: nat, capacity: nat, free: seq<nat>) {
    1 <= n <= capacity && n !in free
  }

  /** The root leads to one node of its own for each row. */
  ghost predicate RowsOk(t: Trie) {
    && (forall i: nat :: i in t.rows <==> i < |t.root| && t.root[i] != 0)
    && (forall i: nat :: i in t.rows ==> InUse(t.root[i], |t.level1|, t.free1))
    && (forall i, i' :: i in t.rows && i' in t.rows && t.root[i] == t.root[i'] ==> i == i')
    && (forall n: nat :: n < |t.level1| ==> |t.level1[n].children| == t.size1)
    && |t.rows| + |t.free1| == |t.level1|
  }

  function Child(t: Trie, i: nat, j: nat): nat {
    if i < |t.root| && 1 <= t.root[i] <= |t.level1| && j < |t.level1[t.root[i] - 1].children|
    then t.level1[t.root[i] - 1].children[j] else 0
  }

  ghost predicate ColumnsOk(t: Trie) {
    && (forall c :: c in t.columns <==> c.0 in t.rows && c.1 < t.size1 && Child(t, c.0, c.1) != 0)
    && (forall c :: c in t.columns ==> InUse(Child(t, c.0, c.1), |t.level2|, t.free2))
    && (forall c, c' :: c in t.columns && c' in t.columns && Child(t, c.0, c.1) == Child(t, c'.0, c'.1) ==> c == c')
    && (forall n: nat :: n < |t.level2| ==> |t.level2[n].values| == t.size2)
    && |t.columns| + |t.free2| == |t.level2|
  }

  function Cell(t: Trie, p: Path): nat {
    var n := Child(t, p.i, p.j);
    if 1 <= n <= |t.level2| && p.k < |t.level2[n - 1].values| then t.level2[n - 1].values[p.k] else 0
  }

  ghost predicate CellsOk(t: Trie) {
    && (forall p :: p in t.contents ==> t.contents[p] != 0 && (p.i, p.j) in t.columns && p.k < t.size2)
    && (forall p: Path :: (p.i, p.j) in t.columns && p.k < t.size2 ==>
          Cell(t, p) == if p in t.contents then t.contents[p] else 0)
  }

  ghost predicate Shape(t: Trie) {
    RowsOk(t) && ColumnsOk(t) && CellsOk(t)
  }

  ghost function ColumnsOf(t: Trie, i: nat): set<(nat, nat)> {
    set c | c in t.columns && c.0 == i
  }

  ghost function PathsOf(t: Trie, i: nat, j: nat): set<Path> {
    set p | p in t.contents && p.i == i && p.j == j
  }

  /** Use counts of nodes are the numbers of their non-null entries. */
  ghost predicate Counts(t: Trie) {
    && (forall i :: i in t.rows && i < |t.root| && 1 <= t.root[i] <= |t.level1| ==>
          t.level1[t.root[i] - 1].usedCount == |ColumnsOf(t, i)|)
    && (forall c :: c in t.columns && 1 <= Child(t, c.0, c.1) <= |t.level2| ==>
          t.level2[Child(t, c.0, c.1) - 1].usedCount == |PathsOf(t, c.0, c.1)|)
  }

  // ---------------------------------------------------------------------------
  // The changes
  // ---------------------------------------------------------------------------

  ghost function AddRow(t: Trie, i: nat): Trie
    requires i < |t.root| && t.free1 != [] && 1 <= t.free1[0] <= |t.level1|
  {
    var n := t.free1[0];
    t.(root := t.root[i := n], level1 := t.level1[n - 1 := Blank1(t.size1)], free1 := t.free1[1..],
       rows := t.rows + {i})
  }

  ghost function DropRow(t: Trie, i: nat): Trie
    requires i < |t.root| && 1 <= t.root[i] <= |t.level1|
  {
    var n := t.root[i];
    t.(root := t.root[i := 0], level1 := t.level1[n - 1 := Blank1(t.size1)], free1 := [n] + t.free1,
       rows := t.rows - {i})
  }

  function WithChild(t: Trie, i: nat, j: nat, m: nat, usedCount: nat): seq<Level1Node>
    requires i < |t.root| && 1 <= t.root[i] <= |t.level1| && j < |t.level1[t.root[i] - 1].children|
  {
    var n := t.root[i] - 1;
    t.level1[n := Level1Node(t.level1[n].children[j := m], usedCount)]
  }

  ghost function AddColumn(t: Trie, i: nat, j: nat): Trie
    requires i < |t.root| && 1 <= t.root[i] <= |t.level1| && j < |t.level1[t.root[i] - 1].children|
    requires t.free2 != [] && 1 <= t.free2[0] <= |t.level2|
  {
    var m := t.free2[0];
    t.(level1 := WithChild(t, i, j, m, t.level1[t.root[i] - 1].usedCount + 1),
       level2 := t.level2[m - 1 := Blank2(t.size2)], free2 := t.free2[1..], columns := t.columns + {(i, j)})
  }

  /** `usedCount` is what the row's node records afterwards. */
  ghost function DropColumn(t: Trie, i: nat, j: nat, usedCount: nat): Trie
    requires i < |t.root| && 1 <= t.root[i] <= |t.level1| && j < |t.level1[t.root[i] - 1].children|
    requires 1 <= Child(t, i, j) <= |t.level2|
  {
    var m := Child(t, i, j);
    t.(level1 := WithChild(t, i, j, 0, usedCount),
       level2 := t.level2[m - 1 := Blank2(t.size2)], free2 := [m] + t.free2, columns := t.columns - {(i, j)},
       contents := map p | p in t.contents && !(p.i == i && p.j == j) :: t.contents[p])
  }

  ghost function SetCell(t: Trie, p: Path, v: nat): Trie
    requires 1 <= Child(t, p.i, p.j) <= |t.level2| && p.k < |t.level2[Child(t, p.i, p.j) - 1].values|
  {
    var m := Child(t, p.i, p.j) - 1;
    t.(level2 := t.level2[m := Level2Node(t.level2[m].values[p.k := v],
                                          if p in t.contents then t.level2[m].usedCount
                                          else t.level2[m].usedCount + 1)],
       contents := t.contents[p := v])
  }

  ghost function ClearCell(t: Trie, p: Path): Trie
    requires 1 <= Child(t, p.i, p.j) <= |t.level2| && p.k < |t.level2[Child(t, p.i, p.j) - 1].values|
    requires t.level2[Child(t, p.i, p.j) - 1].usedCount > 0
  {
    var m := Child(t, p.i, p.j) - 1;
    t.(level2 := t.level2[m := Level2Node(t.level2[m].values[p.k := 0], t.level2[m].usedCount - 1)],
       contents := t.contents - {p})
  }

  lemma RestDistinct(list: seq<nat>)
    requires NoDuplicates(list) && list != []
    ensures NoDuplicates(list[1..]) && forall x :: x in list <==> x == list[0] || x in list[1..]
    ensures list[0] !in list[1..]
  {
    assert list == [list[0]] + list[1..];
  }

  // ---------------------------------------------------------------------------
  // Rows coming and going
  // ---------------------------------------------------------------------------

  /** Rows without children do not matter to the columns. */
  lemma ColumnsKept(t: Trie, t': Trie)
    requires ColumnsOk(t) && t' == t.(root := t'.root, level1 := t'.level1, free1 := t'.free1, rows := t'.rows)
    requires forall x: nat, j: nat :: Child(t', x, j) == Child(t, x, j)
    requires forall c :: c in t.columns ==> c.0 in t'.rows
    requires forall x: nat, j: nat :: x in t'.rows && x !in t.rows ==> Child(t, x, j) == 0
    ensures ColumnsOk(t')
  {
    hide Child;
  }

  lemma CellsKept(t: Trie, t': Trie)
    requires CellsOk(t) && t'.level2 == t.level2 && t'.contents == t.contents && t'.columns == t.columns
    requires t'.size2 == t.size2
    requires forall x: nat, j: nat :: Child(t', x, j) == Child(t, x, j)
    ensures CellsOk(t')
  {
    hide Child;
    assert forall p: Path :: Cell(t', p) == Cell(t, p);
  }

  lemma AddRowRows(t: Trie, i: nat)
    requires RowsOk(t) && NoDuplicates(t.free1) && i < |t.root| && i !in t.rows && t.free1 != []
    requires 1 <= t.free1[0] <= |t.level1|
    ensures RowsOk(AddRow(t, i))
  {
    RestDistinct(t.free1);
    hide NoDuplicates, Child;
  }

  lemma AddRowChildren(t: Trie, i: nat, x: nat, j: nat)
    requires RowsOk(t) && i < |t.root| && i !in t.rows && t.free1 != [] && 1 <= t.free1[0] <= |t.level1|
    ensures Child(AddRow(t, i), x, j) == Child(t, x, j)
  {
    assert t.free1[0] in t.free1;
  }

  lemma AddRowShape(t: Trie, i: nat)
    requires Shape(t) && NoDuplicates(t.free1) && i < |t.root| && i !in t.rows && t.free1 != []
    requires 1 <= t.free1[0] <= |t.level1|
    ensures Shape(AddRow(t, i))
  {
    hide RowsOk, ColumnsOk, CellsOk, NoDuplicates, Child;
    var t' := AddRow(t, i);
    AddRowRows(t, i);
    forall x: nat, j: nat ensures Child(t', x, j) == Child(t, x, j) {
      AddRowChildren(t, i, x, j);
    }
    NoChildOutside(t);
    ColumnsKept(t, t');
    CellsKept(t, t');
  }

  lemma NoChildOutside(t: Trie)
    requires RowsOk(t) && ColumnsOk(t)
    ensures forall x: nat, j: nat :: x !in t.rows ==> Child(t, x, j) == 0
    ensures forall c :: c in t.columns ==> c.0 in t.rows
  {
  }

  lemma DropRowRows(t: Trie, i: nat)
    requires RowsOk(t) && i in t.rows
    ensures i < |t.root| && InUse(t.root[i], |t.level1|, t.free1) && RowsOk(DropRow(t, i))
  {
    hide Child;
    assert |t.rows - {i}| == |t.rows| - 1;
  }

  lemma DropRowChildren(t: Trie, i: nat, x: nat, j: nat)
    requires RowsOk(t) && i in t.rows && i < |t.root| && 1 <= t.root[i] <= |t.level1| && Child(t, i, j) == 0
    ensures Child(DropRow(t, i), x, j) == Child(t, x, j)
  {
  }

  lemma DropRowShape(t: Trie, i: nat)
    requires Shape(t) && i in t.rows && forall j: nat :: (i, j) !in t.columns
    ensures i < |t.root| && InUse(t.root[i], |t.level1|, t.free1) && Shape(DropRow(t, i))
  {
    DropRowRows(t, i);
    ChildlessRow(t, i);
    hide RowsOk, ColumnsOk, CellsOk, Child;
    var t' := DropRow(t, i);
    forall x: nat, j: nat ensures Child(t', x, j) == Child(t, x, j) {
      DropRowChildren(t, i, x, j);
    }
    NoChildOutside(t);
    ColumnsKept(t, t');
    CellsKept(t, t');
  }

  lemma ChildlessRow(t: Trie, i: nat)
    requires RowsOk(t) && ColumnsOk(t) && i in t.rows && forall j: nat :: (i, j) !in t.columns
    ensures forall j: nat :: Child(t, i, j) == 0
  {
    forall j: nat ensures Child(t, i, j) == 0 {
      assert (i, j) !in t.columns;
    }
  }

  // ---------------------------------------------------------------------------
  // Columns coming and going
  // ---------------------------------------------------------------------------

  lemma AddColumnRows(t: Trie, i: nat, j: nat)
    requires RowsOk(t) && i in t.rows && j < t.size1 && t.free2 != [] && 1 <= t.free2[0] <= |t.level2|
    ensures i < |t.root| && InUse(t.root[i], |t.level1|, t.free1) && j < |t.level1[t.root[i] - 1].children|
    ensures RowsOk(AddColumn(t, i, j))
  {
    hide Child;
  }

  lemma AddColumnChild(t: Trie, i: nat, j: nat, x: nat, y: nat)
    requires RowsOk(t) && i in t.rows && j < t.size1 && t.free2 != [] && 1 <= t.free2[0] <= |t.level2|
    requires i < |t.root| && 1 <= t.root[i] <= |t.level1| && j < |t.level1[t.root[i] - 1].children|
    ensures Child(AddColumn(t, i, j), x, y) == if x == i && y == j then t.free2[0] else Child(t, x, y)
  {
  }

  lemma AddColumnColumns(t: Trie, i: nat, j: nat)
    requires RowsOk(t) && ColumnsOk(t) && NoDuplicates(t.free2) && i in t.rows && j < t.size1 && (i, j) !in t.columns
    requires t.free2 != [] && 1 <= t.free2[0] <= |t.level2|
    requires i < |t.root| && 1 <= t.root[i] <= |t.level1| && j < |t.level1[t.root[i] - 1].children|
    requires forall x: nat, y: nat ::
               Child(AddColumn(t, i, j), x, y) == if x == i && y == j then t.free2[0] else Child(t, x, y)
    ensures ColumnsOk(AddColumn(t, i, j))
  {
    hide NoDuplicates, Child, RowsOk, WithChild;
    var t', m := AddColumn(t, i, j), t.free2[0];
    RestDistinct(t.free2);
    AddColumnDistinct(t, i, j);
    forall c: (nat, nat)
      ensures c in t'.columns <==> c.0 in t'.rows && c.1 < t'.size1 && Child(t', c.0, c.1) != 0
      ensures c in t'.columns ==> InUse(Child(t', c.0, c.1), |t'.level2|, t'.free2)
    {
      if c != (i, j) {
        assert c.0 != i || c.1 != j;
      }
    }
  }

  lemma AddColumnDistinct(t: Trie, i: nat, j: nat)
    requires ColumnsOk(t) && (i, j) !in t.columns && t.free2 != [] && 1 <= t.free2[0] <= |t.level2|
    requires i < |t.root| && 1 <= t.root[i] <= |t.level1| && j < |t.level1[t.root[i] - 1].children|
    requires forall x: nat, y: nat ::
               Child(AddColumn(t, i, j), x, y) == if x == i && y == j then t.free2[0] else Child(t, x, y)
    ensures var t' := AddColumn(t, i, j);
            forall c, c' :: c in t'.columns && c' in t'.columns && Child(t', c.0, c.1) == Child(t', c'.0, c'.1) ==>
              c == c'
  {
    hide Child, WithChild, ColumnsOk;
    var t', m := AddColumn(t, i, j), t.free2[0];
    assert m in t.free2;
    forall c, c' | c in t'.columns && c' in t'.columns && c != c'
      ensures Child(t', c.0, c.1) != Child(t', c'.0, c'.1)
    {
      if c == (i, j) {
        ColumnInUse(t, c');
      } else if c' == (i, j) {
        ColumnInUse(t, c);
      } else {
        OtherChild(t, c, c');
      }
    }
  }

  lemma AddColumnCells(t: Trie, i: nat, j: nat)
    requires ColumnsOk(t) && CellsOk(t) && (i, j) !in t.columns
    requires t.free2 != [] && 1 <= t.free2[0] <= |t.level2|
    requires i < |t.root| && 1 <= t.root[i] <= |t.level1| && j < |t.level1[t.root[i] - 1].children|
    requires forall x: nat, y: nat ::
               Child(AddColumn(t, i, j), x, y) == if x == i && y == j then t.free2[0] else Child(t, x, y)
    ensures CellsOk(AddColumn(t, i, j))
  {
    hide Child, WithChild, NoDuplicates, ColumnsOk;
    var t' := AddColumn(t, i, j);
    assert t.free2[0] in t.free2;
    forall p: Path | (p.i, p.j) in t'.columns && p.k < t'.size2
      ensures Cell(t', p) == if p in t'.contents then t'.contents[p] else 0
    {
      if (p.i, p.j) in t.columns {
        ColumnInUse(t, (p.i, p.j));
        assert Cell(t', p) == Cell(t, p);
      }
    }
  }

  lemma AddColumnShape(t: Trie, i: nat, j: nat)
    requires Shape(t) && NoDuplicates(t.free2) && i in t.rows && j < t.size1 && (i, j) !in t.columns
    requires t.free2 != [] && 1 <= t.free2[0] <= |t.level2|
    ensures i < |t.root| && InUse(t.root[i], |t.level1|, t.free1) && j < |t.level1[t.root[i] - 1].children|
    ensures Shape(AddColumn(t, i, j))
  {
    hide RowsOk, ColumnsOk, CellsOk, Child, NoDuplicates, AddColumn;
    AddColumnRows(t, i, j);
    forall x: nat, y: nat
      ensures Child(AddColumn(t, i, j), x, y) == if x == i && y == j then t.free2[0] else Child(t, x, y)
    {
      AddColumnChild(t, i, j, x, y);
    }
    AddColumnColumns(t, i, j);
    AddColumnCells(t, i, j);
  }

  lemma ColumnUsed(t: Trie, i: nat, j: nat)
    requires RowsOk(t) && ColumnsOk(t) && (i, j) in t.columns
    ensures i in t.rows && i < |t.root| && InUse(t.root[i], |t.level1|, t.free1)
    ensures j < |t.level1[t.root[i] - 1].children|
    ensures InUse(Child(t, i, j), |t.level2|, t.free2)
    ensures |t.level2[Child(t, i, j) - 1].values| == t.size2
  {
    var c := (i, j);
    assert c in t.columns && c.0 == i && c.1 == j;
  }

  lemma DropColumnRows(t: Trie, i: nat, j: nat, usedCount: nat)
    requires RowsOk(t) && i in t.rows && j < t.size1 && 1 <= Child(t, i, j) <= |t.level2|
    requires i < |t.root| && 1 <= t.root[i] <= |t.level1| && j < |t.level1[t.root[i] - 1].children|
    ensures RowsOk(DropColumn(t, i, j, usedCount))
  {
    hide Child;
  }

  lemma DropColumnChild(t: Trie, i: nat, j: nat, usedCount: nat, x: nat, y: nat)
    requires RowsOk(t) && i in t.rows && j < t.size1 && 1 <= Child(t, i, j) <= |t.level2|
    requires i < |t.root| && 1 <= t.root[i] <= |t.level1| && j < |t.level1[t.root[i] - 1].children|
    ensures Child(DropColumn(t, i, j, usedCount), x, y) == if x == i && y == j then 0 else Child(t, x, y)
  {
  }

  lemma DropColumnColumns(t: Trie, i: nat, j: nat, usedCount: nat)
    requires RowsOk(t) && ColumnsOk(t) && (i, j) in t.columns && 1 <= Child(t, i, j) <= |t.level2|
    requires i < |t.root| && 1 <= t.root[i] <= |t.level1| && j < |t.level1[t.root[i] - 1].children|
    requires forall x: nat, y: nat ::
               Child(DropColumn(t, i, j, usedCount), x, y) == if x == i && y == j then 0 else Child(t, x, y)
    ensures ColumnsOk(DropColumn(t, i, j, usedCount))
  {
    hide Child, RowsOk, WithChild;
    assert |t.columns - {(i, j)}| == |t.columns| - 1;
  }

  lemma DropColumnCells(t: Trie, i: nat, j: nat, usedCount: nat)
    requires ColumnsOk(t) && CellsOk(t) && (i, j) in t.columns && 1 <= Child(t, i, j) <= |t.level2|
    requires i < |t.root| && 1 <= t.root[i] <= |t.level1| && j < |t.level1[t.root[i] - 1].children|
    requires forall x: nat, y: nat ::
               Child(DropColumn(t, i, j, usedCount), x, y) == if x == i && y == j then 0 else Child(t, x, y)
    ensures CellsOk(DropColumn(t, i, j, usedCount))
  {
    hide Child, WithChild;
    var t' := DropColumn(t, i, j, usedCount);
    forall p: Path | (p.i, p.j) in t'.columns && p.k < t'.size2
      ensures Cell(t', p) == if p in t'.contents then t'.contents[p] else 0
    {
      assert Child(t, (p.i, p.j).0, (p.i, p.j).1) != Child(t, (i, j).0, (i, j).1);
      assert Cell(t', p) == Cell(t, p);
    }
  }

  lemma DropColumnShape(t: Trie, i: nat, j: nat, usedCount: nat)
    requires Shape(t) && (i, j) in t.columns
    ensures i < |t.root| && InUse(t.root[i], |t.level1|, t.free1) && j < |t.level1[t.root[i] - 1].children|
    ensures InUse(Child(t, i, j), |t.level2|, t.free2) && Shape(DropColumn(t, i, j, usedCount))
  {
    ColumnUsed(t, i, j);
    assert j < t.size1 by { assert (i, j).1 == j; }
    hide RowsOk, ColumnsOk, CellsOk, Child, DropColumn;
    DropColumnRows(t, i, j, usedCount);
    forall x: nat, y: nat
      ensures Child(DropColumn(t, i, j, usedCount), x, y) == if x == i && y == j then 0 else Child(t, x, y)
    {
      DropColumnChild(t, i, j, usedCount, x, y);
    }
    DropColumnColumns(t, i, j, usedCount);
    DropColumnCells(t, i, j, usedCount);
  }

  // ---------------------------------------------------------------------------
  // Cells
  // ---------------------------------------------------------------------------

  ghost predicate SameButNode(t: Trie, t': Trie, m: nat) {
    && t' == t.(level2 := t'.level2, contents := t'.contents) && |t'.level2| == |t.level2|
    && (forall n: nat :: n < |t.level2| ==> |t'.level2[n].values| == |t.level2[n].values|)
    && (forall n: nat :: n < |t.level2| && n != m ==> t'.level2[n] == t.level2[n])
  }

  lemma NodeChanged(t: Trie, t': Trie, m: nat)
    requires RowsOk(t) && ColumnsOk(t) && SameButNode(t, t', m)
    ensures RowsOk(t') && ColumnsOk(t')
    ensures forall x: nat, y: nat :: Child(t', x, y) == Child(t, x, y)
  {
    hide Child, RowsOk;
    forall x: nat, y: nat ensures Child(t', x, y) == Child(t, x, y) {
      SameChild(t, t', x, y);
    }
    SameRows(t, t');
  }

  lemma SameChild(t: Trie, t': Trie, x: nat, y: nat)
    requires t'.root == t.root && t'.level1 == t.level1
    ensures Child(t', x, y) == Child(t, x, y)
  {
  }

  lemma SameRows(t: Trie, t': Trie)
    requires RowsOk(t) && t'.root == t.root && t'.level1 == t.level1 && t'.rows == t.rows && t'.free1 == t.free1
    requires t'.size1 == t.size1
    ensures RowsOk(t')
  {
  }

  /** Different columns have different nodes. */
  lemma OtherChild(t: Trie, c: (nat, nat), c': (nat, nat))
    requires ColumnsOk(t) && c in t.columns && c' in t.columns && c != c'
    ensures Child(t, c.0, c.1) != Child(t, c'.0, c'.1)
  {
    hide Child;
  }

  lemma MappedPath(t: Trie, p: Path)
    requires CellsOk(t) && p in t.contents
    ensures (p.i, p.j) in t.columns && p.k < t.size2
  {
  }

  /** Writing one cell changes what is found under its path only. */
  lemma CellWritten(t: Trie, t': Trie, p: Path, v: nat)
    requires Shape(t) && (p.i, p.j) in t.columns && p.k < t.size2
    requires 1 <= Child(t, p.i, p.j) <= |t.level2| && |t.level2[Child(t, p.i, p.j) - 1].values| == t.size2
    requires SameButNode(t, t', Child(t, p.i, p.j) - 1)
    requires t'.level2[Child(t, p.i, p.j) - 1].values == t.level2[Child(t, p.i, p.j) - 1].values[p.k := v]
    requires t'.contents == if v == 0 then t.contents - {p} else t.contents[p := v]
    ensures Shape(t')
  {
    hide RowsOk, ColumnsOk, Child;
    NodeChanged(t, t', Child(t, p.i, p.j) - 1);
    forall q: Path | (q.i, q.j) in t'.columns && q.k < t'.size2
      ensures Cell(t', q) == if q in t'.contents then t'.contents[q] else 0
    {
      if (q.i, q.j) != (p.i, p.j) {
        OtherChild(t, (q.i, q.j), (p.i, p.j));
        assert Cell(t', q) == Cell(t, q);
      } else if q.k != p.k {
        assert Cell(t', q) == Cell(t, q);
      }
    }
  }

  lemma SetCellShape(t: Trie, p: Path, v: nat)
    requires Shape(t) && (p.i, p.j) in t.columns && p.k < t.size2 && v != 0
    ensures InUse(Child(t, p.i, p.j), |t.level2|, t.free2) && p.k < |t.level2[Child(t, p.i, p.j) - 1].values|
    ensures Shape(SetCell(t, p, v))
  {
    ColumnUsed(t, p.i, p.j);
    hide RowsOk, ColumnsOk, CellsOk, Child;
    CellWritten(t, SetCell(t, p, v), p, v);
  }

  lemma ClearCellShape(t: Trie, p: Path)
    requires Shape(t) && p in t.contents && 1 <= Child(t, p.i, p.j) <= |t.level2|
    requires t.level2[Child(t, p.i, p.j) - 1].usedCount > 0
    ensures InUse(Child(t, p.i, p.j), |t.level2|, t.free2) && p.k < |t.level2[Child(t, p.i, p.j) - 1].values|
    ensures Shape(ClearCell(t, p))
  {
    assert (p.i, p.j) in t.columns && p.k < t.size2;
    ColumnUsed(t, p.i, p.j);
    hide RowsOk, ColumnsOk, CellsOk, Child;
    CellWritten(t, ClearCell(t, p), p, 0);
  }

  /** The cell under a path says whether the path is mapped. */
  lemma CellIs(t: Trie, p: Path)
    requires Shape(t) && p.k < t.size2 && (p.i, p.j) in t.columns
    ensures Cell(t, p) == if p in t.contents then t.contents[p] else 0
    ensures Cell(t, p) != 0 <==> p in t.contents
  {
  }

  // ---------------------------------------------------------------------------
  // Use counts
  // ---------------------------------------------------------------------------

  ghost predicate RowCount(t: Trie, i: nat) {
    i < |t.root| && 1 <= t.root[i] <= |t.level1| ==> t.level1[t.root[i] - 1].usedCount == |ColumnsOf(t, i)|
  }

  ghost predicate ColumnCount(t: Trie, c: (nat, nat)) {
    1 <= Child(t, c.0, c.1) <= |t.level2| ==> t.level2[Child(t, c.0, c.1) - 1].usedCount == |PathsOf(t, c.0, c.1)|
  }

  lemma SameColumnsOf(t: Trie, t': Trie, i: nat)
    requires forall c: (nat, nat) :: c.0 == i ==> (c in t.columns <==> c in t'.columns)
    ensures ColumnsOf(t', i) == ColumnsOf(t, i)
  {
  }

  lemma SamePathsOf(t: Trie, t': Trie, i: nat, j: nat)
    requires forall p: Path :: p.i == i && p.j == j ==> (p in t.contents <==> p in t'.contents)
    ensures PathsOf(t', i, j) == PathsOf(t, i, j)
  {
  }

  lemma AddRowCounts(t: Trie, i: nat)
    requires Shape(t) && Counts(t) && i < |t.root| && i !in t.rows && t.free1 != [] && 1 <= t.free1[0] <= |t.level1|
    ensures Counts(AddRow(t, i))
  {
    hide Child, ColumnsOk, CellsOk, PathsOf;
    var t' := AddRow(t, i);
    assert t.free1[0] in t.free1;
    forall x: nat, j: nat ensures Child(t', x, j) == Child(t, x, j) {
      AddRowChildren(t, i, x, j);
    }
    NoChildOutside(t);
    AddRowRowCounts(t, i);
    hide RowsOk, ColumnsOf;
    forall c | c in t'.columns ensures ColumnCount(t', c) {
      assert ColumnCount(t, c);
      SamePathsOf(t, t', c.0, c.1);
    }
  }

  lemma AddRowRowCounts(t: Trie, i: nat)
    requires RowsOk(t) && Counts(t) && i < |t.root| && i !in t.rows && t.free1 != [] && 1 <= t.free1[0] <= |t.level1|
    requires forall c :: c in t.columns ==> c.0 in t.rows
    ensures forall x :: x in t.rows + {i} ==> RowCount(AddRow(t, i), x)
  {
    hide Child, PathsOf;
    var t' := AddRow(t, i);
    assert t.free1[0] in t.free1;
    assert ColumnsOf(t', i) == {};
    forall x | x in t'.rows ensures RowCount(t', x) {
      if x != i {
        assert RowCount(t, x);
        SameColumnsOf(t, t', x);
      }
    }
  }

  lemma DropRowCounts(t: Trie, i: nat)
    requires Shape(t) && Counts(t) && i in t.rows && forall j: nat :: (i, j) !in t.columns
    requires i < |t.root| && 1 <= t.root[i] <= |t.level1|
    ensures Counts(DropRow(t, i))
  {
    hide Child, ColumnsOk, CellsOk, PathsOf;
    var t' := DropRow(t, i);
    ChildlessRow(t, i);
    forall x: nat, j: nat ensures Child(t', x, j) == Child(t, x, j) {
      DropRowChildren(t, i, x, j);
    }
    forall x | x in t'.rows ensures RowCount(t', x) {
      assert RowCount(t, x);
      SameColumnsOf(t, t', x);
    }
    forall c | c in t'.columns ensures ColumnCount(t', c) {
      assert ColumnCount(t, c);
      SamePathsOf(t, t', c.0, c.1);
    }
  }

  lemma AddColumnCounts(t: Trie, i: nat, j: nat)
    requires Shape(t) && Counts(t) && i in t.rows && j < t.size1 && (i, j) !in t.columns
    requires t.free2 != [] && 1 <= t.free2[0] <= |t.level2|
    requires i < |t.root| && 1 <= t.root[i] <= |t.level1| && j < |t.level1[t.root[i] - 1].children|
    ensures Counts(AddColumn(t, i, j))
  {
    var t' := AddColumn(t, i, j);
    forall x: nat, y: nat ensures Child(t', x, y) == if x == i && y == j then t.free2[0] else Child(t, x, y) {
      AddColumnChild(t, i, j, x, y);
    }
    NewColumnRows(t, i, j);
    NewColumnColumns(t, i, j);
  }

  lemma NewColumnRows(t: Trie, i: nat, j: nat)
    requires RowsOk(t) && Counts(t) && i in t.rows && (i, j) !in t.columns
    requires t.free2 != [] && 1 <= t.free2[0] <= |t.level2|
    requires i < |t.root| && 1 <= t.root[i] <= |t.level1| && j < |t.level1[t.root[i] - 1].children|
    ensures forall x :: x in t.rows ==> RowCount(AddColumn(t, i, j), x)
  {
    hide Child, PathsOf;
    var t' := AddColumn(t, i, j);
    assert ColumnsOf(t', i) == ColumnsOf(t, i) + {(i, j)};
    forall x | x in t.rows ensures RowCount(t', x) {
      assert RowCount(t, x);
      if x != i {
        SameColumnsOf(t, t', x);
      }
    }
  }

  lemma NewColumnColumns(t: Trie, i: nat, j: nat)
    requires Shape(t) && Counts(t) && i in t.rows && (i, j) !in t.columns
    requires t.free2 != [] && 1 <= t.free2[0] <= |t.level2|
    requires i < |t.root| && 1 <= t.root[i] <= |t.level1| && j < |t.level1[t.root[i] - 1].children|
    requires forall x: nat, y: nat ::
               Child(AddColumn(t, i, j), x, y) == if x == i && y == j then t.free2[0] else Child(t, x, y)
    ensures forall c :: c in t.columns + {(i, j)} ==> ColumnCount(AddColumn(t, i, j), c)
  {
    hide Child, WithChild, RowsOk, ColumnsOf, ColumnsOk, CellsOk;
    var t' := AddColumn(t, i, j);
    NoPaths(t, i, j);
    SamePathsOf(t, t', i, j);
    forall c | c in t.columns + {(i, j)} ensures ColumnCount(t', c) {
      if c != (i, j) {
        assert ColumnCount(t, c);
        SamePathsOf(t, t', c.0, c.1);
        ColumnInUse(t, c);
        assert t.free2[0] in t.free2;
      }
    }
  }

  lemma NoPaths(t: Trie, i: nat, j: nat)
    requires CellsOk(t) && (i, j) !in t.columns
    ensures PathsOf(t, i, j) == {}
  {
  }

  lemma ColumnInUse(t: Trie, c: (nat, nat))
    requires ColumnsOk(t) && c in t.columns
    ensures InUse(Child(t, c.0, c.1), |t.level2|, t.free2)
  {
    hide Child;
  }

  lemma DropColumnCounts(t: Trie, i: nat, j: nat)
    requires Shape(t) && Counts(t) && (i, j) in t.columns && 1 <= Child(t, i, j) <= |t.level2|
    requires i < |t.root| && 1 <= t.root[i] <= |t.level1| && j < |t.level1[t.root[i] - 1].children|
    ensures t.level1[t.root[i] - 1].usedCount > 0
    ensures Counts(DropColumn(t, i, j, t.level1[t.root[i] - 1].usedCount - 1))
  {
    ColumnUsed(t, i, j);
    assert RowCount(t, i) && (i, j) in ColumnsOf(t, i);
    assert j < t.size1 by { assert (i, j).1 == j; }
    var used := t.level1[t.root[i] - 1].usedCount - 1;
    var t' := DropColumn(t, i, j, used);
    forall x: nat, y: nat ensures Child(t', x, y) == if x == i && y == j then 0 else Child(t, x, y) {
      DropColumnChild(t, i, j, used, x, y);
    }
    OldColumnRows(t, i, j);
    OldColumnColumns(t, i, j);
  }

  lemma OldColumnRows(t: Trie, i: nat, j: nat)
    requires RowsOk(t) && Counts(t) && i in t.rows && (i, j) in t.columns && 1 <= Child(t, i, j) <= |t.level2|
    requires i < |t.root| && 1 <= t.root[i] <= |t.level1| && j < |t.level1[t.root[i] - 1].children|
    requires t.level1[t.root[i] - 1].usedCount > 0
    ensures forall x :: x in t.rows ==> RowCount(DropColumn(t, i, j, t.level1[t.root[i] - 1].usedCount - 1), x)
  {
    hide Child, PathsOf;
    var t' := DropColumn(t, i, j, t.level1[t.root[i] - 1].usedCount - 1);
    assert RowCount(t, i);
    assert ColumnsOf(t', i) == ColumnsOf(t, i) - {(i, j)};
    forall x | x in t.rows ensures RowCount(t', x) {
      assert RowCount(t, x);
      if x != i {
        SameColumnsOf(t, t', x);
      }
    }
  }

  lemma OldColumnColumns(t: Trie, i: nat, j: nat)
    requires Shape(t) && Counts(t) && (i, j) in t.columns && 1 <= Child(t, i, j) <= |t.level2|
    requires i < |t.root| && 1 <= t.root[i] <= |t.level1| && j < |t.level1[t.root[i] - 1].children|
    requires t.level1[t.root[i] - 1].usedCount > 0
    requires forall x: nat, y: nat :: Child(DropColumn(t, i, j, t.level1[t.root[i] - 1].usedCount - 1), x, y)
                                        == if x == i && y == j then 0 else Child(t, x, y)
    ensures forall c :: c in t.columns - {(i, j)}
              ==> ColumnCount(DropColumn(t, i, j, t.level1[t.root[i] - 1].usedCount - 1), c)
  {
    hide Child, WithChild, RowsOk, ColumnsOk, CellsOk, ColumnsOf;
    var t' := DropColumn(t, i, j, t.level1[t.root[i] - 1].usedCount - 1);
    forall c | c in t.columns - {(i, j)} ensures ColumnCount(t', c) {
      assert ColumnCount(t, c);
      OtherChild(t, c, (i, j));
      SamePathsOf(t, t', c.0, c.1);
    }
  }

  lemma SetCellCounts(t: Trie, p: Path, v: nat)
    requires Shape(t) && Counts(t) && (p.i, p.j) in t.columns && p.k < t.size2 && v != 0
    requires 1 <= Child(t, p.i, p.j) <= |t.level2| && p.k < |t.level2[Child(t, p.i, p.j) - 1].values|
    ensures Counts(SetCell(t, p, v))
  {
    hide Child, RowsOk, ColumnsOk, CellsOk, ColumnsOf;
    var t' := SetCell(t, p, v);
    NodeChanged(t, t', Child(t, p.i, p.j) - 1);
    assert ColumnCount(t, (p.i, p.j));
    assert PathsOf(t', p.i, p.j) == PathsOf(t, p.i, p.j) + {p};
    NodeCounts(t, t', p);
  }

  lemma ClearCellCounts(t: Trie, p: Path)
    requires Shape(t) && Counts(t) && p in t.contents && 1 <= Child(t, p.i, p.j) <= |t.level2|
    requires p.k < |t.level2[Child(t, p.i, p.j) - 1].values|
    ensures t.level2[Child(t, p.i, p.j) - 1].usedCount > 0 && Counts(ClearCell(t, p))
  {
    hide Child, RowsOk, ColumnsOk, CellsOk, ColumnsOf;
    MappedPath(t, p);
    assert ColumnCount(t, (p.i, p.j)) && p in PathsOf(t, p.i, p.j);
    var t' := ClearCell(t, p);
    NodeChanged(t, t', Child(t, p.i, p.j) - 1);
    assert PathsOf(t', p.i, p.j) == PathsOf(t, p.i, p.j) - {p};
    NodeCounts(t, t', p);
  }

  lemma NodeCounts(t: Trie, t': Trie, p: Path)
    requires RowsOk(t) && ColumnsOk(t) && Counts(t) && (p.i, p.j) in t.columns
    requires SameButNode(t, t', Child(t, p.i, p.j) - 1) && 1 <= Child(t, p.i, p.j) <= |t.level2|
    requires forall x: nat, y: nat :: Child(t', x, y) == Child(t, x, y)
    requires forall q: Path :: q != p ==> (q in t.contents <==> q in t'.contents)
    requires t'.level2[Child(t, p.i, p.j) - 1].usedCount - t.level2[Child(t, p.i, p.j) - 1].usedCount
               == |PathsOf(t', p.i, p.j)| - |PathsOf(t, p.i, p.j)|
    ensures Counts(t')
  {
    hide Child, RowsOk, ColumnsOk, ColumnsOf, PathsOf;
    forall x | x in t'.rows ensures RowCount(t', x) {
      assert RowCount(t, x);
      SameColumnsOf(t, t', x);
    }
    forall c | c in t'.columns ensures ColumnCount(t', c) {
      assert ColumnCount(t, c);
      if c != (p.i, p.j) {
        OtherChild(t, c, (p.i, p.j));
        SamePathsOf(t, t', c.0, c.1);
      }
    }
  }
}
