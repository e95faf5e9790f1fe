/**
 * Label filtering over one Parquet label chunk (cpp/src/graphar/label.cc and label.h):
 * batched column reads across row groups feed a row predicate with three kinds of output.
 */
module LabelFilter {

  const BATCH_SIZE: nat := 1024

  datatype QueryType = COUNT | INDEX | BITMAP | ADAPTIVE

  /** A row group: one boolean column per label, all of the same length. */
  datatype RowGroup = RowGroup(rows: nat, columns: seq<seq<bool>>)

  ghost predicate WellFormed(file: seq<RowGroup>, numColumns: nat) {
    forall g :: 0 <= g < |file| ==>
      && |file[g].columns| == numColumns
      && forall c :: 0 <= c < numColumns ==> |file[g].columns[c]| == file[g].rows
  }

  /** Column c over the first g row groups. */
  ghost function Column(file: seq<RowGroup>, numColumns: nat, g: nat, c: nat): seq<bool>
    requires WellFormed(file, numColumns) && g <= |file| && c < numColumns
  {
    if g == 0 then [] else Column(file, numColumns, g - 1, c) + file[g - 1].columns[c]
  }

  ghost function RowsIn(file: seq<RowGroup>, g: nat): nat
    requires g <= |file|
  {
    if g == 0 then 0 else RowsIn(file, g - 1) + file[g - 1].rows
  }

  lemma ColumnLength(file: seq<RowGroup>, numColumns: nat, g: nat, c: nat)
    requires WellFormed(file, numColumns) && g <= |file| && c < numColumns
    ensures |Column(file, numColumns, g, c)| == RowsIn(file, g)
  {
  }

  lemma RowsInMonotone(file: seq<RowGroup>, g: nat, h: nat)
    requires g <= h <= |file|
    ensures RowsIn(file, g) <= RowsIn(file, h)
    decreases h
  {
    if g < h {
      RowsInMonotone(file, g, h - 1);
    }
  }

  /** The label ids that are tested: distinct columns of the file. */
  ghost predicate Tested(ids: seq<nat>, numColumns: nat) {
    && (forall k :: 0 <= k < |ids| ==> ids[k] < numColumns)
    && (forall j, k :: 0 <= j < k < |ids| ==> ids[j] != ids[k])
  }

  /** Distinct columns fit in the buffer, which has one row per column of the file. */
  lemma TestedFit(ids: seq<nat>, numColumns: nat)
    requires Tested(ids, numColumns)
    ensures |ids| <= numColumns
  {
    var used := set k | 0 <= k < |ids| :: ids[k];
    SetOfDistinct(ids);
    RangeSize(used, numColumns);
  }

  lemma {:induction false} SetOfDistinct(ids: seq<nat>)
    requires forall j, k :: 0 <= j < k < |ids| ==> ids[j] != ids[k]
    ensures |set k | 0 <= k < |ids| :: ids[k]| == |ids|
  {
    if ids != [] {
      var init := ids[..|ids| - 1];
      SetOfDistinct(init);
      var all, few := (set k | 0 <= k < |ids| :: ids[k]), (set k | 0 <= k < |init| :: init[k]);
      forall x ensures x in all <==> x in few + {ids[|ids| - 1]} {
        if x in few {
          var k :| 0 <= k < |init| && init[k] == x;
          assert ids[k] == x;
        }
        if x in all && x != ids[|ids| - 1] {
          var k :| 0 <= k < |ids| && ids[k] == x;
          assert init[k] == x;
        }
      }
      assert all == few + {ids[|ids| - 1]};
    }
  }

  lemma {:induction false} RangeSize(s: set<nat>, n: nat)
    requires forall x :: x in s ==> x < n
    ensures |s| <= n
  {
    if n == 0 {
      assert s == {};
    } else {
      RangeSize(s - {n - 1}, n - 1);
      assert s <= s - {n - 1} + {n - 1};
    }
  }

  // ----- reading the columns -----

  /** ReadBatch: some positive number of rows, at most BATCH_SIZE, lands in value[k] at `at`. */
  method ReadBatch(column: seq<bool>, pos: nat, value: array2<bool>, k: nat, at: nat) returns (rowsRead: nat)
    requires pos < |column| && k < value.Length0 && at + |column| - pos <= value.Length1
    modifies value
    ensures 1 <= rowsRead <= BATCH_SIZE && pos + rowsRead <= |column|
    ensures forall r :: at <= r < at + rowsRead ==> value[k, r] == column[pos + r - at]
    ensures forall j, r :: 0 <= j < value.Length0 && 0 <= r < value.Length1 && !(j == k && at <= r < at + rowsRead) ==>
      value[j, r] == old(value[j, r])
  {
    rowsRead :| 1 <= rowsRead <= BATCH_SIZE && pos + rowsRead <= |column|;
    for i := 0 to rowsRead
      invariant forall r :: at <= r < at + i ==> value[k, r] == column[pos + r - at]
      invariant forall j, r :: 0 <= j < value.Length0 && 0 <= r < value.Length1 && !(j == k && at <= r < at + i) ==>
        value[j, r] == old(value[j, r])
    {
      value[k, at + i] := column[pos + i];
    }
  }

  /** The while (HasNext) loop over one column of one row group (lines 75-85). */
  method ReadColumn(column: seq<bool>, value: array2<bool>, k: nat, at: nat) returns (rows: nat)
    requires k < value.Length0 && at + |column| <= value.Length1
    modifies value
    ensures rows == |column|
    ensures forall r :: at <= r < at + |column| ==> value[k, r] == column[r - at]
    ensures forall j, r :: 0 <= j < value.Length0 && 0 <= r < value.Length1 && !(j == k && at <= r < at + |column|) ==>
      value[j, r] == old(value[j, r])
  {
    rows := 0;
    while rows < |column|
      invariant rows <= |column|
      invariant forall r :: at <= r < at + rows ==> value[k, r] == column[r - at]
      invariant forall j, r :: 0 <= j < value.Length0 && 0 <= r < value.Length1 && !(j == k && at <= r < at + rows) ==>
        value[j, r] == old(value[j, r])
    {
      var rowsRead := ReadBatch(column, rows, value, k, at + rows);
      rows := rows + rowsRead;
    }
  }

  /** Row k of the buffer starts with `column`. */
  ghost predicate Holds(value: array2<bool>, k: nat, column: seq<bool>)
    reads value
  {
    && k < value.Length0 && |column| <= value.Length1
    && forall r :: 0 <= r < |column| ==> value[k, r] == column[r]
  }

  /** One column of one row group is appended to buffer row k; other buffer rows keep what they hold. */
  method AppendColumn(value: array2<bool>, k: nat, ghost before: seq<bool>, column: seq<bool>, at: nat)
    returns (rows: nat)
    requires k < value.Length0 && at == |before| && at + |column| <= value.Length1
    requires Holds(value, k, before)
    modifies value
    ensures rows == |column| && Holds(value, k, before + column)
    ensures forall j: nat, c: seq<bool> :: j != k && old(Holds(value, j, c)) ==> Holds(value, j, c)
  {
    rows := ReadColumn(column, value, k, at);
  }

  /** One row group (lines 57-86): each tested column is appended to its own buffer row. */
  method ReadRowGroup(file: seq<RowGroup>, numColumns: nat, g: nat, ids: seq<nat>, value: array2<bool>,
                      counts: array<nat>)
    requires WellFormed(file, numColumns) && Tested(ids, numColumns) && g < |file|
    requires |ids| <= value.Length0 && RowsIn(file, g + 1) <= value.Length1 && counts.Length == numColumns
    requires forall k: nat :: k < |ids| ==> counts[ids[k]] == RowsIn(file, g)
    requires forall k: nat :: k < |ids| ==> Holds(value, k, Column(file, numColumns, g, ids[k]))
    modifies value, counts
    ensures forall k: nat :: k < |ids| ==> counts[ids[k]] == RowsIn(file, g + 1)
    ensures forall k: nat :: k < |ids| ==> Holds(value, k, Column(file, numColumns, g + 1, ids[k]))
  {
    for k := 0 to |ids|
      invariant forall j: nat :: j < |ids| ==> counts[ids[j]] == if j < k then RowsIn(file, g + 1) else RowsIn(file, g)
      invariant forall j: nat :: j < |ids| ==>
        Holds(value, j, Column(file, numColumns, if j < k then g + 1 else g, ids[j]))
    {
      var colId := ids[k];
      ColumnLength(file, numColumns, g, colId);
      ghost var before := Column(file, numColumns, g, colId);
      assert Column(file, numColumns, g + 1, colId) == before + file[g].columns[colId];
      var rows := AppendColumn(value, k, before, file[g].columns[colId], counts[colId]);
      counts[colId] := counts[colId] + rows;
    }
  }

  /** The buffer holds what the first g row groups have in the tested columns. */
  ghost predicate Filled(file: seq<RowGroup>, numColumns: nat, g: nat, ids: seq<nat>, value: array2<bool>,
                         counts: seq<nat>)
    requires WellFormed(file, numColumns) && Tested(ids, numColumns) && g <= |file| && |counts| == numColumns
    reads value
  {
    forall k: nat :: k < |ids| ==>
      counts[ids[k]] == RowsIn(file, g) && Holds(value, k, Column(file, numColumns, g, ids[k]))
  }

  lemma NothingFilled(file: seq<RowGroup>, numColumns: nat, ids: seq<nat>, value: array2<bool>, counts: seq<nat>)
    requires WellFormed(file, numColumns) && Tested(ids, numColumns) && |counts| == numColumns
    requires |ids| <= value.Length0 && forall c :: 0 <= c < numColumns ==> counts[c] == 0
    ensures Filled(file, numColumns, 0, ids, value, counts)
  {
  }

  /** All row groups (lines 48-87): buffer row k is tested column k of the file. */
  method ReadFile(file: seq<RowGroup>, numColumns: nat, rowNum: nat, ids: seq<nat>) returns (value: array2<bool>)
    requires WellFormed(file, numColumns) && Tested(ids, numColumns) && RowsIn(file, |file|) == rowNum
    ensures value.Length0 == numColumns && value.Length1 == rowNum && |ids| <= numColumns
    ensures forall k: nat :: k < |ids| ==> Holds(value, k, Column(file, numColumns, |file|, ids[k]))
  {
    hide Column, RowsIn, Holds;
    TestedFit(ids, numColumns);
    value := new bool[numColumns, rowNum];
    var counts := new nat[numColumns](_ => 0);
    NothingFilled(file, numColumns, ids, value, counts[..]);
    for g := 0 to |file|
      invariant Filled(file, numColumns, g, ids, value, counts[..])
    {
      RowsInMonotone(file, g + 1, |file|);
      ReadRowGroup(file, numColumns, g, ids, value, counts);
    }
  }

  // ----- filtering -----

  /** The label states of row i, in the order the labels are tested. */
  ghost function StateOf(file: seq<RowGroup>, numColumns: nat, ids: seq<nat>, i: nat): (s: seq<bool>)
    requires WellFormed(file, numColumns) && Tested(ids, numColumns) && i < RowsIn(file, |file|)
    ensures |s| == |ids|
  {
    seq(|ids|, k requires 0 <= k < |ids| =>
      ColumnLength(file, numColumns, |file|, ids[k]);
      Column(file, numColumns, |file|, ids[k])[i])
  }

  /** The columns' rows are the row groups' rows, one group after another. */
  lemma {:induction false} ColumnAt(file: seq<RowGroup>, numColumns: nat, h: nat, c: nat, g: nat, r: nat)
    requires WellFormed(file, numColumns) && g < h <= |file| && c < numColumns && r < file[g].rows
    ensures RowsIn(file, g) + r < RowsIn(file, h) && |Column(file, numColumns, h, c)| == RowsIn(file, h)
    ensures Column(file, numColumns, h, c)[RowsIn(file, g) + r] == file[g].columns[c][r]
    decreases h
  {
    ColumnLength(file, numColumns, h, c);
    ColumnLength(file, numColumns, h - 1, c);
    if g < h - 1 {
      ColumnAt(file, numColumns, h - 1, c, g, r);
    }
  }

  /** The state of row r of row group g: the tested label columns of that group, at that row. */
  lemma StateAt(file: seq<RowGroup>, numColumns: nat, ids: seq<nat>, g: nat, r: nat, k: nat)
    requires WellFormed(file, numColumns) && Tested(ids, numColumns) && g < |file| && r < file[g].rows && k < |ids|
    ensures RowsIn(file, g) + r < RowsIn(file, |file|)
    ensures StateOf(file, numColumns, ids, RowsIn(file, g) + r)[k] == file[g].columns[ids[k]][r]
  {
    ColumnAt(file, numColumns, |file|, ids[k], g, r);
  }

  /** The labels of row r of row group g, in the order they are tested. */
  ghost function Labels(file: seq<RowGroup>, numColumns: nat, ids: seq<nat>, g: nat, r: nat): seq<bool>
    requires WellFormed(file, numColumns) && Tested(ids, numColumns) && g < |file| && r < file[g].rows
  {
    seq(|ids|, k requires 0 <= k < |ids| => file[g].columns[ids[k]][r])
  }

  /** Every row number below the row count is a row of one row group. */
  lemma {:induction false} GroupOfRow(file: seq<RowGroup>, h: nat, i: nat) returns (g: nat, r: nat)
    requires h <= |file| && i < RowsIn(file, h)
    ensures g < h && r < file[g].rows && i == RowsIn(file, g) + r
  {
    if i >= RowsIn(file, h - 1) {
      g, r := h - 1, i - RowsIn(file, h - 1);
    } else {
      g, r := GroupOfRow(file, h - 1, i);
    }
  }

  /** The rows below m that satisfy the predicate, in ascending order. */
  ghost function ValidRows(file: seq<RowGroup>, numColumns: nat, ids: seq<nat>, isValid: seq<bool> -> bool,
                           m: nat): seq<nat>
    requires WellFormed(file, numColumns) && Tested(ids, numColumns) && m <= RowsIn(file, |file|)
  {
    if m == 0 then []
    else if isValid(StateOf(file, numColumns, ids, m - 1)) then
      ValidRows(file, numColumns, ids, isValid, m - 1) + [m - 1]
    else ValidRows(file, numColumns, ids, isValid, m - 1)
  }

  ghost predicate Ascending(rows: seq<nat>) {
    forall a, b :: 0 <= a < b < |rows| ==> rows[a] < rows[b]
  }

  /** ValidRows names exactly the satisfying rows, each once, ascending. */
  lemma {:induction false} ValidRowsExact(file: seq<RowGroup>, numColumns: nat, ids: seq<nat>,
                                          isValid: seq<bool> -> bool, m: nat)
    requires WellFormed(file, numColumns) && Tested(ids, numColumns) && m <= RowsIn(file, |file|)
    ensures forall i: nat :: i in ValidRows(file, numColumns, ids, isValid, m) <==>
      i < m && isValid(StateOf(file, numColumns, ids, i))
    ensures Ascending(ValidRows(file, numColumns, ids, isValid, m))
  {
    if m > 0 {
      ValidRowsExact(file, numColumns, ids, isValid, m - 1);
      var rows := ValidRows(file, numColumns, ids, isValid, m - 1);
      assert forall i: nat :: i in rows + [m - 1] <==> i in rows || i == m - 1;
      forall a | 0 <= a < |rows| ensures rows[a] < m - 1 {
        assert rows[a] in rows;
      }
    }
  }

  /** Row r of row group g is named iff its labels satisfy the predicate. */
  ghost predicate RightAt(file: seq<RowGroup>, numColumns: nat, ids: seq<nat>, isValid: seq<bool> -> bool,
                          rows: seq<nat>, g: nat, r: nat)
    requires WellFormed(file, numColumns) && Tested(ids, numColumns) && g < |file| && r < file[g].rows
  {
    RowsIn(file, g) + r in rows <==> isValid(Labels(file, numColumns, ids, g, r))
  }

  /** rows names exactly the rows of the file whose labels satisfy the predicate, each once, ascending. */
  ghost predicate Selects(file: seq<RowGroup>, numColumns: nat, ids: seq<nat>, isValid: seq<bool> -> bool,
                          rows: seq<nat>)
    requires WellFormed(file, numColumns) && Tested(ids, numColumns)
  {
    && Ascending(rows)
    && (forall i :: i in rows ==> i < RowsIn(file, |file|))
    && (forall g: nat, r: nat :: g < |file| && r < file[g].rows ==>
         RightAt(file, numColumns, ids, isValid, rows, g, r))
  }

  lemma ValidRowsSelect(file: seq<RowGroup>, numColumns: nat, ids: seq<nat>, isValid: seq<bool> -> bool)
    requires WellFormed(file, numColumns) && Tested(ids, numColumns)
    ensures Selects(file, numColumns, ids, isValid, ValidRows(file, numColumns, ids, isValid, RowsIn(file, |file|)))
  {
    hide ValidRows, RowsIn, RightAt;
    ValidRowsExact(file, numColumns, ids, isValid, RowsIn(file, |file|));
    forall g: nat, r: nat | g < |file| && r < file[g].rows
      ensures RightAt(file, numColumns, ids, isValid, ValidRows(file, numColumns, ids, isValid, RowsIn(file, |file|)),
                      g, r)
    {
      RowIsRight(file, numColumns, ids, isValid, g, r);
    }
  }

  lemma RowIsRight(file: seq<RowGroup>, numColumns: nat, ids: seq<nat>, isValid: seq<bool> -> bool, g: nat, r: nat)
    requires WellFormed(file, numColumns) && Tested(ids, numColumns) && g < |file| && r < file[g].rows
    ensures RightAt(file, numColumns, ids, isValid, ValidRows(file, numColumns, ids, isValid, RowsIn(file, |file|)),
                    g, r)
  {
    hide ValidRows, StateOf, Labels, RowsIn;
    ValidRowsExact(file, numColumns, ids, isValid, RowsIn(file, |file|));
    StateIsLabels(file, numColumns, ids, g, r);
  }

  lemma StateIsLabels(file: seq<RowGroup>, numColumns: nat, ids: seq<nat>, g: nat, r: nat)
    requires WellFormed(file, numColumns) && Tested(ids, numColumns) && g < |file| && r < file[g].rows
    ensures RowsIn(file, g) + r < RowsIn(file, |file|)
    ensures StateOf(file, numColumns, ids, RowsIn(file, g) + r) == Labels(file, numColumns, ids, g, r)
  {
    RowsInMonotone(file, g + 1, |file|);
    forall k: nat | k < |ids|
      ensures StateOf(file, numColumns, ids, RowsIn(file, g) + r)[k] == file[g].columns[ids[k]][r]
    {
      StateAt(file, numColumns, ids, g, r, k);
    }
  }

  /** Only one list of rows does. */
  lemma SelectsUnique(file: seq<RowGroup>, numColumns: nat, ids: seq<nat>, isValid: seq<bool> -> bool,
                      a: seq<nat>, b: seq<nat>)
    requires WellFormed(file, numColumns) && Tested(ids, numColumns)
    requires Selects(file, numColumns, ids, isValid, a) && Selects(file, numColumns, ids, isValid, b)
    ensures a == b
  {
    forall i: nat ensures i in a <==> i in b {
      if i < RowsIn(file, |file|) {
        var g, r := GroupOfRow(file, |file|, i);
        assert RightAt(file, numColumns, ids, isValid, a, g, r) && RightAt(file, numColumns, ids, isValid, b, g, r);
      }
    }
    AscendingUnique(a, b);
  }

  ghost predicate SameRows(a: seq<nat>, b: seq<nat>) {
    forall i: nat :: i in a <==> i in b
  }

  lemma {:induction false} AscendingUnique(a: seq<nat>, b: seq<nat>)
    requires Ascending(a) && Ascending(b) && SameRows(a, b)
    ensures a == b
    decreases |a|
  {
    hide Ascending;
    SomeRow(b);
    if a != [] {
      assert a[0] in b;
      SameLast(a, b);
      AscendingUnique(a[..|a| - 1], b[..|b| - 1]);
      assert a == a[..|a| - 1] + [a[|a| - 1]] && b == b[..|b| - 1] + [b[|b| - 1]];
    }
  }

  lemma SameLast(a: seq<nat>, b: seq<nat>)
    requires Ascending(a) && Ascending(b) && a != [] && b != [] && SameRows(a, b)
    ensures a[|a| - 1] == b[|b| - 1]
    ensures Ascending(a[..|a| - 1]) && Ascending(b[..|b| - 1])
    ensures SameRows(a[..|a| - 1], b[..|b| - 1])
  {
    LastIsLargest(a);
    LastIsLargest(b);
    assert a[|a| - 1] in b && b[|b| - 1] in a;
    var init, init' := a[..|a| - 1], b[..|b| - 1];
    forall i: nat ensures i in init <==> i in init' {
      assert i in a <==> i in b;
    }
  }

  lemma SomeRow(rows: seq<nat>)
    ensures rows != [] ==> exists i: nat :: i in rows
  {
    if rows != [] {
      assert rows[0] in rows;
    }
  }

  /** The last row is the largest, and the others are the rows below it. */
  lemma LastIsLargest(a: seq<nat>)
    requires Ascending(a) && a != []
    ensures forall i: nat :: i in a ==> i <= a[|a| - 1]
    ensures forall i: nat :: i in a[..|a| - 1] <==> i in a && i != a[|a| - 1]
  {
    var init := a[..|a| - 1];
    forall i: nat ensures i in init <==> i in a && i != a[|a| - 1] {
      if i in a && i != a[|a| - 1] {
        var k :| 0 <= k < |a| && a[k] == i;
        assert init[k] == i;
      }
    }
  }

  ghost function Shifted(rows: seq<nat>, offset: nat): (r: seq<nat>)
    ensures |r| == |rows| && forall k :: 0 <= k < |rows| ==> r[k] == rows[k] + offset
  {
    seq(|rows|, k requires 0 <= k < |rows| => rows[k] + offset)
  }

  // ----- the bitmap -----

  ghost predicate BitOf(word: bv64, j: bv6) {
    word & (1 << j) != 0
  }

  lemma AndOverOr(w: bv64, m: bv64, n: bv64)
    ensures (w | m) & n == (w & n) | (m & n)
  {
  }

  lemma SingleBits(i: bv6, j: bv6)
    ensures (1 as bv64) << i != 0
    ensures i != j ==> ((1 as bv64) << i) & ((1 as bv64) << j) == 0
  {
  }

  lemma OrWith(a: bv64, b: bv64)
    ensures a | 0 == a && a & a == a
    ensures b != 0 ==> a | b != 0
  {
  }

  lemma SetBitInWord(word: bv64, i: bv6, j: bv6)
    ensures BitOf(word | (1 << i), j) <==> i == j || BitOf(word, j)
  {
    AndOverOr(word, 1 << i, 1 << j);
    SingleBits(i, j);
    OrWith(word & (1 << j), (1 << i) & (1 << j));
    OrWith(1 << i, 0);
  }

  /** index & 63. */
  function BitIndex(index: nat): (j: bv6)
    ensures j as nat == index % 64
  {
    var place: nat := index % 64;
    assert place < 64;
    place as bv6
  }

  /** Bit i of a bitmap of 64-bit words. */
  ghost predicate Bit(words: seq<bv64>, i: nat)
    requires i < 64 * |words|
  {
    BitOf(words[i / 64], BitIndex(i))
  }

  lemma SetBitInWords(words: seq<bv64>, index: nat, i: nat)
    requires index < 64 * |words| && i < 64 * |words|
    ensures var w := words[index / 64] | (1 << BitIndex(index));
      Bit(words[index / 64 := w], i) <==> i == index || Bit(words, i)
  {
    SetBitInWord(words[index / 64], BitIndex(index), BitIndex(i));
  }

  method SetBitmap(bitmap: array<bv64>, index: nat)
    requires index < 64 * bitmap.Length
    modifies bitmap
    ensures forall i: nat :: i < 64 * bitmap.Length ==> (Bit(bitmap[..], i) <==> i == index || old(Bit(bitmap[..], i)))
  {
    ghost var words := bitmap[..];
    bitmap[index / 64] := bitmap[index / 64] | (1 << BitIndex(index));
    assert bitmap[..] == words[index / 64 := words[index / 64] | (1 << BitIndex(index))];
    forall i: nat | i < 64 * bitmap.Length
      ensures Bit(bitmap[..], i) <==> i == index || Bit(words, i)
    {
      SetBitInWords(words, index, i);
    }
  }

  // ----- the whole function -----

  /** The inner loop (lines 93-95): the states of the tested labels in row i. */
  method LoadState(ghost file: seq<RowGroup>, ghost numColumns: nat, ghost ids: seq<nat>, testedLabelNum: nat,
                   value: array2<bool>, state: array<bool>, i: nat)
    requires WellFormed(file, numColumns) && Tested(ids, numColumns) && i < RowsIn(file, |file|)
    requires testedLabelNum == |ids| <= state.Length && |ids| <= value.Length0 && i < value.Length1
    requires forall k: nat :: k < |ids| ==> Holds(value, k, Column(file, numColumns, |file|, ids[k]))
    modifies state
    ensures state[..testedLabelNum] == StateOf(file, numColumns, ids, i)
  {
    for j := 0 to testedLabelNum
      invariant forall k: nat :: k < j ==> state[k] == StateOf(file, numColumns, ids, i)[k]
    {
      ColumnLength(file, numColumns, |file|, ids[j]);
      assert Holds(value, j, Column(file, numColumns, |file|, ids[j]));
      state[j] := value[j, i];
    }
  }

  /** The row loop (lines 88-104) over a filled buffer. */
  method FilterRows(ghost file: seq<RowGroup>, ghost numColumns: nat, rowNum: nat, ghost ids: seq<nat>,
                    testedLabelNum: nat, totLabelNum: nat, value: array2<bool>, isValid: seq<bool> -> bool, offset: nat,
                    indices: seq<nat>, bitmap: array<bv64>, queryType: QueryType)
    returns (count: nat, indices': seq<nat>)
    requires WellFormed(file, numColumns) && Tested(ids, numColumns) && RowsIn(file, |file|) == rowNum
    requires testedLabelNum == |ids| <= totLabelNum && |ids| <= value.Length0 && value.Length1 == rowNum
    requires forall k: nat :: k < |ids| ==> Holds(value, k, Column(file, numColumns, |file|, ids[k]))
    requires queryType == BITMAP ==> rowNum <= 64 * bitmap.Length
    modifies bitmap
    ensures var rows := ValidRows(file, numColumns, ids, isValid, rowNum);
      && count == |rows|
      && indices' == (if queryType == INDEX then indices + Shifted(rows, offset) else indices)
      && forall i: nat :: i < 64 * bitmap.Length ==>
           (Bit(bitmap[..], i) <==> old(Bit(bitmap[..], i)) || (queryType == BITMAP && i in rows))
  {
    var state := new bool[totLabelNum];
    count, indices' := 0, indices;
    ghost var words := bitmap[..];
    ghost var rows: seq<nat> := [];
    for i := 0 to rowNum
      invariant rows == ValidRows(file, numColumns, ids, isValid, i) && count == |rows|
      invariant indices' == if queryType == INDEX then indices + Shifted(rows, offset) else indices
      invariant queryType != BITMAP ==> bitmap[..] == words
      invariant queryType == BITMAP ==> forall b: nat :: b < 64 * bitmap.Length ==>
        (Bit(bitmap[..], b) <==> Bit(words, b) || b in rows)
    {
      LoadState(file, numColumns, ids, testedLabelNum, value, state, i);
      if isValid(state[..testedLabelNum]) {
        count := count + 1;
        assert Shifted(rows + [i], offset) == Shifted(rows, offset) + [i + offset];
        assert forall b: nat :: b in rows + [i] <==> b in rows || b == i;
        rows := rows + [i];
        if queryType == INDEX {
          indices' := indices' + [i + offset];
        } else if queryType == BITMAP {
          SetBitmap(bitmap, i);
        }
      }
    }
  }

  /**
   * read_parquet_file_and_get_valid_indices: for distinct tested labels, the count, the
   * appended indices and the set bits all describe the rows whose labels satisfy the predicate.
   */
  method GetValidIndices(file: seq<RowGroup>, numColumns: nat, rowNum: nat, totLabelNum: nat, ids: seq<nat>,
                         isValid: seq<bool> -> bool, chunkIdx: nat, chunkSize: nat,
                         indices: seq<nat>, bitmap: array<bv64>, queryType: QueryType)
    returns (count: nat, indices': seq<nat>, ghost rows: seq<nat>)
    requires WellFormed(file, numColumns) && Tested(ids, numColumns) && RowsIn(file, |file|) == rowNum
    requires |ids| <= totLabelNum
    requires queryType == BITMAP ==> rowNum <= 64 * bitmap.Length
    modifies bitmap
    ensures Selects(file, numColumns, ids, isValid, rows) && count == |rows|
    ensures indices' == if queryType == INDEX then indices + Shifted(rows, chunkIdx * chunkSize) else indices
    ensures forall i: nat :: i < 64 * bitmap.Length ==>
      (Bit(bitmap[..], i) <==> old(Bit(bitmap[..], i)) || (queryType == BITMAP && i in rows))
  {
    rows := ValidRows(file, numColumns, ids, isValid, rowNum);
    ValidRowsSelect(file, numColumns, ids, isValid);
    var value := ReadFile(file, numColumns, rowNum, ids);
    count, indices' := FilterRows(file, numColumns, rowNum, ids, |ids|, totLabelNum, value, isValid,
                                  chunkIdx * chunkSize, indices, bitmap, queryType);
  }

  /** From a clear bitmap the number of set bits is the count. */
  lemma BitsSetIsCount(words: seq<bv64>, rows: seq<nat>)
    requires Ascending(rows) && forall i: nat :: i < 64 * |words| ==> (Bit(words, i) <==> i in rows)
    requires forall i :: 0 <= i < |rows| ==> rows[i] < 64 * |words|
    ensures |set i: nat | i < 64 * |words| && Bit(words, i)| == |rows|
  {
    SetOfDistinct(rows);
    assert (set i: nat | i < 64 * |words| && Bit(words, i)) == set k | 0 <= k < |rows| :: rows[k];
  }
}
