/** A terminal row: cells, plus combining marks kept sparsely by column. */
module ScreenRow {
  import opened Common

  /** Style ids are opaque: only the default one is known. */
  datatype StyleId = DefaultStyle | Interned(id: nat)

  datatype Cell = Cell(c: char, styleId: StyleId, width: u8)

  const DEFAULT_CELL := Cell(' ', DefaultStyle, 1)

  type Marks = seq<(u16, seq<char>)>

  /** Columns are 16-bit numbers, so a row has at most this many. */
  const MAX_COLS := 0x1_0000

  datatype RowState = RowState(cells: seq<Cell>, combining: Marks)

  function MarksAt(marks: Marks, col: int): seq<char> {
    if marks == [] then [] else if marks[0].0 == col then marks[0].1 else MarksAt(marks[1..], col)
  }

  ghost predicate DistinctKeys(marks: Marks) {
    forall i, j :: 0 <= i < j < |marks| ==> marks[i].0 != marks[j].0
  }

  ghost predicate KeysBelow(marks: Marks, n: int) {
    forall i :: 0 <= i < |marks| ==> marks[i].0 < n
  }

  ghost predicate Valid(s: RowState) {
    |s.cells| <= MAX_COLS && DistinctKeys(s.combining) && KeysBelow(s.combining, |s.cells|)
  }

  /** The row as it would be with every cell carrying its own marks. */
  function Dense(s: RowState): seq<(Cell, seq<char>)> {
    seq(|s.cells|, i requires 0 <= i < |s.cells| => (s.cells[i], MarksAt(s.combining, i)))
  }

  // ----- the operations on the representation -----

  /** `retain` as the row uses it: the entries outside columns `from` to `to`, in order. */
  function Without(marks: Marks, from: int, to: int): Marks {
    if marks == [] then []
    else (if from <= marks[0].0 < to then [] else [marks[0]]) + Without(marks[1..], from, to)
  }

  function SaturatingNext(col: u16): u16 {
    if col < 0xFFFF then col + 1 else col
  }

  function ShiftUp(marks: Marks, col: int): (r: Marks)
    ensures |r| == |marks|
  {
    seq(|marks|, i requires 0 <= i < |marks| =>
      (if marks[i].0 >= col then SaturatingNext(marks[i].0) else marks[i].0, marks[i].1))
  }

  function ShiftDown(marks: Marks, col: nat): (r: Marks)
    ensures |r| == |marks|
  {
    seq(|marks|, i requires 0 <= i < |marks| => (if marks[i].0 > col then marks[i].0 - 1 else marks[i].0, marks[i].1))
  }

  function Pushed(marks: Marks, col: u16, mark: char): Marks {
    if marks == [] then [(col, [mark])]
    else if marks[0].0 == col then [(col, marks[0].1 + [mark])] + marks[1..]
    else [marks[0]] + Pushed(marks[1..], col, mark)
  }

  function Inserted(s: RowState, index: nat, cell: Cell): RowState
    requires index <= |s.cells|
  {
    RowState(s.cells[..index] + [cell] + s.cells[index..], ShiftUp(s.combining, index % 0x1_0000))
  }

  function Removed(s: RowState, index: nat): RowState
    requires index < |s.cells|
  {
    var col := index % 0x1_0000;
    RowState(s.cells[..index] + s.cells[index + 1..], ShiftDown(Without(s.combining, col, col + 1), col))
  }

  function Popped(s: RowState): RowState {
    if s.cells == [] then s
    else
      var n := |s.cells| - 1;
      RowState(s.cells[..n], Without(s.combining, n % 0x1_0000, n % 0x1_0000 + 1))
  }

  function Resized(s: RowState, newLen: nat, value: Cell): RowState {
    if newLen < |s.cells| then
      RowState(s.cells[..newLen], Without(s.combining, newLen % 0x1_0000, MAX_COLS))
    else
      s.(cells := s.cells + seq(newLen - |s.cells|, _ => value))
  }

  function BoundaryFixed(s: RowState, newCols: nat): RowState {
    if newCols == 0 || |s.cells| <= newCols then s
    else
      var last := newCols - 1;
      if s.cells[last].width == 2 then s.(cells := s.cells[last := DEFAULT_CELL])
      else if last > 0 && s.cells[last].width == 0 then
        s.(cells := s.cells[last := DEFAULT_CELL][last - 1 := DEFAULT_CELL])
      else s
  }

  lemma PushedAt(marks: Marks, i: nat, col: u16, mark: char)
    requires i < |marks|
    ensures marks[..i] + Pushed(marks[i..], col, mark) ==
            if marks[i].0 == col then marks[i := (col, marks[i].1 + [mark])]
            else marks[..i + 1] + Pushed(marks[i + 1..], col, mark)
  {
    assert marks[i..][1..] == marks[i + 1..];
    if marks[i].0 != col {
      assert marks[..i + 1] == marks[..i] + [marks[i]];
      Assoc(marks[..i], [marks[i]], Pushed(marks[i + 1..], col, mark));
    }
  }

  class Row {
    var cells: seq<Cell>
    var combining: Marks

    function State(): RowState
      reads this
    {
      RowState(cells, combining)
    }

    constructor (cols: nat)
      ensures State() == RowState(seq(cols, _ => DEFAULT_CELL), [])
    {
      cells := seq(cols, _ => DEFAULT_CELL);
      combining := [];
    }

    method Combining(col: u16) returns (marks: seq<char>)
      ensures marks == MarksAt(combining, col)
    {
      var i := 0;
      while i < |combining|
        invariant 0 <= i <= |combining|
        invariant MarksAt(combining, col) == MarksAt(combining[i..], col)
      {
        if combining[i].0 == col {
          return combining[i].1;
        }
        assert combining[i..][1..] == combining[i + 1..];
        i := i + 1;
      }
      marks := [];
    }

    method PushCombining(col: u16, mark: char)
      modifies this`combining
      ensures combining == Pushed(old(combining), col, mark)
    {
      var i := 0;
      while i < |combining|
        invariant 0 <= i <= |combining| && combining == old(combining)
        invariant Pushed(combining, col, mark) == combining[..i] + Pushed(combining[i..], col, mark)
      {
        var (c, marks) := combining[i];
        PushedAt(combining, i, col, mark);
        if c == col {
          combining := combining[i := (c, marks + [mark])];
          return;
        }
        i := i + 1;
      }
      assert combining[i..] == [] && combining[..i] == combining;
      combining := combining + [(col, [mark])];
    }

    method ClearCombining(col: u16)
      modifies this`combining
      ensures combining == Without(old(combining), col, col + 1)
    {
      combining := Without(combining, col, col + 1);
    }

    method ClearCombiningRange(from: u16, to: u16)
      modifies this`combining
      ensures combining == Without(old(combining), from, to)
    {
      combining := Without(combining, from, to);
    }

    method ClearAllCombining()
      modifies this`combining
      ensures combining == []
    {
      combining := [];
    }

    method Insert(index: nat, cell: Cell)
      requires index <= |cells|
      modifies this
      ensures State() == Inserted(old(State()), index, cell)
    {
      combining := ShiftColumnsRight(combining, index % 0x1_0000);
      cells := cells[..index] + [cell] + cells[index..];
    }

    method Remove(index: nat) returns (cell: Cell)
      requires index < |cells|
      modifies this
      ensures State() == Removed(old(State()), index) && cell == old(cells)[index]
    {
      var col := index % 0x1_0000;
      combining := Without(combining, col, col + 1);
      combining := ShiftColumnsLeft(combining, col);
      cell := cells[index];
      cells := cells[..index] + cells[index + 1..];
    }

    method Push(cell: Cell)
      modifies this
      ensures State() == RowState(old(cells) + [cell], old(combining))
    {
      cells := cells + [cell];
    }

    method Pop() returns (cell: Option<Cell>)
      modifies this
      ensures State() == Popped(old(State()))
      ensures cell == if old(cells) == [] then None else Some(old(cells)[|old(cells)| - 1])
    {
      if cells == [] {
        return None;
      }
      cell := Some(cells[|cells| - 1]);
      cells := cells[..|cells| - 1];
      var col := |cells| % 0x1_0000;
      combining := Without(combining, col, col + 1);
    }

    method Resize(newLen: nat, value: Cell)
      modifies this
      ensures State() == Resized(old(State()), newLen, value)
    {
      if newLen < |cells| {
        var limit := newLen % 0x1_0000;
        combining := Without(combining, limit, MAX_COLS);
      }
      cells := if newLen <= |cells| then cells[..newLen] else cells + seq(newLen - |cells|, _ => value);
    }

    method FixWideCharOrphanAtBoundary(newCols: nat)
      modifies this`cells
      ensures State() == BoundaryFixed(old(State()), newCols)
    {
      if newCols == 0 || |cells| <= newCols {
        return;
      }
      var last := newCols - 1;
      if cells[last].width == 2 {
        cells := cells[last := DEFAULT_CELL];
      } else if last > 0 && cells[last].width == 0 {
        cells := cells[last := DEFAULT_CELL];
        cells := cells[last - 1 := DEFAULT_CELL];
      }
    }
  }

  /** The loop of `insert`: columns from `col` on move one to the right. */
  method ShiftColumnsRight(marks: Marks, col: nat) returns (shifted: Marks)
    ensures shifted == ShiftUp(marks, col)
  {
    shifted := marks;
    var i := 0;
    while i < |shifted|
      invariant 0 <= i <= |shifted| == |marks|
      invariant forall k :: 0 <= k < i ==> shifted[k] == ShiftUp(marks, col)[k]
      invariant forall k :: i <= k < |marks| ==> shifted[k] == marks[k]
    {
      var (c, m) := shifted[i];
      if c >= col {
        shifted := shifted[i := (SaturatingNext(c), m)];
      }
      i := i + 1;
    }
  }

  /** The loop of `remove`: columns after `col` move one to the left. */
  method ShiftColumnsLeft(marks: Marks, col: nat) returns (shifted: Marks)
    ensures shifted == ShiftDown(marks, col)
  {
    shifted := marks;
    var i := 0;
    while i < |shifted|
      invariant 0 <= i <= |shifted| == |marks|
      invariant forall k :: 0 <= k < i ==> shifted[k] == ShiftDown(marks, col)[k]
      invariant forall k :: i <= k < |marks| ==> shifted[k] == marks[k]
    {
      var (c, m) := shifted[i];
      if c > col {
        shifted := shifted[i := (c - 1, m)];
      }
      i := i + 1;
    }
  }

  // ----- the sparse row refines the dense one -----

  lemma {:induction false} WithoutMarks(marks: Marks, from: int, to: int, col: int)
    ensures MarksAt(Without(marks, from, to), col) == if from <= col < to then [] else MarksAt(marks, col)
  {
    if marks != [] {
      WithoutMarks(marks[1..], from, to, col);
      if !(from <= marks[0].0 < to) {
        assert Without(marks, from, to)[1..] == Without(marks[1..], from, to);
      } else {
        assert Without(marks, from, to) == Without(marks[1..], from, to);
      }
    }
  }

  /** The entries left are those whose column is outside the range. */
  lemma {:induction false} WithoutEntries(marks: Marks, from: int, to: int)
    ensures forall e :: e in Without(marks, from, to) <==> e in marks && !(from <= e.0 < to)
    ensures DistinctKeys(marks) ==> DistinctKeys(Without(marks, from, to))
  {
    if marks != [] {
      var rest := Without(marks[1..], from, to);
      WithoutEntries(marks[1..], from, to);
      assert marks == [marks[0]] + marks[1..];
      if DistinctKeys(marks) && !(from <= marks[0].0 < to) {
        assert Without(marks, from, to) == [marks[0]] + rest;
        forall j | 0 <= j < |rest| ensures rest[j].0 != marks[0].0 {
          assert rest[j] in marks[1..];
        }
      } else {
        assert Without(marks, from, to) == if from <= marks[0].0 < to then rest else [marks[0]] + rest;
      }
    }
  }

  lemma WithoutKeys(marks: Marks, from: int, to: int, n: int)
    requires DistinctKeys(marks) && KeysBelow(marks, n)
    ensures DistinctKeys(Without(marks, from, to)) && KeysBelow(Without(marks, from, to), n)
    ensures forall i :: 0 <= i < |Without(marks, from, to)| ==> !(from <= Without(marks, from, to)[i].0 < to)
  {
    var left := Without(marks, from, to);
    WithoutEntries(marks, from, to);
    forall i | 0 <= i < |left| ensures left[i].0 < n && !(from <= left[i].0 < to) {
      assert left[i] in left;
    }
  }

  lemma ShiftDownKeys(marks: Marks, col: nat, n: int)
    requires DistinctKeys(marks) && KeysBelow(marks, n) && col < n
    requires forall i :: 0 <= i < |marks| ==> marks[i].0 != col
    ensures DistinctKeys(ShiftDown(marks, col)) && KeysBelow(ShiftDown(marks, col), n - 1)
  {
  }

  lemma {:induction false} ShiftUpMarks(marks: Marks, col: int, j: int)
    requires KeysBelow(marks, 0xFFFF)
    ensures MarksAt(ShiftUp(marks, col), j) ==
            if j < col then MarksAt(marks, j) else if j == col then [] else MarksAt(marks, j - 1)
  {
    if marks != [] {
      assert ShiftUp(marks, col)[1..] == ShiftUp(marks[1..], col);
      ShiftUpMarks(marks[1..], col, j);
    }
  }

  lemma {:induction false} ShiftDownMarks(marks: Marks, col: nat, j: int)
    requires forall i :: 0 <= i < |marks| ==> marks[i].0 != col
    ensures MarksAt(ShiftDown(marks, col), j) == if j < col then MarksAt(marks, j) else MarksAt(marks, j + 1)
  {
    if marks != [] {
      assert ShiftDown(marks, col)[1..] == ShiftDown(marks[1..], col);
      ShiftDownMarks(marks[1..], col, j);
    }
  }

  lemma {:induction false} NoMarksBeyond(marks: Marks, n: int, col: int)
    requires KeysBelow(marks, n) && col >= n
    ensures MarksAt(marks, col) == []
  {
    if marks != [] {
      NoMarksBeyond(marks[1..], n, col);
    }
  }

  lemma InsertRefines(s: RowState, index: nat, cell: Cell)
    requires Valid(s) && index <= |s.cells| < MAX_COLS
    ensures Valid(Inserted(s, index, cell))
    ensures Dense(Inserted(s, index, cell)) == Dense(s)[..index] + [(cell, [])] + Dense(s)[index..]
  {
    var t := Inserted(s, index, cell);
    forall j | 0 <= j < |t.cells|
      ensures Dense(t)[j] == (Dense(s)[..index] + [(cell, [])] + Dense(s)[index..])[j]
    {
      ShiftUpMarks(s.combining, index, j);
    }
  }

  lemma RemovedIsValid(s: RowState, index: nat)
    requires Valid(s) && index < |s.cells|
    ensures Valid(Removed(s, index))
  {
    var kept := Without(s.combining, index, index + 1);
    WithoutKeys(s.combining, index, index + 1, |s.cells|);
    ShiftDownKeys(kept, index, |s.cells|);
  }

  lemma RemovedMarks(marks: Marks, col: nat, n: int, j: int)
    requires DistinctKeys(marks) && KeysBelow(marks, n)
    ensures MarksAt(ShiftDown(Without(marks, col, col + 1), col), j) == MarksAt(marks, if j < col then j else j + 1)
  {
    WithoutKeys(marks, col, col + 1, n);
    ShiftDownMarks(Without(marks, col, col + 1), col, j);
    WithoutMarks(marks, col, col + 1, if j < col then j else j + 1);
  }

  lemma RemoveRefines(s: RowState, index: nat)
    requires Valid(s) && index < |s.cells|
    ensures Valid(Removed(s, index))
    ensures Dense(Removed(s, index)) == Dense(s)[..index] + Dense(s)[index + 1..]
  {
    RemovedIsValid(s, index);
    var t := Removed(s, index);
    forall j | 0 <= j < |t.cells| ensures Dense(t)[j] == Dense(s)[if j < index then j else j + 1] {
      RemovedMarks(s.combining, index, |s.cells|, j);
    }
  }

  lemma PushRefines(s: RowState, cell: Cell)
    requires Valid(s) && |s.cells| < MAX_COLS
    ensures Valid(s.(cells := s.cells + [cell]))
    ensures Dense(s.(cells := s.cells + [cell])) == Dense(s) + [(cell, [])]
  {
    NoMarksBeyond(s.combining, |s.cells|, |s.cells|);
  }

  lemma PopRefines(s: RowState)
    requires Valid(s) && s.cells != []
    ensures Valid(Popped(s)) && Dense(Popped(s)) == Dense(s)[..|s.cells| - 1]
  {
    var n := |s.cells| - 1;
    ClearRangeRefines(s, n, n + 1);
    WithoutKeys(s.combining, n, n + 1, |s.cells|);
  }

  /** Clearing a range of columns blanks exactly those columns' marks. */
  lemma ClearRangeRefines(s: RowState, from: int, to: int)
    requires Valid(s)
    ensures var t := s.(combining := Without(s.combining, from, to));
            && Valid(t)
            && (forall i :: 0 <= i < |s.cells| ==>
                  Dense(t)[i] == (s.cells[i], if from <= i < to then [] else Dense(s)[i].1))
  {
    WithoutKeys(s.combining, from, to, |s.cells|);
    forall i | 0 <= i < |s.cells|
      ensures MarksAt(Without(s.combining, from, to), i) == if from <= i < to then [] else MarksAt(s.combining, i)
    {
      WithoutMarks(s.combining, from, to, i);
    }
  }

  lemma ResizeRefines(s: RowState, newLen: nat, value: Cell)
    requires Valid(s) && newLen <= MAX_COLS
    ensures Valid(Resized(s, newLen, value))
    ensures Dense(Resized(s, newLen, value)) ==
            if newLen < |s.cells| then Dense(s)[..newLen]
            else Dense(s) + seq(newLen - |s.cells|, _ => (value, []))
  {
    if newLen < |s.cells| {
      ClearRangeRefines(s, newLen, MAX_COLS);
      WithoutKeys(s.combining, newLen, MAX_COLS, |s.cells|);
    } else {
      forall j | |s.cells| <= j < newLen ensures MarksAt(s.combining, j) == [] {
        NoMarksBeyond(s.combining, |s.cells|, j);
      }
    }
  }

  lemma {:induction false} PushedMarks(marks: Marks, col: u16, mark: char, j: int)
    ensures MarksAt(Pushed(marks, col, mark), j) == MarksAt(marks, j) + if j == col then [mark] else []
  {
    if marks == [] {
      assert [(col, [mark])][1..] == [];
    } else if marks[0].0 == col {
      assert Pushed(marks, col, mark)[1..] == marks[1..];
    } else {
      assert Pushed(marks, col, mark)[1..] == Pushed(marks[1..], col, mark);
      PushedMarks(marks[1..], col, mark, j);
    }
  }

  /** Pushing updates the column's one entry in place, or adds an entry at the end. */
  lemma {:induction false} PushedShape(marks: Marks, col: u16, mark: char) returns (k: nat)
    ensures k <= |marks| && forall i :: 0 <= i < k ==> marks[i].0 != col
    ensures if k < |marks| then marks[k].0 == col && Pushed(marks, col, mark) == marks[k := (col, marks[k].1 + [mark])]
            else Pushed(marks, col, mark) == marks + [(col, [mark])]
  {
    if marks == [] || marks[0].0 == col {
      k := 0;
    } else {
      var j := PushedShape(marks[1..], col, mark);
      k := j + 1;
    }
  }

  /** Pushing a mark adds it to its own column only; the row stays valid exactly when that column exists. */
  lemma PushCombiningRefines(s: RowState, col: u16, mark: char)
    requires Valid(s)
    ensures var t := s.(combining := Pushed(s.combining, col, mark));
            && (Valid(t) <==> col < |s.cells|)
            && (forall i :: 0 <= i < |s.cells| ==>
                  Dense(t)[i] == (s.cells[i], Dense(s)[i].1 + if i == col then [mark] else []))
  {
    var t := s.(combining := Pushed(s.combining, col, mark));
    var k := PushedShape(s.combining, col, mark);
    assert k < |t.combining| && t.combining[k].0 == col;
    forall i | 0 <= i < |s.cells|
      ensures MarksAt(t.combining, i) == MarksAt(s.combining, i) + if i == col then [mark] else []
    {
      PushedMarks(s.combining, col, mark, i);
    }
  }

  /** Removing a cell just inserted gives back the very same representation. */
  lemma RemoveUndoesInsert(s: RowState, index: nat, cell: Cell)
    requires Valid(s) && index <= |s.cells| < MAX_COLS
    ensures Removed(Inserted(s, index, cell), index) == s
  {
    var t := Inserted(s, index, cell);
    assert t.cells[..index] + t.cells[index + 1..] == s.cells;
    ShiftDownUndoesUp(s.combining, index);
  }

  lemma {:induction false} WithoutNothing(marks: Marks, col: int)
    requires forall i :: 0 <= i < |marks| ==> marks[i].0 != col
    ensures Without(marks, col, col + 1) == marks
  {
    if marks != [] {
      WithoutNothing(marks[1..], col);
    }
  }

  lemma ShiftDownUndoesUp(marks: Marks, col: nat)
    requires KeysBelow(marks, 0xFFFF)
    ensures ShiftDown(Without(ShiftUp(marks, col), col, col + 1), col) == marks
  {
    WithoutNothing(ShiftUp(marks, col), col);
  }

  // ----- wide characters at a boundary -----

  /** Every wide cell is followed by its continuation, and every continuation follows a wide cell. */
  ghost predicate Paired(cells: seq<Cell>) {
    && (forall i :: 0 <= i < |cells| && cells[i].width == 2 ==> i + 1 < |cells| && cells[i + 1].width == 0)
    && (forall i :: 0 <= i < |cells| && cells[i].width == 0 ==> i > 0 && cells[i - 1].width == 2)
  }

  /** Truncating alone keeps the pairing exactly when the boundary does not cut a wide character in two. */
  lemma TruncationKeepsPairsExactly(cells: seq<Cell>, n: nat)
    requires Paired(cells) && n <= |cells|
    ensures Paired(cells[..n]) <==> (n > 0 && n < |cells| ==> cells[n - 1].width != 2)
  {
    var t := cells[..n];
    assert forall i :: 0 <= i < n ==> t[i] == cells[i];
  }

  /** Fixing the boundary first keeps it always, touching nothing left of the last two columns. */
  lemma BoundaryFixKeepsPairs(s: RowState, newCols: nat, value: Cell)
    requires Paired(s.cells) && newCols <= |s.cells|
    ensures Paired(Resized(BoundaryFixed(s, newCols), newCols, value).cells)
    ensures BoundaryFixed(s, newCols).combining == s.combining
    ensures forall i :: 0 <= i < newCols - 2 ==> BoundaryFixed(s, newCols).cells[i] == s.cells[i]
    ensures newCols < |s.cells| && newCols > 0 && s.cells[newCols - 1].width == 1 ==> BoundaryFixed(s, newCols) == s
  {
    var t := BoundaryFixed(s, newCols);
    var left := Resized(t, newCols, value).cells;
    assert left == t.cells[..newCols];
    forall i | 0 <= i < newCols && left[i].width == 2 ensures i + 1 < newCols && left[i + 1].width == 0 {
      assert left[i] == t.cells[i] == s.cells[i] && s.cells[i + 1].width == 0;
    }
    forall i | 0 <= i < newCols && left[i].width == 0 ensures i > 0 && left[i - 1].width == 2 {
      assert left[i] == t.cells[i] == s.cells[i] && s.cells[i - 1].width == 2;
    }
  }

  /**
    * The fix blanks a wide character whole although truncating alone would have kept it, if and only if the
    * last column kept is its continuation.
    */
  lemma FixIsNeedlessExactly(s: RowState, newCols: nat)
    requires Paired(s.cells) && 0 < newCols < |s.cells|
    ensures Paired(s.cells[..newCols]) && BoundaryFixed(s, newCols) != s <==> s.cells[newCols - 1].width == 0
    ensures s.cells[newCols - 1].width == 0 ==>
              && newCols >= 2 && s.cells[newCols - 2].width == 2
              && BoundaryFixed(s, newCols).cells[..newCols] == s.cells[..newCols - 2] + [DEFAULT_CELL, DEFAULT_CELL]
  {
    TruncationKeepsPairsExactly(s.cells, newCols);
    var last := newCols - 1;
    if s.cells[last].width == 0 {
      assert BoundaryFixed(s, newCols).cells[last] == DEFAULT_CELL;
      assert s.cells[..newCols] == s.cells[..last - 1] + [s.cells[last - 1], s.cells[last]];
    }
  }

  /**
    * Cell by cell, for a row longer than the boundary: a wide cell in the last column kept becomes a blank, a
    * continuation there becomes one together with the cell before it, and no other cell changes.
    */
  lemma BoundaryFixCells(s: RowState, newCols: nat)
    requires 0 < newCols < |s.cells|
    ensures var last, t := newCols - 1, BoundaryFixed(s, newCols);
            && |t.cells| == |s.cells|
            && (forall i :: 0 <= i < |s.cells| && i != last && i != last - 1 ==> t.cells[i] == s.cells[i])
            && (s.cells[last].width in {0, 2} && (s.cells[last].width == 0 ==> last > 0) ==>
                  t.cells[last] == Cell(' ', DefaultStyle, 1))
            && (s.cells[last].width !in {0, 2} || (s.cells[last].width == 0 && last == 0) ==>
                  t.cells[last] == s.cells[last])
            && (last > 0 ==>
                  t.cells[last - 1] == if s.cells[last].width == 0 then Cell(' ', DefaultStyle, 1) else s.cells[last - 1])
  {
  }

  /** A row no longer than the boundary is left alone, and so is any row at boundary 0. */
  lemma ShortRowIsLeftAlone(s: RowState, newCols: nat)
    requires newCols == 0 || |s.cells| <= newCols
    ensures BoundaryFixed(s, newCols) == s
  {
  }

  /** A narrow cell before a wide one that the boundary cuts is kept. */
  lemma NarrowBeforeCutIsKept(narrow: Cell, wide: Cell, continuation: Cell)
    requires narrow.width == 1 && wide.width == 2 && continuation.width == 0
    ensures BoundaryFixed(RowState([narrow, wide, continuation], []), 2).cells ==
            [narrow, Cell(' ', DefaultStyle, 1), continuation]
  {
    BoundaryFixCells(RowState([narrow, wide, continuation], []), 2);
  }
}
