/** Row hashing and dirty-row computation of the snapshot extractor. */
module SnapshotExtractors {
  import opened Common
  import opened TerminalSnapshots

  type RowHash = Row -> u64

  datatype ExtractorState = ExtractorState(rowHashes: seq<u64>, size: Option<(u16, u16)>)

  const FRESH_EXTRACTOR := ExtractorState([], None)

  function HashRows(hash: RowHash, rows: seq<Row>): seq<u64> {
    seq(|rows|, i requires 0 <= i < |rows| => hash(rows[i]))
  }

  /** The rows that the extractor reports: all of them after a resize, otherwise those whose hash moved. */
  function ChangedRows(hash: RowHash, st: ExtractorState, grid: Grid): set<int> {
    set r | 0 <= r < |grid.rowsData| &&
      (|| st.size != Some((grid.cols, grid.rows))
       || r >= |st.rowHashes|
       || st.rowHashes[r] != hash(grid.rowsData[r]))
  }

  function Extracted(hash: RowHash, st: ExtractorState, sessionId: string, grid: Grid): (s: Snapshot)
    requires grid.Valid()
    ensures s.Valid() && s.sessionId == sessionId && s.Picture() == grid
    ensures NormalDamage(s)
    ensures forall r :: r in s.damage.rows <==> r in ChangedRows(hash, st, grid)
  {
    var dirty := RowsBelow(|grid.rowsData|, ChangedRows(hash, st, grid));
    CellCountFits(|dirty|, grid.cols);
    CountTellsAllListed(|grid.rowsData|, ChangedRows(hash, st, grid));
    var cells := |dirty| * grid.cols;
    Snapshot(sessionId, grid.cols, grid.rows, grid.defaultFg, grid.defaultBg,
             Damage(|dirty| == grid.rows, dirty, cells), grid.rowsData, |dirty|, cells)
  }

  function AfterExtract(hash: RowHash, grid: Grid): ExtractorState {
    ExtractorState(HashRows(hash, grid.rowsData), Some((grid.cols, grid.rows)))
  }

  // ----- reading the emulator's cells -----

  datatype CellWide = Narrow | Wide | SpacerTail | SpacerHead

  datatype Underline = NotUnderlined | Underlined(style: nat)

  /** A cell as the emulator hands it out: its graphemes' characters, width class, colours and style. */
  datatype VtCell = VtCell(
    graphemes: string, wide: CellWide, fg: Option<Rgb>, bg: Option<Rgb>,
    bold: bool, italic: bool, faint: bool, blink: bool, underline: Underline,
    inverse: bool, invisible: bool, strikethrough: bool, overline: bool)

  datatype VtGrid = VtGrid(cols: u16, rows: u16, defaultFg: Rgb, defaultBg: Rgb, rowsData: seq<seq<VtCell>>) {
    predicate Valid() { |rowsData| == rows }
  }

  function CellWidth(wide: CellWide): u8 {
    match wide
    case Narrow => 1
    case Wide => 2
    case SpacerTail => 0
    case SpacerHead => 0
  }

  function CellOf(c: VtCell): Cell {
    Cell(c.graphemes, CellWidth(c.wide), c.fg, c.bg, c.bold, c.italic, c.faint, c.blink, c.underline.Underlined?,
         c.inverse, c.invisible, c.strikethrough, c.overline)
  }

  function RowOf(cells: seq<VtCell>): Row {
    seq(|cells|, i requires 0 <= i < |cells| => CellOf(cells[i]))
  }

  function GridOf(vt: VtGrid): Grid {
    Grid(vt.cols, vt.rows, vt.defaultFg, vt.defaultBg,
         seq(|vt.rowsData|, r requires 0 <= r < |vt.rowsData| => RowOf(vt.rowsData[r])))
  }

  /** The inner loop: one row, cell by cell. */
  method ReadRow(vtCells: seq<VtCell>) returns (cells: Row)
    ensures cells == RowOf(vtCells)
  {
    cells := [];
    var i := 0;
    while i < |vtCells|
      invariant 0 <= i <= |vtCells|
      invariant cells == RowOf(vtCells[..i])
    {
      var cell := vtCells[i];
      var width := match cell.wide
        case Narrow => 1
        case Wide => 2
        case _ => 0;
      cells := cells + [Cell(cell.graphemes, width, cell.fg, cell.bg, cell.bold, cell.italic, cell.faint, cell.blink,
                             cell.underline != NotUnderlined, cell.inverse, cell.invisible, cell.strikethrough,
                             cell.overline)];
      i := i + 1;
    }
    assert vtCells[..i] == vtCells;
  }

  lemma HashRowsSnoc(hash: RowHash, rows: seq<Row>, i: nat)
    requires i < |rows|
    ensures rows[..i + 1] == rows[..i] + [rows[i]]
    ensures HashRows(hash, rows[..i + 1]) == HashRows(hash, rows[..i]) + [hash(rows[i])]
  {
  }

  class SnapshotExtractor {
    const hash: RowHash
    var previousRowHashes: seq<u64>
    var previousSize: Option<(u16, u16)>

    function State(): ExtractorState
      reads this
    {
      ExtractorState(previousRowHashes, previousSize)
    }

    constructor (hash: RowHash)
      ensures this.hash == hash && State() == FRESH_EXTRACTOR
    {
      this.hash := hash;
      previousRowHashes := [];
      previousSize := None;
    }

    method Snapshot(sessionId: string, vt: VtGrid) returns (s: Snapshot)
      requires vt.Valid()
      modifies this
      ensures s == Extracted(hash, old(State()), sessionId, GridOf(vt))
      ensures State() == AfterExtract(hash, GridOf(vt))
    {
      var sizeChanged := previousSize != Some((vt.cols, vt.rows));
      var rowsData: seq<Row> := [];
      var dirtyRows: seq<u16> := [];
      var rowHashes: seq<u64> := [];
      var rowIndex := 0;
      ghost var grid := GridOf(vt);
      ghost var changed := ChangedRows(hash, State(), grid);
      while rowIndex < |vt.rowsData|
        invariant 0 <= rowIndex <= |vt.rowsData|
        invariant rowsData == grid.rowsData[..rowIndex]
        invariant rowHashes == HashRows(hash, grid.rowsData[..rowIndex])
        invariant dirtyRows == RowsBelow(rowIndex, changed)
        invariant State() == old(State())
      {
        var cells := ReadRow(vt.rowsData[rowIndex]);
        assert cells == grid.rowsData[rowIndex];
        HashRowsSnoc(hash, grid.rowsData, rowIndex);
        var rowHash := hash(cells);
        var rowChanged := sizeChanged || rowIndex >= |previousRowHashes| || previousRowHashes[rowIndex] != rowHash;
        if rowChanged {
          dirtyRows := dirtyRows + [rowIndex];
        }
        rowHashes := rowHashes + [rowHash];
        rowsData := rowsData + [cells];
        rowIndex := rowIndex + 1;
      }
      assert grid.rowsData[..|grid.rowsData|] == grid.rowsData;
      var dirtyCells := Min(|dirtyRows| * vt.cols, 0xFFFF_FFFF);
      CellCountFits(|dirtyRows|, vt.cols);
      var fullDamage := |dirtyRows| == vt.rows;
      previousRowHashes := rowHashes;
      previousSize := Some((vt.cols, vt.rows));
      s := TerminalSnapshots.Snapshot(sessionId, vt.cols, vt.rows, vt.defaultFg, vt.defaultBg,
                    Damage(fullDamage, dirtyRows, dirtyCells), rowsData, |dirtyRows|, dirtyCells);
    }
  }

  /** No row of `next` differs from the row it replaces while sharing its hash. */
  ghost predicate HashSeparates(hash: RowHash, previous: seq<Row>, next: seq<Row>) {
    forall r :: 0 <= r < |previous| && r < |next| && hash(previous[r]) == hash(next[r]) ==> previous[r] == next[r]
  }

  /** Damage covers the change exactly when no changed row kept its hash; after a resize it always does. */
  lemma ExtractCoversExactly(hash: RowHash, previous: Snapshot, grid: Grid)
    requires previous.Valid() && grid.Valid()
    ensures var s := Extracted(hash, AfterExtract(hash, previous.Picture()), previous.sessionId, grid);
            Covers(Some(previous), s) <==>
            (previous.cols != grid.cols || previous.rows != grid.rows || HashSeparates(hash, previous.rowsData, grid.rowsData))
  {
    var st := AfterExtract(hash, previous.Picture());
    var s := Extracted(hash, st, previous.sessionId, grid);
    if previous.cols == grid.cols && previous.rows == grid.rows {
      assert forall r :: 0 <= r < |grid.rowsData| ==> st.rowHashes[r] == hash(previous.rowsData[r]);
      if HashSeparates(hash, previous.rowsData, grid.rowsData) {
      } else {
        var r :| 0 <= r < |grid.rowsData| && hash(previous.rowsData[r]) == hash(grid.rowsData[r]) &&
                 previous.rowsData[r] != grid.rowsData[r];
        assert r !in s.damage.rows;
      }
    } else {
      forall r | 0 <= r < s.rows ensures r in s.damage.rows {
        assert r in ChangedRows(hash, st, grid);
      }
    }
  }

  /** A new extractor reports every row, whatever was shown before. */
  lemma FirstSnapshotIsFull(hash: RowHash, sessionId: string, grid: Grid)
    requires grid.Valid()
    ensures Extracted(hash, FRESH_EXTRACTOR, sessionId, grid).damage.full
  {
    var s := Extracted(hash, FRESH_EXTRACTOR, sessionId, grid);
    forall r | 0 <= r < s.rows ensures r in s.damage.rows {
      assert r in ChangedRows(hash, FRESH_EXTRACTOR, grid);
    }
  }

  /** Every cell of a snapshot has the characters, colours and style that the emulator shows there. */
  lemma CellsAreRead(hash: RowHash, st: ExtractorState, sessionId: string, vt: VtGrid, r: nat, c: nat)
    requires vt.Valid() && r < vt.rows && c < |vt.rowsData[r]|
    ensures var s := Extracted(hash, st, sessionId, GridOf(vt));
            && s.cols == vt.cols && s.rows == vt.rows && s.defaultFg == vt.defaultFg && s.defaultBg == vt.defaultBg
            && |s.rowsData| == |vt.rowsData| && |s.rowsData[r]| == |vt.rowsData[r]|
            && IsReadFrom(s.rowsData[r][c], vt.rowsData[r][c])
  {
    assert GridOf(vt).rowsData[r] == RowOf(vt.rowsData[r]);
  }

  /** A wide character's first cell is two columns wide, its spacers none, and any other cell one. */
  predicate IsReadFrom(cell: Cell, vt: VtCell) {
    && cell.text == vt.graphemes
    && (cell.width == 2 <==> vt.wide == Wide) && (cell.width == 1 <==> vt.wide == Narrow)
    && (cell.width == 0 <==> vt.wide == SpacerTail || vt.wide == SpacerHead)
    && cell.fg == vt.fg && cell.bg == vt.bg
    && (cell.bold <==> vt.bold) && (cell.italic <==> vt.italic) && (cell.faint <==> vt.faint)
    && (cell.blink <==> vt.blink) && (cell.underline <==> vt.underline != NotUnderlined)
    && (cell.inverse <==> vt.inverse) && (cell.invisible <==> vt.invisible)
    && (cell.strikethrough <==> vt.strikethrough) && (cell.overline <==> vt.overline)
  }
}
