/** The grid snapshots that the terminal runtime sends to the app, and their damage. */
module TerminalSnapshots {
  import opened Common

  datatype Rgb = Rgb(r: u8, g: u8, b: u8)

  datatype Cell = Cell(
    text: string, width: u8, fg: Option<Rgb>, bg: Option<Rgb>,
    bold: bool, italic: bool, faint: bool, blink: bool, underline: bool,
    inverse: bool, invisible: bool, strikethrough: bool, overline: bool)

  type Row = seq<Cell>

  /** What the VT emulator shows at one moment: an arbitrary grid of `rows` rows. */
  datatype Grid = Grid(cols: u16, rows: u16, defaultFg: Rgb, defaultBg: Rgb, rowsData: seq<Row>) {
    predicate Valid() { |rowsData| == rows }
  }

  datatype Damage = Damage(full: bool, rows: seq<u16>, cells: u32)

  datatype Snapshot = Snapshot(
    sessionId: string, cols: u16, rows: u16, defaultFg: Rgb, defaultBg: Rgb,
    damage: Damage, rowsData: seq<Row>, dirtyRows: u32, dirtyCells: u32)
  {
    predicate Valid() { |rowsData| == rows }

    function Picture(): Grid { Grid(cols, rows, defaultFg, defaultBg, rowsData) }
  }

  predicate StrictlyIncreasing(rows: seq<u16>) {
    forall i, j :: 0 <= i < j < |rows| ==> rows[i] < rows[j]
  }

  /** The members of `marked` below `n`, in ascending order. */
  function RowsBelow(n: nat, marked: set<int>): (rows: seq<u16>)
    requires n <= 0x1_0000
    ensures StrictlyIncreasing(rows)
    ensures forall r :: r in rows <==> 0 <= r < n && r in marked
    ensures |rows| <= n
  {
    if n == 0 then []
    else
      var init := RowsBelow(n - 1, marked);
      assert forall i :: 0 <= i < |init| ==> init[i] in init;
      if n - 1 in marked then init + [n - 1] else init
  }

  /** The full flag is set exactly when every row is listed. */
  predicate FullWhenAllListed(s: Snapshot) {
    s.damage.full <==> forall r :: 0 <= r < s.rows ==> r in s.damage.rows
  }

  /** Damage as the extractor and the coalescer leave it. */
  predicate NormalDamage(s: Snapshot) {
    && StrictlyIncreasing(s.damage.rows)
    && (forall r :: r in s.damage.rows ==> r < s.rows)
    && FullWhenAllListed(s)
    && s.damage.cells == |s.damage.rows| * s.cols
    && s.dirtyRows == |s.damage.rows|
    && s.dirtyCells == s.damage.cells
  }

  /** Counting the listed rows, as the source does, tells whether all of them are listed. */
  lemma {:induction false} CountTellsAllListed(n: nat, marked: set<int>)
    requires n <= 0x1_0000
    ensures |RowsBelow(n, marked)| == n <==> forall r :: 0 <= r < n ==> r in marked
  {
    if n > 0 {
      CountTellsAllListed(n - 1, marked);
    }
  }

  /** `s` says, by its damage, at least what changed since `base`. */
  ghost predicate Covers(base: Option<Snapshot>, s: Snapshot) {
    s.damage.full ||
    (&& base.Some?
     && base.value.sessionId == s.sessionId
     && base.value.cols == s.cols
     && base.value.rows == s.rows
     && |base.value.rowsData| == |s.rowsData|
     && forall r :: 0 <= r < |s.rowsData| && base.value.rowsData[r] != s.rowsData[r] ==> r in s.damage.rows)
  }

  /** Rows times columns always fits the 32-bit counter, so the source's cast loses nothing. */
  lemma CellCountFits(rows: nat, cols: u16)
    requires rows <= 0xFFFF
    ensures 0 <= rows * cols < 0x1_0000_0000
  {
    assert rows * cols <= 0xFFFF * 0xFFFF by {
      assert rows * cols <= 0xFFFF * cols;
    }
  }
}
