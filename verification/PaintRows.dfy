/** Painting one terminal row: effective colours, background runs and glyph cells. */
module PaintRows {
  import opened Common
  import opened TerminalSnapshots

  /** Colour components are real numbers; rounding is not modelled. */
  datatype Rgba = Rgba(r: real, g: real, b: real, a: real)

  function ToRgba(color: Rgb): Rgba {
    Rgba(color.r as real / 255.0, color.g as real / 255.0, color.b as real / 255.0, 1.0)
  }

  function DimColor(color: Rgba, target: Rgba): Rgba {
    Rgba((color.r + target.r) * 0.5, (color.g + target.g) * 0.5, (color.b + target.b) * 0.5, color.a)
  }

  function EffectiveCellColors(cell: Cell, defaultFg: Rgba, defaultBg: Rgba): (Rgba, Rgba) {
    var fg := if cell.fg.Some? then ToRgba(cell.fg.value) else defaultFg;
    var bg := if cell.bg.Some? then ToRgba(cell.bg.value) else defaultBg;
    var (fg, bg) := if cell.inverse then (bg, fg) else (fg, bg);
    (if cell.faint then DimColor(fg, bg) else fg, bg)
  }

  datatype BackgroundRun = BackgroundRun(startCol: nat, cellCount: nat, color: Rgba) {
    function End(): nat { startCol + cellCount }
  }

  datatype GlyphCell = GlyphCell(
    rowIndex: nat, colIndex: nat, text: string, cellWidth: u8, color: Rgba,
    bold: bool, italic: bool, underline: bool, strikethrough: bool, overline: bool)

  datatype PaintRowInput = PaintRowInput(defaultBg: Rgba, backgroundRuns: seq<BackgroundRun>)

  datatype CachedPaintRow = CachedPaintRow(rowInput: PaintRowInput, glyphCells: seq<GlyphCell>)

  /** The background a cell needs painted, if it differs from the default one. */
  function CellBackground(cell: Cell, fg: Rgba, bg: Rgba, defaultBg: Rgba): Option<Rgba> {
    var color := EffectiveCellColors(cell, fg, bg).1;
    if color != defaultBg then Some(color) else None
  }

  function RowBackgrounds(row: Row, fg: Rgba, bg: Rgba, defaultBg: Rgba): seq<Option<Rgba>> {
    seq(|row|, c requires 0 <= c < |row| => CellBackground(row[c], fg, bg, defaultBg))
  }

  /** `runs` with column `n`, just right of everything painted so far, added. */
  function ExtendRuns(runs: seq<BackgroundRun>, n: nat, background: Option<Rgba>): seq<BackgroundRun> {
    match background
    case None => runs
    case Some(color) =>
      var last := |runs| - 1;
      if last >= 0 && runs[last].color == color && runs[last].End() == n then
        runs[..last] + [BackgroundRun(runs[last].startCol, runs[last].cellCount + 1, color)]
      else
        runs + [BackgroundRun(n, 1, color)]
  }

  /** The maximal runs of equal backgrounds, left to right. */
  function BackgroundRuns(colors: seq<Option<Rgba>>): seq<BackgroundRun> {
    if colors == [] then []
    else
      var n := |colors| - 1;
      ExtendRuns(BackgroundRuns(colors[..n]), n, colors[n])
  }

  predicate Inside(run: BackgroundRun, c: int) {
    run.startCol <= c < run.End()
  }

  /** No run is empty, overlaps another or could be joined with its neighbour. */
  ghost predicate Separated(runs: seq<BackgroundRun>, width: nat) {
    && (forall k :: 0 <= k < |runs| ==> runs[k].cellCount > 0 && runs[k].End() <= width)
    && (forall i, j :: 0 <= i < j < |runs| ==>
          runs[i].End() < runs[j].startCol || (runs[i].End() == runs[j].startCol && (j == i + 1 ==> runs[i].color != runs[j].color)))
  }

  /** A column is inside a run exactly when it needs painting, and then in that run's colour. */
  ghost predicate ColorsMatch(runs: seq<BackgroundRun>, colors: seq<Option<Rgba>>) {
    && (forall k, c :: 0 <= k < |runs| && 0 <= c < |colors| && Inside(runs[k], c) ==> colors[c] == Some(runs[k].color))
    && (forall c :: 0 <= c < |colors| && colors[c].Some? ==> Painted(runs, c))
  }

  ghost predicate Painted(runs: seq<BackgroundRun>, c: nat) {
    exists k :: 0 <= k < |runs| && Inside(runs[k], c)
  }

  /** `runs` paints exactly `colors`, in order, with no two runs that could be one. */
  ghost predicate PaintsExactly(runs: seq<BackgroundRun>, colors: seq<Option<Rgba>>) {
    Separated(runs, |colors|) && ColorsMatch(runs, colors)
  }

  lemma ExtendSeparated(runs: seq<BackgroundRun>, n: nat, background: Option<Rgba>)
    requires Separated(runs, n)
    ensures Separated(ExtendRuns(runs, n, background), n + 1)
  {
  }

  lemma ExtendColors(runs: seq<BackgroundRun>, colors: seq<Option<Rgba>>, n: nat)
    requires |colors| == n + 1 && Separated(runs, n) && ColorsMatch(runs, colors[..n])
    ensures ColorsMatch(ExtendRuns(runs, n, colors[n]), colors)
  {
    var extended := ExtendRuns(runs, n, colors[n]);
    assert forall c :: 0 <= c < n ==> colors[..n][c] == colors[c];
    forall k, c | 0 <= k < |extended| && 0 <= c < |colors| && Inside(extended[k], c)
      ensures colors[c] == Some(extended[k].color)
    {
      if c < n { assert k < |runs| && Inside(runs[k], c); }
    }
    forall c | 0 <= c < |colors| && colors[c].Some? ensures Painted(extended, c) {
      if c < n {
        assert Painted(runs, c);
        var k :| 0 <= k < |runs| && Inside(runs[k], c);
        assert Inside(extended[k], c);
      } else {
        assert Inside(extended[|extended| - 1], c);
      }
    }
  }

  lemma {:induction false} BackgroundRunsPaint(colors: seq<Option<Rgba>>)
    ensures PaintsExactly(BackgroundRuns(colors), colors)
  {
    if colors != [] {
      BackgroundRunsPaint(colors[..|colors| - 1]);
      ExtendSeparated(BackgroundRuns(colors[..|colors| - 1]), |colors| - 1, colors[|colors| - 1]);
      ExtendColors(BackgroundRuns(colors[..|colors| - 1]), colors, |colors| - 1);
    }
  }

  /** The list of runs before its last column was added. */
  function TrimRuns(runs: seq<BackgroundRun>, n: nat): seq<BackgroundRun> {
    if runs == [] || runs[|runs| - 1].End() <= n then runs
    else
      var last := |runs| - 1;
      if runs[last].cellCount <= 1 then runs[..last]
      else runs[..last] + [BackgroundRun(runs[last].startCol, runs[last].cellCount - 1, runs[last].color)]
  }

  /** Trimming cuts every run at column `n`, and drops the last one if it starts there. */
  lemma TrimCuts(runs: seq<BackgroundRun>, n: nat)
    requires Separated(runs, n + 1)
    ensures var trimmed := TrimRuns(runs, n);
            && |trimmed| <= |runs|
            && (forall k :: 0 <= k < |trimmed| ==> IsCut(trimmed[k], runs[k], n))
            && (forall k :: |trimmed| <= k < |runs| ==> runs[k].startCol >= n)
  {
    var last := |runs| - 1;
    if last >= 0 {
      assert forall k :: 0 <= k < last ==> runs[k].End() <= runs[last].startCol;
    }
  }

  predicate IsCut(trimmed: BackgroundRun, run: BackgroundRun, n: nat) {
    && trimmed.startCol == run.startCol && trimmed.color == run.color && trimmed.cellCount > 0
    && trimmed.End() == if run.End() <= n then run.End() else n
  }

  lemma TrimSeparated(runs: seq<BackgroundRun>, n: nat)
    requires Separated(runs, n + 1)
    ensures Separated(TrimRuns(runs, n), n)
    ensures |TrimRuns(runs, n)| <= |runs|
    ensures forall k :: 0 <= k < |TrimRuns(runs, n)| ==> TrimRuns(runs, n)[k].color == runs[k].color
    ensures forall k, c :: 0 <= k < |TrimRuns(runs, n)| && c < n ==> (Inside(TrimRuns(runs, n)[k], c) <==> Inside(runs[k], c))
    ensures forall k, c :: |TrimRuns(runs, n)| <= k < |runs| && c < n ==> !Inside(runs[k], c)
  {
    TrimCuts(runs, n);
    var trimmed := TrimRuns(runs, n);
    forall i, j | 0 <= i < j < |trimmed|
      ensures trimmed[i].End() < trimmed[j].startCol ||
              (trimmed[i].End() == trimmed[j].startCol && (j == i + 1 ==> trimmed[i].color != trimmed[j].color))
    {
      assert IsCut(trimmed[i], runs[i], n) && IsCut(trimmed[j], runs[j], n);
    }
  }

  lemma TrimColors(runs: seq<BackgroundRun>, colors: seq<Option<Rgba>>, n: nat)
    requires |colors| == n + 1 && PaintsExactly(runs, colors)
    ensures ColorsMatch(TrimRuns(runs, n), colors[..n])
  {
    TrimSeparated(runs, n);
    var trimmed := TrimRuns(runs, n);
    forall c | 0 <= c < n && colors[..n][c].Some? ensures Painted(trimmed, c) {
      assert Painted(runs, c);
      var k :| 0 <= k < |runs| && Inside(runs[k], c);
      assert Inside(trimmed[k], c);
    }
  }

  function PaintedEnd(runs: seq<BackgroundRun>): nat {
    if runs == [] then 0 else runs[|runs| - 1].End()
  }

  lemma LastRunReachesPaintedEnd(runs: seq<BackgroundRun>, colors: seq<Option<Rgba>>)
    requires colors != [] && PaintsExactly(runs, colors)
    ensures colors[|colors| - 1].Some? <==> PaintedEnd(runs) == |colors|
    ensures colors[|colors| - 1].Some? ==> runs[|runs| - 1].color == colors[|colors| - 1].value
  {
    var n, last := |colors| - 1, |runs| - 1;
    if colors[n].Some? {
      assert Painted(runs, n);
      var k :| 0 <= k < |runs| && Inside(runs[k], n);
      assert k == last;
    } else if runs != [] && runs[last].End() > n {
      assert Inside(runs[last], n);
    }
  }

  lemma ExtendActive(runs: seq<BackgroundRun>, run: BackgroundRun, n: nat, background: Option<Rgba>)
    requires run.End() == n
    ensures ExtendRuns(runs + [run], n, background) ==
            if background.None? then runs + [run]
            else if run.color == background.value then runs + [BackgroundRun(run.startCol, run.cellCount + 1, run.color)]
            else runs + [run] + [BackgroundRun(n, 1, background.value)]
  {
    assert (runs + [run])[..|runs|] == runs;
  }

  lemma ExtendUndoesTrimOfLast(init: seq<BackgroundRun>, run: BackgroundRun, n: nat)
    requires run.cellCount > 0 && run.End() == n + 1
    requires init != [] && run.cellCount == 1 && PaintedEnd(init) == n ==> init[|init| - 1].color != run.color
    ensures ExtendRuns(TrimRuns(init + [run], n), n, Some(run.color)) == init + [run]
  {
    assert (init + [run])[..|init|] == init;
    if run.cellCount > 1 {
      ExtendActive(init, BackgroundRun(run.startCol, run.cellCount - 1, run.color), n, Some(run.color));
    }
  }

  lemma ExtendUndoesTrim(runs: seq<BackgroundRun>, n: nat, background: Option<Rgba>)
    requires Separated(runs, n + 1)
    requires background.Some? <==> PaintedEnd(runs) == n + 1
    requires background.Some? ==> runs[|runs| - 1].color == background.value
    ensures ExtendRuns(TrimRuns(runs, n), n, background) == runs
  {
    if background.Some? {
      var last := |runs| - 1;
      assert runs[..last] + [runs[last]] == runs;
      ExtendUndoesTrimOfLast(runs[..last], runs[last], n);
    }
  }

  /** There is only one such list of runs: the one the row painter computes. */
  lemma {:induction false} BackgroundRunsUnique(runs: seq<BackgroundRun>, colors: seq<Option<Rgba>>)
    ensures PaintsExactly(runs, colors) <==> runs == BackgroundRuns(colors)
    decreases |colors|
  {
    BackgroundRunsPaint(colors);
    if PaintsExactly(runs, colors) {
      if colors == [] {
        assert PaintedEnd(runs) == 0;
      } else {
        var n := |colors| - 1;
        TrimSeparated(runs, n);
        TrimColors(runs, colors, n);
        LastRunReachesPaintedEnd(runs, colors);
        ExtendUndoesTrim(runs, n, colors[n]);
        BackgroundRunsUnique(TrimRuns(runs, n), colors[..n]);
      }
    }
  }

  function WithActive(runs: seq<BackgroundRun>, active: Option<BackgroundRun>): seq<BackgroundRun> {
    if active.Some? then runs + [active.value] else runs
  }

  method TerminalBackgroundRuns(row: Row, fg: Rgba, bg: Rgba, defaultBg: Rgba) returns (runs: seq<BackgroundRun>)
    ensures runs == BackgroundRuns(RowBackgrounds(row, fg, bg, defaultBg))
  {
    runs := [];
    var active: Option<BackgroundRun> := None;
    ghost var colors := RowBackgrounds(row, fg, bg, defaultBg);
    var col := 0;
    while col < |row|
      invariant 0 <= col <= |row|
      invariant BackgroundRuns(colors[..col]) == WithActive(runs, active)
      invariant active.Some? ==> active.value.End() == col
      invariant active.None? ==> PaintedEnd(runs) < col || runs == []
    {
      var background := CellBackground(row[col], fg, bg, defaultBg);
      assert BackgroundRuns(colors[..col + 1]) == ExtendRuns(WithActive(runs, active), col, background) by {
        assert colors[..col + 1][..col] == colors[..col];
      }
      if active.Some? {
        ExtendActive(runs, active.value, col, background);
      }
      match (active, background) {
        case (Some(run), Some(color)) =>
          if run.color == color && run.End() == col {
            active := Some(BackgroundRun(run.startCol, run.cellCount + 1, color));
          } else {
            runs := runs + [run];
            active := Some(BackgroundRun(col, 1, color));
          }
        case (None, Some(color)) =>
          active := Some(BackgroundRun(col, 1, color));
        case (Some(run), None) =>
          runs := runs + [run];
          active := None;
        case (None, None) =>
      }
      col := col + 1;
    }
    assert colors[..|row|] == colors;
    if active.Some? {
      runs := runs + [active.value];
    }
  }

  predicate HasGlyph(cell: Cell) {
    cell.width > 0 && !cell.invisible && cell.text != "" && cell.text != " "
  }

  function GlyphOf(rowIndex: nat, colIndex: nat, cell: Cell, fg: Rgba, bg: Rgba): GlyphCell {
    GlyphCell(rowIndex, colIndex, cell.text, cell.width, EffectiveCellColors(cell, fg, bg).0,
              cell.bold, cell.italic, cell.underline, cell.strikethrough, cell.overline)
  }

  function RowGlyphs(rowIndex: nat, row: Row, fg: Rgba, bg: Rgba): seq<GlyphCell> {
    if row == [] then []
    else
      var n := |row| - 1;
      RowGlyphs(rowIndex, row[..n], fg, bg) + if HasGlyph(row[n]) then [GlyphOf(rowIndex, n, row[n], fg, bg)] else []
  }

  /** One glyph per visible cell, at that cell's own column, and nothing else. */
  lemma {:induction false} RowGlyphsAtOwnColumns(rowIndex: nat, row: Row, fg: Rgba, bg: Rgba, g: GlyphCell)
    ensures g in RowGlyphs(rowIndex, row, fg, bg) <==>
            exists c :: 0 <= c < |row| && HasGlyph(row[c]) && g == GlyphOf(rowIndex, c, row[c], fg, bg)
  {
    if row != [] {
      var n := |row| - 1;
      RowGlyphsAtOwnColumns(rowIndex, row[..n], fg, bg, g);
      assert forall c :: 0 <= c < n ==> row[..n][c] == row[c];
    }
  }

  /** What a from-scratch paint of a row gives; `fg` and `bg` are the snapshot's default colours. */
  function PaintedRow(rowIndex: nat, row: Row, fg: Rgba, bg: Rgba, defaultBg: Rgba): CachedPaintRow {
    CachedPaintRow(PaintRowInput(defaultBg, BackgroundRuns(RowBackgrounds(row, fg, bg, defaultBg))),
                   RowGlyphs(rowIndex, row, fg, bg))
  }

  method TerminalCachedPaintRow(rowIndex: nat, row: Row, snapshot: Snapshot, defaultBg: Rgba) returns (r: CachedPaintRow)
    ensures r == PaintedRow(rowIndex, row, ToRgba(snapshot.defaultFg), ToRgba(snapshot.defaultBg), defaultBg)
  {
    var fg, bg := ToRgba(snapshot.defaultFg), ToRgba(snapshot.defaultBg);
    var backgroundRuns := TerminalBackgroundRuns(row, fg, bg, defaultBg);
    var glyphCells: seq<GlyphCell> := [];
    var col := 0;
    while col < |row|
      invariant 0 <= col <= |row|
      invariant glyphCells == RowGlyphs(rowIndex, row[..col], fg, bg)
    {
      assert row[..col + 1][..col] == row[..col];
      if HasGlyph(row[col]) {
        glyphCells := glyphCells + [GlyphOf(rowIndex, col, row[col], fg, bg)];
      }
      col := col + 1;
    }
    assert row[..|row|] == row;
    r := CachedPaintRow(PaintRowInput(defaultBg, backgroundRuns), glyphCells);
  }

  // ----- the colours of a painted row, cell by cell -----

  /** `x` is the colour of eight bits a component, opaque. */
  predicate IsOpaque(x: Rgba, color: Rgb) {
    && x.r * 255.0 == color.r as real && x.g * 255.0 == color.g as real && x.b * 255.0 == color.b as real
    && x.a == 1.0
  }

  /** `x` is the cell's own colour, or the default one when it has none. */
  predicate IsColour(x: Rgba, own: Option<Rgb>, fallback: Rgba) {
    if own.Some? then IsOpaque(x, own.value) else x == fallback
  }

  /** `x` lies half way from `a` to `b`, with the opacity of `a`. */
  predicate IsMidpoint(x: Rgba, a: Rgba, b: Rgba) {
    x.r + x.r == a.r + b.r && x.g + x.g == a.g + b.g && x.b + x.b == a.b + b.b && x.a == a.a
  }

  /** Ink and paper of a cell: its foreground and background, exchanged when it is inverse. */
  predicate IsInkAndPaper(ink: Rgba, paper: Rgba, cell: Cell, defaultFg: Rgba, defaultBg: Rgba) {
    if cell.inverse then IsColour(ink, cell.bg, defaultBg) && IsColour(paper, cell.fg, defaultFg)
    else IsColour(ink, cell.fg, defaultFg) && IsColour(paper, cell.bg, defaultBg)
  }

  /**
    * A column is painted exactly when its paper is not the default background, and then in its paper, faint
    * or not.
    */
  lemma PaperIsPainted(rowIndex: nat, row: Row, fg: Rgba, bg: Rgba, defaultBg: Rgba, c: nat, ink: Rgba, paper: Rgba)
    requires c < |row| && IsInkAndPaper(ink, paper, row[c], fg, bg)
    ensures var runs := PaintedRow(rowIndex, row, fg, bg, defaultBg).rowInput.backgroundRuns;
            && (Painted(runs, c) <==> paper != defaultBg)
            && forall k :: 0 <= k < |runs| && Inside(runs[k], c) ==> runs[k].color == paper
  {
    BackgroundRunsPaint(RowBackgrounds(row, fg, bg, defaultBg));
    assert RowBackgrounds(row, fg, bg, defaultBg)[c] == if paper != defaultBg then Some(paper) else None;
  }

  /** What the glyph of a cell looks like: its text and style in its ink, dimmed half way to the paper when faint. */
  predicate IsGlyphOf(g: GlyphCell, rowIndex: nat, c: nat, cell: Cell, ink: Rgba, paper: Rgba) {
    && g.rowIndex == rowIndex && g.colIndex == c
    && g.text == cell.text && g.cellWidth == cell.width
    && g.bold == cell.bold && g.italic == cell.italic && g.underline == cell.underline
    && g.strikethrough == cell.strikethrough && g.overline == cell.overline
    && if cell.faint then IsMidpoint(g.color, ink, paper) else g.color == ink
  }

  ghost predicate HasGlyphAt(glyphs: seq<GlyphCell>, c: nat) {
    exists i :: 0 <= i < |glyphs| && glyphs[i].colIndex == c
  }

  /** A cell has a glyph exactly when it has width, is visible and holds more than a blank; it is the cell's. */
  lemma GlyphIsShown(rowIndex: nat, row: Row, fg: Rgba, bg: Rgba, defaultBg: Rgba, c: nat, ink: Rgba, paper: Rgba)
    requires c < |row| && IsInkAndPaper(ink, paper, row[c], fg, bg)
    ensures var glyphs := PaintedRow(rowIndex, row, fg, bg, defaultBg).glyphCells;
            && (HasGlyphAt(glyphs, c) <==> row[c].width > 0 && !row[c].invisible && row[c].text != "" && row[c].text != " ")
            && forall i :: 0 <= i < |glyphs| && glyphs[i].colIndex == c ==>
                 IsGlyphOf(glyphs[i], rowIndex, c, row[c], ink, paper)
  {
    var glyphs := PaintedRow(rowIndex, row, fg, bg, defaultBg).glyphCells;
    forall i | 0 <= i < |glyphs| && glyphs[i].colIndex == c
      ensures HasGlyph(row[c]) && IsGlyphOf(glyphs[i], rowIndex, c, row[c], ink, paper)
    {
      RowGlyphsAtOwnColumns(rowIndex, row, fg, bg, glyphs[i]);
      assert glyphs[i] in glyphs;
    }
    if HasGlyph(row[c]) {
      var g := GlyphOf(rowIndex, c, row[c], fg, bg);
      RowGlyphsAtOwnColumns(rowIndex, row, fg, bg, g);
      assert g in glyphs;
    }
  }

  /** Each column has at most one glyph, and glyphs come in column order. */
  lemma {:induction false} GlyphsAreOrdered(rowIndex: nat, row: Row, fg: Rgba, bg: Rgba)
    ensures InColumnOrder(RowGlyphs(rowIndex, row, fg, bg), |row|)
  {
    if row != [] {
      var n := |row| - 1;
      GlyphsAreOrdered(rowIndex, row[..n], fg, bg);
      var before := RowGlyphs(rowIndex, row[..n], fg, bg);
      assert InColumnOrder(before + [GlyphOf(rowIndex, n, row[n], fg, bg)], |row|);
      assert before + [] == before;
    }
  }

  predicate InColumnOrder(glyphs: seq<GlyphCell>, width: nat) {
    && (forall i :: 0 <= i < |glyphs| ==> glyphs[i].colIndex < width)
    && (forall i, j :: 0 <= i < j < |glyphs| ==> glyphs[i].colIndex < glyphs[j].colIndex)
  }

  /** A reverse-video character without colours of its own: background ink on a run in the foreground colour. */
  lemma ReverseVideoSwaps(rowIndex: nat, cell: Cell, fg: Rgba, bg: Rgba)
    requires cell.inverse && !cell.faint && cell.fg.None? && cell.bg.None? && cell.width == 1
    requires !cell.invisible && cell.text == "x" && fg != bg
    ensures var p := PaintedRow(rowIndex, [cell], fg, bg, bg);
            && p.rowInput.backgroundRuns == [BackgroundRun(0, 1, fg)]
            && |p.glyphCells| == 1 && p.glyphCells[0].color == bg
  {
    var row := [cell];
    assert row[..0] == [];
    var colors := RowBackgrounds(row, fg, bg, bg);
    assert colors == [Some(fg)] && colors[..0] == [];
    assert BackgroundRuns(colors) == ExtendRuns([], 0, Some(fg));
    assert RowGlyphs(rowIndex, row, fg, bg) == [] + [GlyphOf(rowIndex, 0, cell, fg, bg)];
  }
}
