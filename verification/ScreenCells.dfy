/** From the emulator's cell to the painted one: what a row view shows at each column of the terminal. */
module ScreenCells {
  import opened Common
  import opened TerminalSnapshots
  import opened SnapshotExtractors
  import opened PaintRows
  import opened RenderCache
  import opened GridFrames
  import opened LivePane
  import opened RenderPipeline
  import opened Presentations

  /** The colours a cell is shown in: its own or the terminal's, exchanged when it is inverse. */
  predicate AreColoursOf(ink: Rgba, paper: Rgba, cell: VtCell, defaultFg: Rgb, defaultBg: Rgb) {
    var fg := if cell.fg.Some? then cell.fg.value else defaultFg;
    var bg := if cell.bg.Some? then cell.bg.value else defaultBg;
    if cell.inverse then IsOpaque(ink, bg) && IsOpaque(paper, fg) else IsOpaque(ink, fg) && IsOpaque(paper, bg)
  }

  /** Whether anything is drawn of a cell besides its paper. */
  predicate IsDrawn(cell: VtCell) {
    (cell.wide == Narrow || cell.wide == Wide) && !cell.invisible && cell.graphemes != "" && cell.graphemes != " "
  }

  /** `g` draws the cell at row `r`, column `c`. */
  predicate Draws(g: GlyphCell, r: nat, c: nat, cell: VtCell, ink: Rgba, paper: Rgba) {
    && g.rowIndex == r && g.colIndex == c && g.text == cell.graphemes
    && g.cellWidth == (if cell.wide == Wide then 2 else 1)
    && g.bold == cell.bold && g.italic == cell.italic && g.underline == (cell.underline != NotUnderlined)
    && g.strikethrough == cell.strikethrough && g.overline == cell.overline
    && if cell.faint then IsMidpoint(g.color, ink, paper) else g.color == ink
  }

  /** A painted row shows the cell: its paper where that is not the terminal's background, and its glyph. */
  ghost predicate ShowsCell(row: CachedPaintRow, r: nat, c: nat, cell: VtCell, ink: Rgba, paper: Rgba, background: Rgba) {
    var runs, glyphs := row.rowInput.backgroundRuns, row.glyphCells;
    && row.rowInput.defaultBg == background
    && (Painted(runs, c) <==> paper != background)
    && (forall k :: 0 <= k < |runs| && Inside(runs[k], c) ==> runs[k].color == paper)
    && (HasGlyphAt(glyphs, c) <==> IsDrawn(cell))
    && (forall i :: 0 <= i < |glyphs| && glyphs[i].colIndex == c ==> Draws(glyphs[i], r, c, cell, ink, paper))
  }

  /** A colour is determined by its components. */
  lemma OpaqueIsUnique(x: Rgba, color: Rgb)
    requires IsOpaque(x, color)
    ensures x == ToRgba(color)
  {
    assert x.r == color.r as real / 255.0 && x.g == color.g as real / 255.0 && x.b == color.b as real / 255.0;
  }

  lemma ColoursAreInkAndPaper(ink: Rgba, paper: Rgba, vt: VtCell, cell: Cell, defaultFg: Rgb, defaultBg: Rgb)
    requires AreColoursOf(ink, paper, vt, defaultFg, defaultBg) && IsReadFrom(cell, vt)
    ensures IsInkAndPaper(ink, paper, cell, ToRgba(defaultFg), ToRgba(defaultBg))
  {
    var fg := if vt.fg.Some? then vt.fg.value else defaultFg;
    var bg := if vt.bg.Some? then vt.bg.value else defaultBg;
    OpaqueIsUnique(ink, if vt.inverse then bg else fg);
    OpaqueIsUnique(paper, if vt.inverse then fg else bg);
  }

  /** The row painted from scratch shows each of the emulator's cells. */
  lemma FreshRowShowsCell(s: Snapshot, vt: VtGrid, r: nat, c: nat, ink: Rgba, paper: Rgba, background: Rgba)
    requires vt.Valid() && s.Picture() == GridOf(vt) && r < vt.rows && c < |vt.rowsData[r]|
    requires AreColoursOf(ink, paper, vt.rowsData[r][c], vt.defaultFg, vt.defaultBg) && IsOpaque(background, vt.defaultBg)
    ensures |s.rowsData| == vt.rows
    ensures ShowsCell(FreshRow(s, ToRgba(s.defaultBg), r), r, c, vt.rowsData[r][c], ink, paper, background)
  {
    PictureIsGrid(s, vt, r, c);
    var fg, bg := ToRgba(s.defaultFg), ToRgba(s.defaultBg);
    OpaqueIsUnique(background, vt.defaultBg);
    ColoursAreInkAndPaper(ink, paper, vt.rowsData[r][c], s.rowsData[r][c], s.defaultFg, s.defaultBg);
    PaperIsPainted(r, s.rowsData[r], fg, bg, bg, c, ink, paper);
    GlyphIsShown(r, s.rowsData[r], fg, bg, bg, c, ink, paper);
  }

  lemma PictureIsGrid(s: Snapshot, vt: VtGrid, r: nat, c: nat)
    requires vt.Valid() && s.Picture() == GridOf(vt) && r < vt.rows && c < |vt.rowsData[r]|
    ensures s.defaultFg == vt.defaultFg && s.defaultBg == vt.defaultBg
    ensures |s.rowsData| == vt.rows && |s.rowsData[r]| == |vt.rowsData[r]| && IsReadFrom(s.rowsData[r][c], vt.rowsData[r][c])
  {
    CellsAreRead(_ => 0, FRESH_EXTRACTOR, s.sessionId, vt, r, c);
    var read := Extracted(_ => 0, FRESH_EXTRACTOR, s.sessionId, GridOf(vt));
    PictureKeepsShape(s, read);
  }

  /** A cache that is fresh for what was extracted has a view for each row that shows each of its cells. */
  lemma FreshShowsCell(cache: GridCache<ViewContent>, s: Snapshot, vt: VtGrid, r: nat, c: nat,
                       ink: Rgba, paper: Rgba, background: Rgba)
    requires vt.Valid() && s.Picture() == GridOf(vt) && Fresh(cache, s) && r < vt.rows && c < |vt.rowsData[r]|
    requires AreColoursOf(ink, paper, vt.rowsData[r][c], vt.defaultFg, vt.defaultBg) && IsOpaque(background, vt.defaultBg)
    ensures |cache.rowViews| == vt.rows && cache.rowViews[r].Some? && cache.rowViews[r].value.cols == vt.cols
    ensures ShowsCell(cache.rowViews[r].value.row, r, c, vt.rowsData[r][c], ink, paper, background)
  {
    FreshRowShowsCell(s, vt, r, c, ink, paper, background);
    assert s.Picture().cols == s.cols;
  }

  lemma {:induction false} RunExtends(hash: RowHash, sessionId: string, p: Pipe, events: seq<Event>, e: Event)
    requires ValidGrids(events) && (e.Extract? ==> e.grid.Valid())
    ensures ValidGrids(events + [e])
    ensures Run(hash, sessionId, p, events + [e]) == Step(hash, sessionId, Run(hash, sessionId, p, events), e)
    decreases |events|
  {
    var more := events + [e];
    if events == [] {
      assert more[1..] == [];
    } else {
      assert more[1..] == events[1..] + [e];
      RunExtends(hash, sessionId, Step(hash, sessionId, p, events[0]), events[1..], e);
    }
  }

  /** The pipeline after a run, one more extraction, a sync and a frame. */
  function AfterSyncAndFrame(hash: RowHash, sessionId: string, cache: GridCache<ViewContent>, events: seq<Event>,
                             vt: VtGrid, now: nat): Pipe
    requires ValidGrids(events) && vt.Valid()
  {
    var p := Step(hash, sessionId, Run(hash, sessionId, Start(cache), events), Extract(GridOf(vt)));
    Step(hash, sessionId, Step(hash, sessionId, p, Sync(now)), Frame)
  }

  /**
    * From the emulator to the screen: after any run at all, extracting what the emulator shows, syncing and
    * painting a frame leaves a view for each row that shows every one of its cells, in its colours and style.
    */
  lemma EmulatorCellIsShown(hash: RowHash, sessionId: string, cache: GridCache<ViewContent>, events: seq<Event>,
                            vt: VtGrid, now: nat, r: nat, c: nat, ink: Rgba, paper: Rgba, background: Rgba)
    requires ValidGrids(events) && vt.Valid() && r < vt.rows && c < |vt.rowsData[r]|
    requires AreColoursOf(ink, paper, vt.rowsData[r][c], vt.defaultFg, vt.defaultBg) && IsOpaque(background, vt.defaultBg)
    ensures var views := AfterSyncAndFrame(hash, sessionId, cache, events, vt, now).cache.rowViews;
            && |views| == vt.rows && views[r].Some? && views[r].value.cols == vt.cols
            && ShowsCell(views[r].value.row, r, c, vt.rowsData[r][c], ink, paper, background)
  {
    var extract := Event.Extract(GridOf(vt));
    RunExtends(hash, sessionId, Start(cache), events, extract);
    FullDamageHeals(hash, sessionId, cache, events + [extract], Sync(now));
    var p := Run(hash, sessionId, Start(cache), events + [extract]);
    var s := p.extracted.value;
    assert s.Picture() == GridOf(vt);
    FreshShowsCell(AfterSyncAndFrame(hash, sessionId, cache, events, vt, now).cache, s, vt, r, c, ink, paper, background);
  }
}
