/** One frame of the terminal grid: the paint input, then the row views. */
module GridFrames {
  import opened Common
  import opened TerminalSnapshots
  import opened PaintRows
  import opened RenderCache
  import opened LivePane

  function FrameInput(c: GridCache<ViewContent>, s: Snapshot): PaintInput {
    PaintInputOf(c, s, ToRgba(s.defaultFg), ToRgba(s.defaultBg))
  }

  function FrameCache(c: GridCache<ViewContent>, s: Snapshot): GridCache<ViewContent> {
    CacheAfterViews(FrameInput(c, s), CacheAfterPaint(c, s, ToRgba(s.defaultFg), ToRgba(s.defaultBg)))
  }

  // ----- what every frame keeps, whatever was reported as damaged -----

  /** Every row is cached, and its view shows exactly the cached row. */
  ghost predicate Coherent(c: GridCache<ViewContent>) {
    && |c.rowViews| == |c.rowsData|
    && forall r :: 0 <= r < |c.rowsData| ==>
         c.rowsData[r].Some? && c.rowViews[r] == Some(ViewContent(c.cols, c.rowsData[r].value))
  }

  /** The row inputs handed to the painter are those of the cached rows. */
  ghost predicate ShowsRows(input: PaintInput, c: GridCache<ViewContent>) {
    && input.cols == c.cols && input.rows == c.rows && |input.rowsData| == |c.rowsData|
    && forall r :: 0 <= r < |c.rowsData| ==> c.rowsData[r].Some? && input.rowsData[r] == c.rowsData[r].value.rowInput
  }

  lemma NewCacheIsCoherent(s: Snapshot, fg: Rgba, bg: Rgba)
    ensures Coherent(NewCache(s, fg, bg))
  {
  }

  /** A row is missing only in a cache that was just invalidated, so a row is rebuilt exactly when flagged. */
  lemma RebuiltMeansFlagged(c: GridCache<ViewContent>, s: Snapshot, r: nat)
    requires Coherent(c) && r < |s.rowsData|
    ensures var fg, bg := ToRgba(s.defaultFg), ToRgba(s.defaultBg);
            var flags := FlagsAfterPaint(c, s, fg, bg);
            Rebuilt(Prepared(c, s, fg, bg).rowsData, flags, r) <==> flags[r]
  {
  }

  /**
    * After every frame of any snapshot, each view shows exactly the cached row and the paint input holds the
    * cached rows, although only the views of flagged rows were refreshed.
    */
  lemma FrameKeepsCoherent(c: GridCache<ViewContent>, s: Snapshot)
    requires Coherent(c)
    ensures Coherent(FrameCache(c, s))
    ensures ShowsRows(FrameInput(c, s), FrameCache(c, s))
  {
    var fg, bg := ToRgba(s.defaultFg), ToRgba(s.defaultBg);
    var painted, input := CacheAfterPaint(c, s, fg, bg), FrameInput(c, s);
    forall r | 0 <= r < |s.rowsData|
      ensures painted.rowsData[r].Some?
      ensures ViewAfter(input, painted, r) == ViewContent(s.cols, painted.rowsData[r].value)
    {
      RebuiltMeansFlagged(c, s, r);
    }
  }

  // ----- when the frame shows the snapshot -----

  /** Every cached row, and every row view, is what a from-scratch paint of `s` gives. */
  ghost predicate Fresh(c: GridCache<ViewContent>, s: Snapshot) {
    && c.cols == s.cols && c.rows == s.rows
    && c.defaultFg == ToRgba(s.defaultFg) && c.defaultBg == ToRgba(s.defaultBg)
    && |c.rowsData| == |s.rowsData| == |c.rowViews|
    && (forall r :: 0 <= r < |s.rowsData| ==> c.rowsData[r] == Some(FreshRow(s, ToRgba(s.defaultBg), r)))
    && (forall r :: 0 <= r < |s.rowsData| ==>
          c.rowViews[r] == Some(ViewContent(s.cols, FreshRow(s, ToRgba(s.defaultBg), r))))
  }

  ghost predicate FreshInput(input: PaintInput, s: Snapshot) {
    && input.cols == s.cols && input.rows == s.rows && |input.rowsData| == |s.rowsData|
    && forall r :: 0 <= r < |s.rowsData| ==> input.rowsData[r] == FreshRow(s, ToRgba(s.defaultBg), r).rowInput
  }

  /** A frame over a cache that is fresh for `base`, or over any cache at all when there is no `base`. */
  lemma FrameIsFresh(c: GridCache<ViewContent>, base: Option<Snapshot>, s: Snapshot)
    requires base.Some? ==> Fresh(c, base.value)
    requires Covers(base, s)
    ensures Fresh(FrameCache(c, s), s)
    ensures FreshInput(FrameInput(c, s), s)
  {
    var fg, bg := ToRgba(s.defaultFg), ToRgba(s.defaultBg);
    var prepared := Prepared(c, s, fg, bg);
    var flags := FlagsAfterPaint(c, s, fg, bg);
    forall r | 0 <= r < |s.rowsData|
      ensures RowAfterPaint(prepared.rowsData, flags, s, bg, r) == FreshRow(s, bg, r)
      ensures !flags[r] ==> prepared == c && c.rowViews[r] == Some(ViewContent(s.cols, FreshRow(s, bg, r)))
    {
      if !flags[r] {
        assert base.value.rowsData[r] == s.rowsData[r];
        assert FreshRow(base.value, bg, r) == FreshRow(s, bg, r);
      }
    }
    var painted := CacheAfterPaint(c, s, fg, bg);
    var input := FrameInput(c, s);
    forall r | 0 <= r < |s.rowsData|
      ensures ViewAfter(input, painted, r) == ViewContent(s.cols, FreshRow(s, bg, r))
    {
      assert painted.rowsData[r] == Some(FreshRow(s, bg, r));
    }
  }

  // ----- replacing a snapshot that was not painted -----

  const MARK := BLANK.(text := "x")

  /** The cache that a from-scratch paint of `s` leaves. */
  function FreshCache(s: Snapshot): GridCache<ViewContent> {
    var rows := seq(|s.rowsData|, r requires 0 <= r < |s.rowsData| => FreshRow(s, ToRgba(s.defaultBg), r));
    GridCache(s.cols, s.rows, ToRgba(s.defaultFg), ToRgba(s.defaultBg),
              seq(|rows|, r requires 0 <= r < |rows| => Some(rows[r])),
              seq(|rows|, r requires 0 <= r < |rows| => Some(ViewContent(s.cols, rows[r]))))
  }

  lemma AppendedMarkShows(rowIndex: nat, row: Row, fg: Rgba, bg: Rgba)
    ensures RowGlyphs(rowIndex, row + [MARK], fg, bg) != RowGlyphs(rowIndex, row, fg, bg)
  {
    var more := row + [MARK];
    assert more[..|more| - 1] == row && more[|more| - 1] == MARK;
    assert RowGlyphs(rowIndex, more, fg, bg) ==
           RowGlyphs(rowIndex, row, fg, bg) + [GlyphOf(rowIndex, |row|, MARK, fg, bg)];
  }

  /** A row that paints otherwise than what is on screen and is not reported stays as it was. */
  lemma StaleRow(c: GridCache<ViewContent>, base: Snapshot, s: Snapshot, r: nat)
    requires Fresh(c, base) && base.cols == s.cols && base.rows == s.rows
    requires base.defaultFg == s.defaultFg && base.defaultBg == s.defaultBg
    requires r < |s.rowsData| == |base.rowsData| && !s.damage.full && r !in s.damage.rows
    requires base.rowsData[r] == s.rowsData[r] + [MARK] || s.rowsData[r] == base.rowsData[r] + [MARK]
    ensures !Fresh(FrameCache(c, s), s)
  {
    var fg, bg := ToRgba(s.defaultFg), ToRgba(s.defaultBg);
    assert !CacheInvalid(c, s, fg, bg) && !Flagged(c, s, fg, bg, r);
    assert FrameCache(c, s).rowsData[r] == Some(FreshRow(base, bg, r));
    AppendedMarkShows(r, s.rowsData[r], fg, bg);
    AppendedMarkShows(r, base.rowsData[r], fg, bg);
  }

  /** Whatever was on screen before the dropped snapshot, painting its successor shows it. */
  ghost predicate ReplacementShows(dropped: Snapshot, kept: Snapshot) {
    forall c: GridCache<ViewContent>, base: Option<Snapshot> ::
      (base.Some? ==> Fresh(c, base.value)) && Covers(base, dropped) ==> Fresh(FrameCache(c, kept), kept)
  }

  lemma StaleReplacement(dropped: Snapshot, kept: Snapshot, r: u16)
    requires dropped.Valid() && kept.Valid() && Covers(Some(dropped), kept)
    requires !kept.damage.full && r < kept.rows && r !in kept.damage.rows
    requires dropped.damage.full || r in dropped.damage.rows
    ensures !ReplacementShows(dropped, kept)
  {
    var base := dropped.(defaultFg := kept.defaultFg, defaultBg := kept.defaultBg,
                         rowsData := dropped.rowsData[r := dropped.rowsData[r] + [MARK]]);
    assert dropped.rowsData[r] == kept.rowsData[r];
    var c := FreshCache(base);
    assert Fresh(c, base);
    assert Covers(Some(base), dropped);
    StaleRow(c, base, kept, r);
    assert (Some(base).Some? ==> Fresh(c, Some(base).value)) && Covers(Some(base), dropped);
  }

  /**
    * Replacing an unpainted snapshot by its successor without merging damage shows the successor on every
    * screen the dropped one was right for, if and only if the successor reports at least the dropped rows.
    */
  lemma ReplacementShowsExactly(dropped: Snapshot, kept: Snapshot)
    requires dropped.Valid() && kept.Valid() && NormalDamage(dropped) && NormalDamage(kept)
    requires Covers(Some(dropped), kept)
    ensures ReplacementShows(dropped, kept) <==> ReportsAsMuch(kept, dropped)
  {
    if ReportsAsMuch(kept, dropped) {
      forall c: GridCache<ViewContent>, base: Option<Snapshot> |
        (base.Some? ==> Fresh(c, base.value)) && Covers(base, dropped)
        ensures Fresh(FrameCache(c, kept), kept)
      {
        ReplacingKeepsCover(base, dropped, kept);
        FrameIsFresh(c, base, kept);
      }
    } else if dropped.damage.full {
      var r: u16 :| r < kept.rows && r !in kept.damage.rows;
      StaleReplacement(dropped, kept, r);
    } else {
      var r :| r in dropped.damage.rows && r !in kept.damage.rows;
      StaleReplacement(dropped, kept, r);
    }
  }

  // ----- the frame of the mutable cache -----

  /** Painting commutes with looking at what the views show. */
  lemma PaintCommutesWithContents(c: GridCache<RowView>, s: Snapshot, fg: Rgba, bg: Rgba)
    ensures ViewsOf(CacheAfterPaint(c, s, fg, bg)) <= ViewsOf(c)
    ensures Contents(CacheAfterPaint(c, s, fg, bg)) == CacheAfterPaint(Contents(c), s, fg, bg)
    ensures PaintInputOf(c, s, fg, bg) == PaintInputOf(Contents(c), s, fg, bg)
  {
    assert FlagsAfterPaint(c, s, fg, bg) == FlagsAfterPaint(Contents(c), s, fg, bg);
    assert Contents(Prepared(c, s, fg, bg)).rowViews == Prepared(Contents(c), s, fg, bg).rowViews;
  }

  /** The first half of a frame, in terms of what the views show. */
  method PaintTerminalGrid(cache: TerminalRenderCache, s: Snapshot) returns (input: PaintInput)
    requires cache.Valid()
    modifies cache
    ensures cache.Valid()
    ensures cache.sessions.Keys == old(cache.sessions).Keys + {s.sessionId}
    ensures var fg, bg := ToRgba(s.defaultFg), ToRgba(s.defaultBg);
            var before := old(cache.Entry(s, fg, bg));
            && ViewsOf(cache.sessions[s.sessionId]) <= ViewsOf(before)
            && input == FrameInput(old(Contents(cache.Entry(s, fg, bg))), s)
            && Contents(cache.sessions[s.sessionId]) == CacheAfterPaint(old(Contents(cache.Entry(s, fg, bg))), s, fg, bg)
    ensures forall other :: other in old(cache.sessions) && other != s.sessionId ==>
              && cache.sessions[other] == old(cache.sessions)[other]
              && Contents(cache.sessions[other]) == old(Contents(cache.sessions[other]))
  {
    var fg, bg := ToRgba(s.defaultFg), ToRgba(s.defaultBg);
    PaintCommutesWithContents(cache.Entry(s, fg, bg), s, fg, bg);
    input := cache.TerminalPaintInput(s, fg, bg);
    assert Contents(cache.sessions[s.sessionId]) == old(Contents(CacheAfterPaint(cache.Entry(s, fg, bg), s, fg, bg)));
  }

  /** What is rendered of a snapshot: first the paint input, then the row views. */
  method RenderTerminalGrid(cache: TerminalRenderCache, s: Snapshot) returns (input: PaintInput, views: seq<RowView>)
    requires cache.Valid()
    modifies cache, if s.sessionId in cache.sessions then ViewsOf(cache.sessions[s.sessionId]) else {}
    ensures cache.Valid()
    ensures cache.sessions.Keys == old(cache.sessions).Keys + {s.sessionId}
    ensures var before := old(Contents(cache.Entry(s, ToRgba(s.defaultFg), ToRgba(s.defaultBg))));
            && input == FrameInput(before, s)
            && Contents(cache.sessions[s.sessionId]) == FrameCache(before, s)
            && (Coherent(before) ==> Coherent(FrameCache(before, s)) && ShowsRows(input, FrameCache(before, s)))
    ensures forall other :: other in old(cache.sessions) && other != s.sessionId ==>
              && cache.sessions[other] == old(cache.sessions)[other]
              && Contents(cache.sessions[other]) == old(Contents(cache.sessions[other]))
    ensures |views| == |input.rowsData|
    ensures cache.sessions[s.sessionId].rowViews == seq(|views|, i requires 0 <= i < |views| => Some(views[i]))
  {
    ghost var before := Contents(cache.Entry(s, ToRgba(s.defaultFg), ToRgba(s.defaultBg)));
    if Coherent(before) {
      FrameKeepsCoherent(before, s);
    }
    input := PaintTerminalGrid(cache, s);
    views := cache.TerminalRowViewsForInput(input);
  }
}
