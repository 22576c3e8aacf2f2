/** The per-session row cache and row views behind the painted terminal grid. */
module RenderCache {
  import opened Common
  import opened TerminalSnapshots
  import opened PaintRows

  /** A GPUI entity: updated in place, and shared by the cache and the element tree. */
  class RowView {
    var cols: u16
    var rowInput: PaintRowInput
    var glyphCells: seq<GlyphCell>

    constructor (cols: u16, row: CachedPaintRow)
      ensures Shows() == ViewContent(cols, row)
    {
      this.cols := cols;
      rowInput := row.rowInput;
      glyphCells := row.glyphCells;
    }

    method Update(cols: u16, row: CachedPaintRow)
      modifies this
      ensures Shows() == ViewContent(cols, row)
    {
      this.cols := cols;
      rowInput := row.rowInput;
      glyphCells := row.glyphCells;
    }

    function Shows(): ViewContent
      reads this
    {
      ViewContent(cols, CachedPaintRow(rowInput, glyphCells))
    }
  }

  /** What a row view shows. */
  datatype ViewContent = ViewContent(cols: u16, row: CachedPaintRow)

  /** One session's cache; `V` is a row view, or the content of one. */
  datatype GridCache<V> = GridCache(
    cols: u16, rows: u16, defaultFg: Rgba, defaultBg: Rgba,
    rowsData: seq<Option<CachedPaintRow>>, rowViews: seq<Option<V>>)

  datatype PaintInput = PaintInput(
    sessionId: string, cols: u16, rows: u16, defaultBg: Rgba,
    rowsData: seq<PaintRowInput>, glyphCells: seq<GlyphCell>,
    dirtyRows: nat, dirtyCells: nat, rebuiltRows: nat, reusedRows: nat, repaintBackgrounds: nat,
    rebuiltRowFlags: seq<bool>)

  // ----- what one paint does -----

  function Nones<T>(n: nat): seq<Option<T>> {
    seq(n, _ => None)
  }

  /** The cache entry that a session without one gets. */
  function NewCache<V>(s: Snapshot, fg: Rgba, bg: Rgba): GridCache<V> {
    GridCache(s.cols, s.rows, fg, bg, [], [])
  }

  predicate CacheInvalid<V>(c: GridCache<V>, s: Snapshot, fg: Rgba, bg: Rgba) {
    c.cols != s.cols || c.rows != s.rows || c.defaultFg != fg || c.defaultBg != bg || |c.rowsData| != |s.rowsData|
  }

  function Prepared<V>(c: GridCache<V>, s: Snapshot, fg: Rgba, bg: Rgba): (p: GridCache<V>)
    ensures |p.rowsData| == |s.rowsData|
    ensures !CacheInvalid(p, s, fg, bg)
  {
    if CacheInvalid(c, s, fg, bg) then
      GridCache(s.cols, s.rows, fg, bg, Nones(|s.rowsData|), Nones(|s.rowsData|))
    else c
  }

  predicate Flagged<V>(c: GridCache<V>, s: Snapshot, fg: Rgba, bg: Rgba, r: int) {
    CacheInvalid(c, s, fg, bg) || s.damage.full || r in s.damage.rows
  }

  function FlagsAfterPaint<V>(c: GridCache<V>, s: Snapshot, fg: Rgba, bg: Rgba): seq<bool> {
    seq(|s.rowsData|, r => Flagged(c, s, fg, bg, r))
  }

  /** Row `r` of `s` painted from scratch over the default background `bg`. */
  function FreshRow(s: Snapshot, bg: Rgba, r: nat): CachedPaintRow
    requires r < |s.rowsData|
  {
    PaintedRow(r, s.rowsData[r], ToRgba(s.defaultFg), ToRgba(s.defaultBg), bg)
  }

  predicate Rebuilt(rows: seq<Option<CachedPaintRow>>, flags: seq<bool>, r: int)
    requires 0 <= r < |rows| == |flags|
  {
    flags[r] || rows[r].None?
  }

  function RowAfterPaint(rows: seq<Option<CachedPaintRow>>, flags: seq<bool>, s: Snapshot, bg: Rgba, r: nat): CachedPaintRow
    requires r < |rows| == |flags| == |s.rowsData|
  {
    if Rebuilt(rows, flags, r) then FreshRow(s, bg, r) else rows[r].value
  }

  function RowsAfterPaint(rows: seq<Option<CachedPaintRow>>, flags: seq<bool>, s: Snapshot, bg: Rgba): seq<CachedPaintRow>
    requires |rows| == |flags| == |s.rowsData|
  {
    seq(|rows|, r requires 0 <= r < |rows| => RowAfterPaint(rows, flags, s, bg, r))
  }

  function CacheAfterPaint<V>(c: GridCache<V>, s: Snapshot, fg: Rgba, bg: Rgba): GridCache<V> {
    var p := Prepared(c, s, fg, bg);
    var rows := RowsAfterPaint(p.rowsData, FlagsAfterPaint(c, s, fg, bg), s, bg);
    p.(rowsData := seq(|rows|, r requires 0 <= r < |rows| => Some(rows[r])))
  }

  /** What one paint submits: only the rebuilt rows' glyphs and backgrounds. */
  datatype Submitted = Submitted(glyphs: seq<GlyphCell>, rebuilt: nat, reused: nat, backgrounds: nat)

  function SubmittedRows(rows: seq<Option<CachedPaintRow>>, flags: seq<bool>, s: Snapshot, bg: Rgba, n: nat): Submitted
    requires n <= |rows| == |flags| == |s.rowsData|
  {
    if n == 0 then Submitted([], 0, 0, 0)
    else
      var before := SubmittedRows(rows, flags, s, bg, n - 1);
      if Rebuilt(rows, flags, n - 1) then
        var row := FreshRow(s, bg, n - 1);
        Submitted(before.glyphs + row.glyphCells, before.rebuilt + 1, before.reused,
                  before.backgrounds + |row.rowInput.backgroundRuns| + 1)
      else before.(reused := before.reused + 1)
  }

  function PaintInputOf<V>(c: GridCache<V>, s: Snapshot, fg: Rgba, bg: Rgba): PaintInput {
    var rows := Prepared(c, s, fg, bg).rowsData;
    var flags := FlagsAfterPaint(c, s, fg, bg);
    var after := RowsAfterPaint(rows, flags, s, bg);
    var sub := SubmittedRows(rows, flags, s, bg, |rows|);
    PaintInput(s.sessionId, s.cols, s.rows, bg, RowInputs(after),
               sub.glyphs, |s.damage.rows|, s.damage.cells, sub.rebuilt, sub.reused, sub.backgrounds, flags)
  }

  function RowInputs(rows: seq<CachedPaintRow>): seq<PaintRowInput> {
    seq(|rows|, r requires 0 <= r < |rows| => rows[r].rowInput)
  }

  // ----- the row views of one frame -----

  /** The row shown for row `r`: the cached one, else one put together from the paint input. */
  function RowViewPayload(input: PaintInput, cached: seq<Option<CachedPaintRow>>, r: nat): CachedPaintRow
    requires r < |input.rowsData|
  {
    if r < |cached| && cached[r].Some? then cached[r].value
    else CachedPaintRow(input.rowsData[r], GlyphsOfRow(input.glyphCells, r))
  }

  function GlyphsOfRow(glyphs: seq<GlyphCell>, r: nat): seq<GlyphCell> {
    if glyphs == [] then []
    else (if glyphs[0].rowIndex == r then [glyphs[0]] else []) + GlyphsOfRow(glyphs[1..], r)
  }

  function ViewSlots<V>(c: GridCache<V>, n: nat): (slots: seq<Option<V>>)
    ensures |slots| == n
  {
    if |c.rowViews| == n then c.rowViews else Nones(n)
  }

  predicate FlagOrMissing(flags: seq<bool>, r: nat) {
    r < |flags| ==> flags[r]
  }

  /** The content of the view of row `r` after the frame. */
  function ViewAfter(input: PaintInput, c: GridCache<ViewContent>, r: nat): ViewContent
    requires r < |input.rowsData|
  {
    var slot := ViewSlots(c, |input.rowsData|)[r];
    if slot.Some? && !FlagOrMissing(input.rebuiltRowFlags, r) then slot.value
    else ViewContent(input.cols, RowViewPayload(input, c.rowsData, r))
  }

  function CacheAfterViews(input: PaintInput, c: GridCache<ViewContent>): GridCache<ViewContent> {
    c.(rowViews := seq(|input.rowsData|, r requires 0 <= r < |input.rowsData| => Some(ViewAfter(input, c, r))))
  }

  // ----- the mutable cache -----

  function Content(slot: Option<RowView>): Option<ViewContent>
    reads if slot.Some? then {slot.value} else {}
  {
    match slot
    case None => None
    case Some(view) => Some(view.Shows())
  }

  function ViewsOf(c: GridCache<RowView>): set<RowView> {
    set i | 0 <= i < |c.rowViews| && c.rowViews[i].Some? :: c.rowViews[i].value
  }

  /** `c` with every view replaced by what it shows. */
  function Contents(c: GridCache<RowView>): GridCache<ViewContent>
    reads ViewsOf(c)
  {
    GridCache(c.cols, c.rows, c.defaultFg, c.defaultBg, c.rowsData,
              seq(|c.rowViews|, i requires 0 <= i < |c.rowViews| reads ViewsOf(c) => Content(c.rowViews[i])))
  }

  /** No two slots hold the same view. */
  ghost predicate Unshared(slots: seq<Option<RowView>>) {
    forall i, j :: 0 <= i < j < |slots| && slots[i].Some? ==> slots[i] != slots[j]
  }

  /** No view is shared, neither within a session nor between two. */
  ghost predicate NoneShared(sessions: map<string, GridCache<RowView>>) {
    && (forall id :: id in sessions ==> Unshared(sessions[id].rowViews))
    && (forall id, other :: id in sessions && other in sessions && id != other ==>
          ViewsOf(sessions[id]) !! ViewsOf(sessions[other]))
  }

  lemma ReplacedStaysUnshared(sessions: map<string, GridCache<RowView>>, id: string, cache: GridCache<RowView>,
                              created: set<RowView>)
    requires NoneShared(sessions) && id in sessions && Unshared(cache.rowViews)
    requires ViewsOf(cache) <= ViewsOf(sessions[id]) + created
    requires forall other :: other in sessions ==> ViewsOf(sessions[other]) !! created
    ensures NoneShared(sessions[id := cache])
  {
  }

  class TerminalRenderCache {
    var sessions: map<string, GridCache<RowView>>

    constructor ()
      ensures sessions == map[]
    {
      sessions := map[];
    }

    ghost predicate Valid()
      reads this
    {
      NoneShared(sessions)
    }

    function Entry(s: Snapshot, fg: Rgba, bg: Rgba): GridCache<RowView>
      reads this
    {
      if s.sessionId in sessions then sessions[s.sessionId] else NewCache(s, fg, bg)
    }

    method TerminalPaintInput(s: Snapshot, fg: Rgba, bg: Rgba) returns (input: PaintInput)
      requires Valid()
      modifies this
      ensures Valid()
      ensures input == PaintInputOf(old(Entry(s, fg, bg)), s, fg, bg)
      ensures sessions == old(sessions)[s.sessionId := CacheAfterPaint(old(Entry(s, fg, bg)), s, fg, bg)]
    {
      ghost var before := Entry(s, fg, bg);
      var cache := if s.sessionId in sessions then sessions[s.sessionId] else NewCache(s, fg, bg);
      var n := |s.rowsData|;
      var cacheInvalid := CacheInvalid(cache, s, fg, bg);
      if cacheInvalid {
        cache := GridCache(s.cols, s.rows, fg, bg, Nones(n), Nones(n));
      }
      assert cache == Prepared(before, s, fg, bg);
      var flags := DirtyRowFlags(s, cacheInvalid || s.damage.full);
      assert flags == FlagsAfterPaint(before, s, fg, bg);
      var rows, rowsData, submitted := RebuildRows(cache.rowsData, flags, s, bg);
      cache := cache.(rowsData := rows);
      assert cache.rowsData == CacheAfterPaint(before, s, fg, bg).rowsData;
      assert Unshared(cache.rowViews) && ViewsOf(cache) <= ViewsOf(before);
      sessions := sessions[s.sessionId := cache];
      input := PaintInput(s.sessionId, s.cols, s.rows, bg, rowsData, submitted.glyphs, |s.damage.rows|, s.damage.cells,
                          submitted.rebuilt, submitted.reused, submitted.backgrounds, flags);
    }

    method TerminalRowViewsForInput(input: PaintInput) returns (views: seq<RowView>)
      requires Valid()
      modifies this, if input.sessionId in sessions then ViewsOf(sessions[input.sessionId]) else {}
      ensures Valid()
      ensures input.sessionId !in old(sessions) ==> views == [] && sessions == old(sessions)
      ensures input.sessionId in old(sessions) ==>
                && sessions.Keys == old(sessions).Keys
                && |views| == |input.rowsData|
                && sessions[input.sessionId].rowViews == seq(|views|, i requires 0 <= i < |views| => Some(views[i]))
                && KeepsViews(old(sessions)[input.sessionId], views)
                && Contents(sessions[input.sessionId]) ==
                     CacheAfterViews(input, old(Contents(sessions[input.sessionId])))
                && (forall other :: other in sessions && other != input.sessionId ==>
                      && sessions[other] == old(sessions)[other]
                      && Contents(sessions[other]) == old(Contents(sessions[other])))
    {
      if input.sessionId !in sessions {
        return [];
      }
      var cache;
      cache, views := RefreshViews(input, sessions[input.sessionId]);
      assert forall other :: other in sessions && other != input.sessionId ==>
          Contents(sessions[other]) == old(Contents(sessions[other]));
      ReplacedStaysUnshared(sessions, input.sessionId, cache, ViewsOf(cache) - ViewsOf(sessions[input.sessionId]));
      sessions := sessions[input.sessionId := cache];
    }
  }

  /** A row that had a view keeps it, unless the number of rows changed. */
  ghost predicate KeepsViews(c: GridCache<RowView>, views: seq<RowView>) {
    |c.rowViews| == |views| ==> forall i :: 0 <= i < |views| && c.rowViews[i].Some? ==> c.rowViews[i] == Some(views[i])
  }

  /** One row's view: updated in place when flagged, created when missing. */
  method RefreshView(slot: Option<RowView>, flagged: bool, cols: u16, row: CachedPaintRow) returns (view: RowView)
    modifies if slot.Some? then {slot.value} else {}
    ensures slot.Some? ==> view == slot.value
    ensures slot.None? ==> fresh(view)
    ensures view.Shows() == if slot.Some? && !flagged then old(slot.value.Shows()) else ViewContent(cols, row)
  {
    if slot.Some? {
      view := slot.value;
      if flagged {
        view.Update(cols, row);
      }
    } else {
      view := new RowView(cols, row);
    }
  }

  /** The row-view loop, on one session's cache. */
  method RefreshViews(input: PaintInput, c: GridCache<RowView>) returns (cache: GridCache<RowView>, views: seq<RowView>)
    requires Unshared(c.rowViews)
    modifies ViewsOf(c)
    ensures |views| == |input.rowsData|
    ensures cache.rowViews == seq(|views|, i requires 0 <= i < |views| => Some(views[i]))
    ensures Unshared(cache.rowViews)
    ensures fresh(ViewsOf(cache) - ViewsOf(c))
    ensures KeepsViews(c, views)
    ensures Contents(cache) == CacheAfterViews(input, old(Contents(c)))
  {
    ghost var before := Contents(c);
    var n := |input.rowsData|;
    cache := c;
    if |cache.rowViews| != n {
      cache := cache.(rowViews := Nones(n));
    }
    ghost var slots := cache.rowViews;
    ghost var created: set<RowView> := {};
    SlotContents(c, n);
    views := [];
    var r := 0;
    while r < n
      invariant 0 <= r <= n && |views| == r
      invariant cache == c.(rowViews := cache.rowViews) && |cache.rowViews| == n
      invariant forall i :: 0 <= i < r ==> cache.rowViews[i] == Some(views[i])
      invariant forall i :: r <= i < n ==> cache.rowViews[i] == slots[i]
      invariant fresh(created)
      invariant forall i :: 0 <= i < r ==> slots[i] == Some(views[i]) || (slots[i].None? && views[i] in created)
      invariant Unshared(cache.rowViews)
      invariant forall i :: 0 <= i < r ==> views[i].Shows() == ViewAfter(input, before, i)
      invariant forall i :: r <= i < n ==> Content(slots[i]) == ViewSlots(before, n)[i]
    {
      var row := RowViewPayload(input, c.rowsData, r);
      var view := RefreshView(cache.rowViews[r], FlagOrMissing(input.rebuiltRowFlags, r), input.cols, row);
      assert forall i :: 0 <= i < n && i != r ==> cache.rowViews[i] != Some(view);
      if slots[r].None? {
        created := created + {view};
      }
      cache := cache.(rowViews := cache.rowViews[r := Some(view)]);
      views := views + [view];
      r := r + 1;
    }
    OwnedOrCreated(c, cache, slots, views, created);
    ShownByViews(input, before, cache, views);
  }

  lemma SlotContents(c: GridCache<RowView>, n: nat)
    ensures forall i :: 0 <= i < n ==> Content(ViewSlots(c, n)[i]) == ViewSlots(Contents(c), n)[i]
  {
  }

  lemma OwnedOrCreated(c: GridCache<RowView>, cache: GridCache<RowView>, slots: seq<Option<RowView>>,
                       views: seq<RowView>, created: set<RowView>)
    requires slots == ViewSlots(c, |views|) && |cache.rowViews| == |views|
    requires forall i :: 0 <= i < |views| ==> cache.rowViews[i] == Some(views[i])
    requires forall i :: 0 <= i < |views| ==> slots[i] == Some(views[i]) || (slots[i].None? && views[i] in created)
    ensures ViewsOf(cache) <= ViewsOf(c) + created
    ensures KeepsViews(c, views)
  {
    forall v | v in ViewsOf(cache) ensures v in ViewsOf(c) + created {
      var i :| 0 <= i < |cache.rowViews| && cache.rowViews[i] == Some(v);
      assert slots[i] == Some(v) ==> c.rowViews[i] == Some(v);
    }
  }

  lemma ShownByViews(input: PaintInput, before: GridCache<ViewContent>, cache: GridCache<RowView>, views: seq<RowView>)
    requires |views| == |input.rowsData| == |cache.rowViews|
    requires before.cols == cache.cols && before.rows == cache.rows && before.rowsData == cache.rowsData
    requires before.defaultFg == cache.defaultFg && before.defaultBg == cache.defaultBg
    requires forall i :: 0 <= i < |views| ==> cache.rowViews[i] == Some(views[i])
    requires forall i :: 0 <= i < |views| ==> views[i].Shows() == ViewAfter(input, before, i)
    ensures Contents(cache) == CacheAfterViews(input, before)
  {
    assert Contents(cache).rowViews == CacheAfterViews(input, before).rowViews;
  }

  /** The row loop of one paint: rebuild the flagged and missing rows, reuse the others. */
  method RebuildRows(cached: seq<Option<CachedPaintRow>>, flags: seq<bool>, s: Snapshot, bg: Rgba)
    returns (rows: seq<Option<CachedPaintRow>>, rowsData: seq<PaintRowInput>, submitted: Submitted)
    requires |cached| == |flags| == |s.rowsData|
    ensures |rows| == |cached|
    ensures forall r :: 0 <= r < |rows| ==> rows[r] == Some(RowAfterPaint(cached, flags, s, bg, r))
    ensures rowsData == RowInputs(RowsAfterPaint(cached, flags, s, bg))
    ensures submitted == SubmittedRows(cached, flags, s, bg, |rows|)
  {
    rows, rowsData := cached, [];
    var glyphCells: seq<GlyphCell> := [];
    var rebuiltRows: nat, reusedRows: nat, repaintBackgrounds: nat := 0, 0, 0;
    var rowIndex := 0;
    while rowIndex < |s.rowsData|
      invariant 0 <= rowIndex <= |s.rowsData|
      invariant |rows| == |cached| && |rowsData| == rowIndex
      invariant forall r :: 0 <= r < rowIndex ==> rows[r] == Some(RowAfterPaint(cached, flags, s, bg, r))
      invariant forall r :: rowIndex <= r < |rows| ==> rows[r] == cached[r]
      invariant forall r :: 0 <= r < rowIndex ==> rowsData[r] == RowAfterPaint(cached, flags, s, bg, r).rowInput
      invariant Submitted(glyphCells, rebuiltRows, reusedRows, repaintBackgrounds) ==
                  SubmittedRows(cached, flags, s, bg, rowIndex)
    {
      var rebuildRow := flags[rowIndex] || rows[rowIndex].None?;
      var cachedRow;
      if rebuildRow {
        rebuiltRows := rebuiltRows + 1;
        cachedRow := TerminalCachedPaintRow(rowIndex, s.rowsData[rowIndex], s, bg);
        rows := rows[rowIndex := Some(cachedRow)];
      } else {
        reusedRows := reusedRows + 1;
        cachedRow := rows[rowIndex].value;
      }
      if rebuildRow {
        glyphCells := glyphCells + cachedRow.glyphCells;
        repaintBackgrounds := repaintBackgrounds + |cachedRow.rowInput.backgroundRuns| + 1;
      }
      rowsData := rowsData + [cachedRow.rowInput];
      rowIndex := rowIndex + 1;
    }
    submitted := Submitted(glyphCells, rebuiltRows, reusedRows, repaintBackgrounds);
  }

  /** The rebuilt-row flags before the missing rows are considered. */
  method DirtyRowFlags(s: Snapshot, all: bool) returns (flags: seq<bool>)
    ensures |flags| == |s.rowsData|
    ensures forall r :: 0 <= r < |flags| ==> flags[r] == (all || r in s.damage.rows)
  {
    flags := seq(|s.rowsData|, _ => all);
    var i := 0;
    while i < |s.damage.rows|
      invariant 0 <= i <= |s.damage.rows| && |flags| == |s.rowsData|
      invariant forall r :: 0 <= r < |flags| ==> flags[r] == (all || r in s.damage.rows[..i])
    {
      var row := s.damage.rows[i];
      if row < |flags| {
        flags := flags[row := true];
      }
      i := i + 1;
    }
    assert s.damage.rows[..i] == s.damage.rows;
  }

  // ----- what one paint submits -----

  lemma {:induction false} GlyphsOfRowConcat(a: seq<GlyphCell>, b: seq<GlyphCell>, r: nat)
    ensures GlyphsOfRow(a + b, r) == GlyphsOfRow(a, r) + GlyphsOfRow(b, r)
  {
    if a == [] {
      assert a + b == b;
    } else {
      TailOfConcat(a, b);
      GlyphsOfRowConcat(a[1..], b, r);
      Assoc(if a[0].rowIndex == r then [a[0]] else [], GlyphsOfRow(a[1..], r), GlyphsOfRow(b, r));
    }
  }

  lemma {:induction false} GlyphsAllOfRow(glyphs: seq<GlyphCell>, q: nat, r: nat)
    requires forall g :: g in glyphs ==> g.rowIndex == q
    ensures GlyphsOfRow(glyphs, r) == if q == r then glyphs else []
  {
    if glyphs != [] {
      assert glyphs[0] in glyphs;
      GlyphsAllOfRow(glyphs[1..], q, r);
      assert [glyphs[0]] + glyphs[1..] == glyphs;
    }
  }

  lemma GlyphsOfNextRow(before: seq<GlyphCell>, glyphs: seq<GlyphCell>, q: nat, r: nat)
    requires forall g :: g in glyphs ==> g.rowIndex == q
    requires q == r ==> GlyphsOfRow(before, r) == []
    ensures GlyphsOfRow(before + glyphs, r) == if q == r then glyphs else GlyphsOfRow(before, r)
  {
    GlyphsOfRowConcat(before, glyphs, r);
    GlyphsAllOfRow(glyphs, q, r);
    assert [] + glyphs == glyphs && GlyphsOfRow(before, r) + [] == GlyphsOfRow(before, r);
  }

  lemma FreshRowIsOfRow(s: Snapshot, bg: Rgba, q: nat)
    requires q < |s.rowsData|
    ensures forall g :: g in FreshRow(s, bg, q).glyphCells ==> g.rowIndex == q
  {
    forall g | g in FreshRow(s, bg, q).glyphCells ensures g.rowIndex == q {
      RowGlyphsAtOwnColumns(q, s.rowsData[q], ToRgba(s.defaultFg), ToRgba(s.defaultBg), g);
    }
  }

  /** The rows below `n` that are rebuilt. */
  function RebuiltBelow(rows: seq<Option<CachedPaintRow>>, flags: seq<bool>, n: nat): set<int>
    requires n <= |rows| == |flags|
  {
    set r | 0 <= r < n && Rebuilt(rows, flags, r)
  }

  lemma {:induction false} SubmittedGlyphs(rows: seq<Option<CachedPaintRow>>, flags: seq<bool>, s: Snapshot, bg: Rgba,
                                           n: nat, r: nat)
    requires n <= |rows| == |flags| == |s.rowsData| && r < |rows|
    ensures GlyphsOfRow(SubmittedRows(rows, flags, s, bg, n).glyphs, r) ==
            if r < n && Rebuilt(rows, flags, r) then FreshRow(s, bg, r).glyphCells else []
  {
    if n > 0 {
      SubmittedGlyphs(rows, flags, s, bg, n - 1, r);
      if Rebuilt(rows, flags, n - 1) {
        FreshRowIsOfRow(s, bg, n - 1);
        GlyphsOfNextRow(SubmittedRows(rows, flags, s, bg, n - 1).glyphs, FreshRow(s, bg, n - 1).glyphCells, n - 1, r);
      }
    }
  }

  lemma {:induction false} SubmittedWithin(rows: seq<Option<CachedPaintRow>>, flags: seq<bool>, s: Snapshot, bg: Rgba, n: nat)
    requires n <= |rows| == |flags| == |s.rowsData|
    ensures forall g :: g in SubmittedRows(rows, flags, s, bg, n).glyphs ==> g.rowIndex < n
  {
    if n > 0 {
      SubmittedWithin(rows, flags, s, bg, n - 1);
      FreshRowIsOfRow(s, bg, n - 1);
    }
  }

  lemma {:induction false} SubmittedCounts(rows: seq<Option<CachedPaintRow>>, flags: seq<bool>, s: Snapshot, bg: Rgba, n: nat)
    requires n <= |rows| == |flags| == |s.rowsData|
    ensures var sub := SubmittedRows(rows, flags, s, bg, n);
            sub.rebuilt == |RebuiltBelow(rows, flags, n)| && sub.rebuilt + sub.reused == n
  {
    if n == 0 {
      assert RebuiltBelow(rows, flags, 0) == {};
    } else {
      SubmittedCounts(rows, flags, s, bg, n - 1);
      var below := RebuiltBelow(rows, flags, n - 1);
      assert RebuiltBelow(rows, flags, n) == if Rebuilt(rows, flags, n - 1) then below + {n - 1} else below;
    }
  }

  /**
    * One paint submits the glyphs of the rebuilt rows, row by row, and no others; put together with the row's
    * input they are that row painted from scratch. Every row is either rebuilt or reused.
    */
  lemma SubmittedExactly<V>(c: GridCache<V>, s: Snapshot, fg: Rgba, bg: Rgba, r: nat)
    requires r < |s.rowsData|
    ensures var input, rows := PaintInputOf(c, s, fg, bg), Prepared(c, s, fg, bg).rowsData;
            var rebuilt := Rebuilt(rows, FlagsAfterPaint(c, s, fg, bg), r);
            && (rebuilt ==> CachedPaintRow(input.rowsData[r], GlyphsOfRow(input.glyphCells, r)) == FreshRow(s, bg, r))
            && (!rebuilt ==> GlyphsOfRow(input.glyphCells, r) == [])
            && (forall g :: g in input.glyphCells ==> g.rowIndex < |s.rowsData|)
            && input.rebuiltRows + input.reusedRows == |s.rowsData|
            && input.rebuiltRows == |RebuiltBelow(rows, FlagsAfterPaint(c, s, fg, bg), |s.rowsData|)|
            && input.dirtyRows == |s.damage.rows| && input.dirtyCells == s.damage.cells
  {
    var rows, flags := Prepared(c, s, fg, bg).rowsData, FlagsAfterPaint(c, s, fg, bg);
    SubmittedGlyphs(rows, flags, s, bg, |s.rowsData|, r);
    SubmittedWithin(rows, flags, s, bg, |s.rowsData|);
    SubmittedCounts(rows, flags, s, bg, |s.rowsData|);
  }
}
