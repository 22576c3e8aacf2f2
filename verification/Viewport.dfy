/** Scrolling the row of columns so that the active one is in view. Real arithmetic. */
module Viewport {
  import opened Common
  import opened Layout

  const TASKSPACE_PANEL_GAP := 12.0

  function RealMax(a: real, b: real): real {
    if a < b then b else a
  }

  /** The columns that are laid out, in order: those of the center order that exist. */
  function Shown(s: WorkspaceSnapshot, ids: seq<string>): seq<WorkspaceColumn> {
    if ids == [] then []
    else if ids[|ids| - 1] in s.columns then Shown(s, ids[..|ids| - 1]) + [s.columns[ids[|ids| - 1]]]
    else Shown(s, ids[..|ids| - 1])
  }

  /** The width of columns side by side, one gap between neighbours. */
  function TotalWidth(columns: seq<WorkspaceColumn>): real {
    if columns == [] then 0.0
    else
      var before, last := columns[..|columns| - 1], columns[|columns| - 1];
      if before == [] then last.widthPx else TotalWidth(before) + TASKSPACE_PANEL_GAP + last.widthPx
  }

  /** Where the k-th column starts. */
  function LeftOf(columns: seq<WorkspaceColumn>, k: nat): real
    requires k < |columns|
  {
    if k == 0 then 0.0 else TotalWidth(columns[..k]) + TASKSPACE_PANEL_GAP
  }

  /** The last column that holds the pane. */
  function LastHolding(columns: seq<WorkspaceColumn>, paneId: string): (r: Option<nat>)
    ensures r.Some? ==> r.value < |columns|
    ensures r.Some? ==> paneId in Elements(columns[r.value].paneIds)
    ensures r.None? ==> forall i :: 0 <= i < |columns| ==> paneId !in Elements(columns[i].paneIds)
  {
    if columns == [] then None
    else if paneId in Elements(columns[|columns| - 1].paneIds) then Some(|columns| - 1)
    else LastHolding(columns[..|columns| - 1], paneId)
  }

  datatype Metrics = Metrics(left: real, width: real, total: real)

  function ActivePane(s: WorkspaceSnapshot): Option<string> {
    if s.activePaneId.Some? then s.activePaneId else FirstCenterPaneId(s, s.centerColumnIds)
  }

  /** What is to be measured: start and width of the active pane's column, and the width of all. */
  function MetricsOf(s: WorkspaceSnapshot): Option<Metrics> {
    var columns := Shown(s, s.centerColumnIds);
    if ActivePane(s).None? then None
    else
      var k := LastHolding(columns, ActivePane(s).value);
      if k.None? then None
      else Some(Metrics(LeftOf(columns, k.value), columns[k.value].widthPx, TotalWidth(columns)))
  }

  function HeldMetrics(columns: seq<WorkspaceColumn>, paneId: string): Option<(real, real)> {
    var k := LastHolding(columns, paneId);
    if k.None? then None else Some((LeftOf(columns, k.value), columns[k.value].widthPx))
  }

  lemma HeldMetricsAppend(columns: seq<WorkspaceColumn>, c: WorkspaceColumn, paneId: string)
    ensures HeldMetrics(columns + [c], paneId) ==
            if paneId in Elements(c.paneIds) then
              Some((if columns == [] then 0.0 else TotalWidth(columns) + TASKSPACE_PANEL_GAP, c.widthPx))
            else HeldMetrics(columns, paneId)
    ensures TotalWidth(columns + [c]) ==
            if columns == [] then c.widthPx else TotalWidth(columns) + TASKSPACE_PANEL_GAP + c.widthPx
  {
    var more := columns + [c];
    assert more[..|more| - 1] == columns;
    if paneId !in Elements(c.paneIds) {
      var k := LastHolding(columns, paneId);
      if k.Some? { assert more[..k.value] == columns[..k.value]; }
    }
  }

  /** What the i-th column adds to the columns shown, their total width and the metrics. */
  lemma ShownStep(s: WorkspaceSnapshot, ids: seq<string>, i: nat, paneId: string)
    requires i < |ids|
    ensures ids[i] !in s.columns ==> Shown(s, ids[..i + 1]) == Shown(s, ids[..i])
    ensures ids[i] in s.columns ==>
              var before, c := Shown(s, ids[..i]), s.columns[ids[i]];
              var start := if before == [] then 0.0 else TotalWidth(before) + TASKSPACE_PANEL_GAP;
              && |Shown(s, ids[..i + 1])| == |before| + 1
              && TotalWidth(Shown(s, ids[..i + 1])) == start + c.widthPx
              && HeldMetrics(Shown(s, ids[..i + 1]), paneId) ==
                 if paneId in Elements(c.paneIds) then Some((start, c.widthPx)) else HeldMetrics(before, paneId)
  {
    assert ids[..i + 1][..i] == ids[..i];
    if ids[i] in s.columns {
      HeldMetricsAppend(Shown(s, ids[..i]), s.columns[ids[i]], paneId);
    }
  }

  method ActiveColumnMetrics(s: WorkspaceSnapshot) returns (r: Option<Metrics>)
    ensures r == MetricsOf(s)
  {
    var activePaneId := s.activePaneId;
    if activePaneId.None? {
      activePaneId := FirstCenterPaneId(s, s.centerColumnIds);
      if activePaneId.None? { return None; }
    }
    var totalWidth := 0.0;
    var active: Option<(real, real)> := None;
    var visibleColumnCount := 0;
    var i := 0;
    while i < |s.centerColumnIds|
      invariant 0 <= i <= |s.centerColumnIds|
      invariant visibleColumnCount == |Shown(s, s.centerColumnIds[..i])|
      invariant totalWidth == TotalWidth(Shown(s, s.centerColumnIds[..i]))
      invariant active == HeldMetrics(Shown(s, s.centerColumnIds[..i]), activePaneId.value)
    {
      var columnId := s.centerColumnIds[i];
      ShownStep(s, s.centerColumnIds, i, activePaneId.value);
      if columnId in s.columns {
        var column := s.columns[columnId];
        if visibleColumnCount > 0 {
          totalWidth := totalWidth + TASKSPACE_PANEL_GAP;
        }
        if activePaneId.value in Elements(column.paneIds) {
          active := Some((totalWidth, column.widthPx));
        }
        totalWidth := totalWidth + column.widthPx;
        visibleColumnCount := visibleColumnCount + 1;
      }
      i := i + 1;
    }
    assert s.centerColumnIds[..i] == s.centerColumnIds;
    if active.None? { return None; }
    r := Some(Metrics(active.value.0, active.value.1, totalWidth));
  }

  function Offset(metrics: Option<Metrics>, viewportWidth: real): real {
    if metrics.None? then 0.0
    else
      var m := metrics.value;
      var maxOffset := RealMax(m.total - viewportWidth, 0.0);
      var centered := m.left + m.width / 2.0 - viewportWidth / 2.0;
      if centered < 0.0 then 0.0 else if centered > maxOffset then maxOffset else centered
  }

  method TaskspaceViewportOffset(s: WorkspaceSnapshot, viewportWidth: real) returns (offset: real)
    ensures offset == Offset(MetricsOf(s), viewportWidth)
  {
    var metrics := ActiveColumnMetrics(s);
    offset := Offset(metrics, viewportWidth);
  }

  // ----- what the offset guarantees -----

  predicate NonNegativeWidths(columns: seq<WorkspaceColumn>) {
    forall i :: 0 <= i < |columns| ==> columns[i].widthPx >= 0.0
  }

  lemma {:induction false} TotalIsNonNegative(columns: seq<WorkspaceColumn>)
    requires NonNegativeWidths(columns)
    ensures TotalWidth(columns) >= 0.0
  {
    if columns != [] { TotalIsNonNegative(columns[..|columns| - 1]); }
  }

  /** Each column lies within the total width. */
  lemma {:induction false} ColumnWithinTotal(columns: seq<WorkspaceColumn>, k: nat)
    requires NonNegativeWidths(columns) && k < |columns|
    ensures 0.0 <= LeftOf(columns, k) && LeftOf(columns, k) + columns[k].widthPx <= TotalWidth(columns)
  {
    var before := columns[..|columns| - 1];
    TotalIsNonNegative(columns[..k]);
    if k < |before| {
      ColumnWithinTotal(before, k);
      assert before[..k] == columns[..k];
    }
  }

  lemma {:induction false} ShownWidths(s: WorkspaceSnapshot, ids: seq<string>)
    requires forall c :: c in s.columns ==> s.columns[c].widthPx >= 0.0
    ensures NonNegativeWidths(Shown(s, ids))
  {
    if ids != [] { ShownWidths(s, ids[..|ids| - 1]); }
  }

  /**
    * For any non-negative widths and any viewport: the offset stays between 0 and the widest scroll there is;
    * the whole active column is in view if and only if it is no wider than the viewport, and one that is
    * wider fills the viewport from edge to edge.
    */
  lemma ActiveColumnInView(s: WorkspaceSnapshot, viewportWidth: real)
    requires forall c :: c in s.columns ==> s.columns[c].widthPx >= 0.0
    ensures var metrics := MetricsOf(s);
            var offset := Offset(metrics, viewportWidth);
            && (metrics.None? ==> offset == 0.0)
            && (metrics.Some? ==>
                  var m := metrics.value;
                  && 0.0 <= offset <= RealMax(m.total - viewportWidth, 0.0)
                  && (offset <= m.left && m.left + m.width <= offset + viewportWidth <==> m.width <= viewportWidth)
                  && (m.width > viewportWidth ==> m.left <= offset && offset + viewportWidth <= m.left + m.width))
  {
    var columns := Shown(s, s.centerColumnIds);
    if MetricsOf(s).Some? {
      ShownWidths(s, s.centerColumnIds);
      ColumnWithinTotal(columns, LastHolding(columns, ActivePane(s).value).value);
    }
  }

  lemma {:induction false} ShownHolds(s: WorkspaceSnapshot, ids: seq<string>, columnId: string)
    requires columnId in Elements(ids) && columnId in s.columns
    ensures exists i :: 0 <= i < |Shown(s, ids)| && Shown(s, ids)[i] == s.columns[columnId]
  {
    var front, last := ids[..|ids| - 1], ids[|ids| - 1];
    ElementsConcat(front, [last]);
    SingleElement(last);
    assert front + [last] == ids;
    if columnId == last {
      assert Shown(s, ids)[|Shown(s, ids)| - 1] == s.columns[columnId];
    } else {
      ShownHolds(s, front, columnId);
      var i :| 0 <= i < |Shown(s, front)| && Shown(s, front)[i] == s.columns[columnId];
      assert Shown(s, ids)[i] == s.columns[columnId];
    }
  }

  lemma FirstPaneIsPresent(s: WorkspaceSnapshot, columnId: string)
    requires columnId in s.columns && GoodColumn(s, columnId)
    ensures s.columns[columnId].paneIds[0] in s.panes
  {
    var panes := s.columns[columnId].paneIds;
    assert panes[0] in Elements(panes);
  }

  /** A pane held by a column of the center order is measured. */
  lemma HeldIsMeasured(s: WorkspaceSnapshot, columnId: string, paneId: string)
    requires columnId in Elements(s.centerColumnIds) && Holds(s, columnId, paneId) && ActivePane(s) == Some(paneId)
    ensures MetricsOf(s).Some?
  {
    var columns := Shown(s, s.centerColumnIds);
    ShownHolds(s, s.centerColumnIds, columnId);
    var i :| 0 <= i < |columns| && columns[i] == s.columns[columnId];
    assert paneId in Elements(columns[i].paneIds);
  }

  lemma ColumnsMeanPanes(s: WorkspaceSnapshot)
    requires ColumnsAreGood(s) && CenterNamesColumns(s) && s.centerColumnIds != []
    ensures s.panes != map[]
  {
    assert s.centerColumnIds[0] in Elements(s.centerColumnIds);
    FirstPaneIsPresent(s, s.centerColumnIds[0]);
  }

  /** A well-formed layout can be measured exactly when it has panes. */
  lemma WellFormedIsMeasured(s: WorkspaceSnapshot)
    requires WellFormed(s)
    ensures MetricsOf(s).Some? <==> s.panes != map[]
  {
    if s.centerColumnIds != [] {
      ColumnsMeanPanes(s);
    }
    if s.panes != map[] {
      var p := s.activePaneId.value;
      assert InSomeColumn(s, p);
      var c :| c in s.columns && Holds(s, c, p);
      HeldIsMeasured(s, c, p);
    }
  }

  /**
    * In every layout that edits with new identifiers lead to, the active pane's column can be measured as
    * long as there are panes, and is wholly in view if and only if the viewport is wide enough for it.
    */
  lemma ReachableColumnInView(workspaceId: string, nowMs: int, edits: seq<(Edit, int)>, viewportWidth: real)
    requires AllFresh(DefaultSnapshot(workspaceId, nowMs), edits)
    ensures var s := After(DefaultSnapshot(workspaceId, nowMs), edits);
            && (MetricsOf(s).Some? <==> s.panes != map[])
            && (MetricsOf(s).Some? ==>
                  var m, offset := MetricsOf(s).value, Offset(MetricsOf(s), viewportWidth);
                  offset <= m.left && m.left + m.width <= offset + viewportWidth <==> m.width <= viewportWidth)
  {
    var start := DefaultSnapshot(workspaceId, nowMs);
    ReachableIsWellFormed(workspaceId, nowMs, edits);
    WellFormedAfter(start, edits);
    EditsKeepWidths(start, edits);
    WellFormedIsMeasured(After(start, edits));
    ActiveColumnInView(After(start, edits), viewportWidth);
  }

  // ----- what is measured and where it is scrolled to, without the functions above -----

  /** The room the listed columns take: the width of each that exists and a gap of twelve after it. */
  function Room(s: WorkspaceSnapshot, ids: seq<string>): real {
    if ids == [] then 0.0
    else
      var last := ids[|ids| - 1];
      Room(s, ids[..|ids| - 1]) + if last in s.columns then s.columns[last].widthPx + 12.0 else 0.0
  }

  /** The k-th listed column is the last one to hold the pane. */
  predicate HoldsLast(s: WorkspaceSnapshot, ids: seq<string>, paneId: string, k: nat) {
    k < |ids| && Holds(s, ids[k], paneId) && forall j :: k < j < |ids| ==> !Holds(s, ids[j], paneId)
  }

  predicate HeldAt(s: WorkspaceSnapshot, ids: seq<string>, paneId: string, k: nat, held: (real, real)) {
    HoldsLast(s, ids, paneId, k) && held == (Room(s, ids[..k]), s.columns[ids[k]].widthPx)
  }

  ghost predicate HeldSomewhere(s: WorkspaceSnapshot, ids: seq<string>, paneId: string, held: (real, real)) {
    exists k :: 0 <= k < |ids| && HeldAt(s, ids, paneId, k, held)
  }

  lemma {:induction false} RoomIsTotal(s: WorkspaceSnapshot, ids: seq<string>)
    ensures var columns := Shown(s, ids);
            if columns == [] then Room(s, ids) == 0.0 else TotalWidth(columns) + 12.0 == Room(s, ids)
  {
    if ids != [] {
      var front := ids[..|ids| - 1];
      RoomIsTotal(s, front);
      if ids[|ids| - 1] in s.columns {
        HeldMetricsAppend(Shown(s, front), s.columns[ids[|ids| - 1]], "");
      }
    }
  }

  lemma {:induction false} HeldByIndex(s: WorkspaceSnapshot, ids: seq<string>, paneId: string)
    ensures var held := HeldMetrics(Shown(s, ids), paneId);
            if held.None? then forall i :: 0 <= i < |ids| ==> !Holds(s, ids[i], paneId)
            else HeldSomewhere(s, ids, paneId, held.value)
  {
    if ids != [] {
      var n := |ids| - 1;
      var front, last := ids[..n], ids[n];
      HeldByIndex(s, front, paneId);
      RoomIsTotal(s, front);
      if last in s.columns {
        HeldMetricsAppend(Shown(s, front), s.columns[last], paneId);
      }
      if Holds(s, last, paneId) {
        assert HeldAt(s, ids, paneId, n, HeldMetrics(Shown(s, ids), paneId).value);
      } else {
        HeldInFront(s, front, last, paneId);
        assert front + [last] == ids;
      }
    }
  }

  /** A column that does not hold the pane changes nothing about where it is held. */
  lemma HeldInFront(s: WorkspaceSnapshot, front: seq<string>, last: string, paneId: string)
    requires !Holds(s, last, paneId)
    ensures forall held :: HeldSomewhere(s, front, paneId, held) ==> HeldSomewhere(s, front + [last], paneId, held)
  {
    forall held | HeldSomewhere(s, front, paneId, held) ensures HeldSomewhere(s, front + [last], paneId, held) {
      var k :| 0 <= k < |front| && HeldAt(s, front, paneId, k, held);
      assert (front + [last])[..k] == front[..k];
      assert HeldAt(s, front + [last], paneId, k, held);
    }
  }

  /** The pane to show: the active one or else the first of the center columns. */
  ghost predicate IsShownPane(s: WorkspaceSnapshot, paneId: string) {
    if s.activePaneId.Some? then s.activePaneId.value == paneId else IsFirstPane(s, s.centerColumnIds, Some(paneId))
  }

  ghost predicate MeasuresPane(s: WorkspaceSnapshot, m: Metrics, paneId: string) {
    && HeldSomewhere(s, s.centerColumnIds, paneId, (m.left, m.width))
    && m.total + 12.0 == Room(s, s.centerColumnIds)
  }

  /**
    * For any layout: the column measured is the last of the center order that holds the pane to show; it
    * starts right of the columns before it with a gap after each. Nothing is measured exactly when there is
    * no such pane or column.
    */
  lemma MeasuredByIndex(s: WorkspaceSnapshot, paneId: string)
    requires IsShownPane(s, paneId)
    ensures MetricsOf(s).Some? ==> MeasuresPane(s, MetricsOf(s).value, paneId)
    ensures MetricsOf(s).Some? <==> exists i :: 0 <= i < |s.centerColumnIds| && Holds(s, s.centerColumnIds[i], paneId)
  {
    ShownPaneIsActive(s, paneId);
    HeldByIndex(s, s.centerColumnIds, paneId);
    RoomIsTotal(s, s.centerColumnIds);
    if MetricsOf(s).Some? {
      var m := MetricsOf(s).value;
      var k :| 0 <= k < |s.centerColumnIds| && HeldAt(s, s.centerColumnIds, paneId, k, (m.left, m.width));
      assert Holds(s, s.centerColumnIds[k], paneId);
    }
  }

  lemma ShownPaneIsActive(s: WorkspaceSnapshot, paneId: string)
    requires IsShownPane(s, paneId)
    ensures ActivePane(s) == Some(paneId)
  {
    var ids, first := s.centerColumnIds, FirstCenterPaneId(s, s.centerColumnIds);
    if s.activePaneId.None? {
      FirstCenterByIndex(s, ids);
      var i :| 0 <= i < |ids| && IsFirstWithPanes(s, ids, i) && paneId == s.columns[ids[i]].paneIds[0];
      assert HasPanes(s, ids[i]) && first.Some?;
      var j :| 0 <= j < |ids| && IsFirstWithPanes(s, ids, j) && first.value == s.columns[ids[j]].paneIds[0];
      assert i == j;
    }
  }

  lemma NothingMeasured(s: WorkspaceSnapshot)
    requires s.activePaneId.None? && forall i :: 0 <= i < |s.centerColumnIds| ==> !HasPanes(s, s.centerColumnIds[i])
    ensures MetricsOf(s).None?
  {
    FirstCenterByIndex(s, s.centerColumnIds);
  }

  function Distance(a: real, b: real): real {
    if a < b then b - a else a - b
  }

  /**
    * Of all offsets from nothing to the widest scroll, the one chosen brings the middle of the viewport
    * nearest to the middle of the column; any other is farther off.
    */
  lemma OffsetIsNearest(m: Metrics, viewportWidth: real, other: real)
    requires 0.0 <= other && (other == 0.0 || other + viewportWidth <= m.total)
    ensures var offset, middle := Offset(Some(m), viewportWidth), m.left + m.width / 2.0;
            && 0.0 <= offset && (offset == 0.0 || offset + viewportWidth <= m.total)
            && Distance(offset + viewportWidth / 2.0, middle) <= Distance(other + viewportWidth / 2.0, middle)
            && (Distance(offset + viewportWidth / 2.0, middle) == Distance(other + viewportWidth / 2.0, middle) <==> offset == other)
  {
  }
}
