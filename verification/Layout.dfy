/** The workspace layout: panes in columns, added and removed one at a time. */
module Layout {
  import opened Common

  datatype PaneType = Shell | AgentShell | Note | Browser | Diff

  datatype PanePayload = Terminal(defaultWidthChars: u16) | OtherPayload

  datatype PaneState = PaneState(id: string, paneType: PaneType, title: string, payload: PanePayload)

  datatype WorkspaceColumn = WorkspaceColumn(
    id: string,
    paneIds: seq<string>,
    widthPx: real,
    heightFractions: seq<real>
  )

  datatype WorkspaceSnapshot = WorkspaceSnapshot(
    workspaceId: string,
    activePaneId: Option<string>,
    panes: map<string, PaneState>,
    columns: map<string, WorkspaceColumn>,
    centerColumnIds: seq<string>,
    pinnedLeftColumnId: Option<string>,
    pinnedRightColumnId: Option<string>,
    updatedAt: int
  )

  /** A pane that is not there is an error; a height missing at the pane's index is a panic. */
  datatype LayoutError = MissingPane(id: string) | HeightOutOfRange

  // ----- adding -----

  function DefaultSnapshot(workspaceId: string, nowMs: int): WorkspaceSnapshot {
    WorkspaceSnapshot(workspaceId, None, map[], map[], [], None, None, nowMs)
  }

  function DefaultColumnWidthPx(pane: PaneState): (width: real)
    ensures width > 0.0
  {
    if pane.payload.Terminal? && pane.payload.defaultWidthChars > 0 then
      pane.payload.defaultWidthChars as real * 8.0 + 24.0
    else
      match pane.paneType
      case Shell => 720.0
      case AgentShell => 840.0
      case Note => 420.0
      case Browser => 960.0
      case Diff => 900.0
  }

  function Added(s: WorkspaceSnapshot, pane: PaneState, columnId: string, nowMs: int): WorkspaceSnapshot {
    s.(panes := s.panes[pane.id := pane],
       columns := s.columns[columnId := WorkspaceColumn(columnId, [pane.id], DefaultColumnWidthPx(pane), [1.0])],
       centerColumnIds := s.centerColumnIds + [columnId],
       activePaneId := Some(pane.id),
       updatedAt := nowMs)
  }

  /** `columnId` is the identifier generated for the new column. */
  method AddPane(snapshot: WorkspaceSnapshot, pane: PaneState, columnId: string, nowMs: int)
    returns (s: WorkspaceSnapshot)
    ensures s == Added(snapshot, pane, columnId, nowMs)
  {
    s := snapshot;
    var width := DefaultColumnWidthPx(pane);
    s := s.(panes := s.panes[pane.id := pane]);
    s := s.(columns := s.columns[columnId := WorkspaceColumn(columnId, [pane.id], width, [1.0])]);
    s := s.(centerColumnIds := s.centerColumnIds + [columnId]);
    s := s.(activePaneId := Some(pane.id));
    s := s.(updatedAt := nowMs);
  }

  // ----- removing -----

  function IndexOf(ids: seq<string>, id: string): (r: Option<nat>)
    ensures r.Some? ==> r.value < |ids| && ids[r.value] == id && forall j :: 0 <= j < r.value ==> ids[j] != id
  {
    if ids == [] then None
    else if ids[0] == id then Some(0)
    else
      var rest := IndexOf(ids[1..], id);
      if rest.Some? then Some(rest.value + 1) else None
  }

  function RemoveAt<T>(s: seq<T>, i: nat): seq<T>
    requires i < |s|
  {
    s[..i] + s[i + 1..]
  }

  function Retain(ids: seq<string>, gone: set<string>): seq<string> {
    if ids == [] then []
    else (if ids[0] in gone then [] else [ids[0]]) + Retain(ids[1..], gone)
  }

  function NormalizeHeights(c: WorkspaceColumn): WorkspaceColumn {
    if c.paneIds == [] then c
    else if |c.heightFractions| != |c.paneIds| || c.heightFractions == [] then
      c.(heightFractions := seq(|c.paneIds|, _ => 1.0 / |c.paneIds| as real))
    else c
  }

  /** Whether taking the pane out of the column would index past its heights. */
  predicate Panics(c: WorkspaceColumn, paneId: string) {
    IndexOf(c.paneIds, paneId).Some? && IndexOf(c.paneIds, paneId).value >= |c.heightFractions|
  }

  function Without(c: WorkspaceColumn, paneId: string): WorkspaceColumn
    requires !Panics(c, paneId)
  {
    var index := IndexOf(c.paneIds, paneId);
    NormalizeHeights(
      if index.None? then c
      else c.(paneIds := RemoveAt(c.paneIds, index.value), heightFractions := RemoveAt(c.heightFractions, index.value)))
  }

  /** The first pane of the center columns, in order. */
  function FirstCenterPaneId(s: WorkspaceSnapshot, ids: seq<string>): Option<string> {
    if ids == [] then None
    else if ids[0] in s.columns && s.columns[ids[0]].paneIds != [] then Some(s.columns[ids[0]].paneIds[0])
    else FirstCenterPaneId(s, ids[1..])
  }

  predicate RemovalPanics(s: WorkspaceSnapshot, paneId: string) {
    exists c :: c in s.columns && Panics(s.columns[c], paneId)
  }

  function EmptiedColumns(s: WorkspaceSnapshot, paneId: string): set<string>
    requires !RemovalPanics(s, paneId)
  {
    set c | c in s.columns && Without(s.columns[c], paneId).paneIds == []
  }

  function Cleared(pin: Option<string>, gone: set<string>): Option<string> {
    if pin.Some? && pin.value in gone then None else pin
  }

  function Removed(s: WorkspaceSnapshot, paneId: string, nowMs: int): Result<WorkspaceSnapshot, LayoutError> {
    if paneId !in s.panes then Err(MissingPane(paneId))
    else if RemovalPanics(s, paneId) then Err(HeightOutOfRange)
    else
      var gone := EmptiedColumns(s, paneId);
      var t := s.(panes := s.panes - {paneId},
                  columns := map c | c in s.columns && c !in gone :: Without(s.columns[c], paneId),
                  centerColumnIds := Retain(s.centerColumnIds, gone),
                  pinnedLeftColumnId := Cleared(s.pinnedLeftColumnId, gone),
                  pinnedRightColumnId := Cleared(s.pinnedRightColumnId, gone),
                  updatedAt := nowMs);
      Ok(if s.activePaneId == Some(paneId) then t.(activePaneId := FirstCenterPaneId(t, t.centerColumnIds)) else t)
  }

  lemma {:induction false} RetainTwice(ids: seq<string>, a: set<string>, b: set<string>)
    ensures Retain(Retain(ids, a), b) == Retain(ids, a + b)
  {
    if ids != [] {
      RetainTwice(ids[1..], a, b);
      if ids[0] !in a {
        var kept := [ids[0]] + Retain(ids[1..], a);
        assert kept[1..] == Retain(ids[1..], a);
      } else {
        assert [] + Retain(ids[1..], a) == Retain(ids[1..], a);
      }
    }
  }

  lemma {:induction false} RetainAll(ids: seq<string>)
    ensures Retain(ids, {}) == ids
  {
    if ids != [] {
      RetainAll(ids[1..]);
      assert [ids[0]] + ids[1..] == ids;
    }
  }

  function Elements(ids: seq<string>): set<string> {
    set i | 0 <= i < |ids| :: ids[i]
  }

  lemma ElementsAppend(ids: seq<string>, id: string)
    ensures Elements(ids + [id]) == Elements(ids) + {id}
  {
    var more := ids + [id];
    assert more[|ids|] == id;
    forall x | x in Elements(ids) ensures x in Elements(more) {
      var i :| 0 <= i < |ids| && ids[i] == x;
      assert more[i] == x;
    }
  }

  /** One turn of the first loop: the pane leaves the column, whose heights are put right if it still holds panes. */
  method TakeFromColumn(c: WorkspaceColumn, paneId: string) returns (column: WorkspaceColumn, panicked: bool)
    ensures if panicked then Panics(c, paneId) else IsWithout(c, column, paneId)
  {
    column, panicked := c, false;
    var index := IndexOf(column.paneIds, paneId);
    if index.Some? {
      column := column.(paneIds := RemoveAt(column.paneIds, index.value));
      if index.value >= |column.heightFractions| { return column, true; }
      column := column.(heightFractions := RemoveAt(column.heightFractions, index.value));
    }
    if column.paneIds != [] {
      column := NormalizeHeights(column);
    }
  }

  predicate IsWithout(before: WorkspaceColumn, after: WorkspaceColumn, paneId: string) {
    !Panics(before, paneId) && after == Without(before, paneId)
  }

  predicate IsEmpty(c: WorkspaceColumn) {
    c.paneIds == []
  }

  lemma AllTaken(s: WorkspaceSnapshot, columns: map<string, WorkspaceColumn>, emptied: seq<string>, paneId: string)
    requires columns.Keys == s.columns.Keys
    requires forall c :: c in s.columns ==> IsWithout(s.columns[c], columns[c], paneId)
    requires forall c :: c in Elements(emptied) <==> c in s.columns && IsEmpty(columns[c])
    ensures !RemovalPanics(s, paneId)
    ensures columns == map c | c in s.columns :: Without(s.columns[c], paneId)
    ensures Elements(emptied) == EmptiedColumns(s, paneId)
  {
    assert forall c :: c in s.columns ==> IsWithout(s.columns[c], columns[c], paneId);
  }

  /** The first loop, over the columns in whatever order; it also lists the emptied ones. */
  method TakeFromColumns(s: WorkspaceSnapshot, paneId: string)
    returns (columns: map<string, WorkspaceColumn>, emptied: seq<string>, panicked: bool)
    ensures panicked <==> RemovalPanics(s, paneId)
    ensures !panicked ==> columns == map c | c in s.columns :: Without(s.columns[c], paneId)
    ensures !panicked ==> Elements(emptied) == EmptiedColumns(s, paneId)
  {
    columns, emptied, panicked := s.columns, [], false;
    var todo := s.columns.Keys;
    ghost var gone: set<string> := {};
    while todo != {}
      invariant todo <= s.columns.Keys == columns.Keys
      invariant forall c :: c in todo ==> columns[c] == s.columns[c]
      invariant forall c :: c in s.columns && c !in todo ==> IsWithout(s.columns[c], columns[c], paneId)
      invariant forall c :: c in gone <==> c in s.columns && c !in todo && IsEmpty(columns[c])
      invariant Elements(emptied) == gone
      decreases |todo|
    {
      var columnId :| columnId in todo;
      var column;
      column, panicked := TakeFromColumn(columns[columnId], paneId);
      if panicked {
        assert Panics(s.columns[columnId], paneId);
        return;
      }
      columns := columns[columnId := column];
      if column.paneIds == [] {
        ElementsAppend(emptied, columnId);
        emptied := emptied + [columnId];
        gone := gone + {columnId};
      }
      todo := todo - {columnId};
    }
    AllTaken(s, columns, emptied, paneId);
  }

  /** The second loop: an emptied column leaves the map, the center order and the pins. */
  method DropColumns(s: WorkspaceSnapshot, emptied: seq<string>) returns (t: WorkspaceSnapshot)
    ensures var gone := Elements(emptied);
            t == s.(columns := s.columns - gone,
                    centerColumnIds := Retain(s.centerColumnIds, gone),
                    pinnedLeftColumnId := Cleared(s.pinnedLeftColumnId, gone),
                    pinnedRightColumnId := Cleared(s.pinnedRightColumnId, gone))
  {
    t := s;
    ghost var gone: set<string> := {};
    RetainAll(s.centerColumnIds);
    assert s.columns - gone == s.columns;
    var i := 0;
    while i < |emptied|
      invariant 0 <= i <= |emptied|
      invariant gone == Elements(emptied[..i])
      invariant t == s.(columns := s.columns - gone,
                        centerColumnIds := Retain(s.centerColumnIds, gone),
                        pinnedLeftColumnId := Cleared(s.pinnedLeftColumnId, gone),
                        pinnedRightColumnId := Cleared(s.pinnedRightColumnId, gone))
    {
      var columnId := emptied[i];
      RetainTwice(s.centerColumnIds, gone, {columnId});
      assert s.columns - gone - {columnId} == s.columns - (gone + {columnId});
      t := t.(columns := t.columns - {columnId}, centerColumnIds := Retain(t.centerColumnIds, {columnId}));
      if t.pinnedLeftColumnId == Some(columnId) {
        t := t.(pinnedLeftColumnId := None);
      }
      if t.pinnedRightColumnId == Some(columnId) {
        t := t.(pinnedRightColumnId := None);
      }
      ElementsAppend(emptied[..i], columnId);
      assert emptied[..i + 1] == emptied[..i] + [columnId];
      gone := gone + {columnId};
      i := i + 1;
    }
    assert emptied[..i] == emptied;
  }

  method RemovePane(snapshot: WorkspaceSnapshot, paneId: string, nowMs: int)
    returns (r: Result<WorkspaceSnapshot, LayoutError>)
    ensures r == Removed(snapshot, paneId, nowMs)
  {
    if paneId !in snapshot.panes { return Err(MissingPane(paneId)); }
    var columns, emptied, panicked := TakeFromColumns(snapshot, paneId);
    if panicked { return Err(HeightOutOfRange); }
    ghost var gone := EmptiedColumns(snapshot, paneId);
    assert columns - gone == map c | c in snapshot.columns && c !in gone :: Without(snapshot.columns[c], paneId);
    var s := DropColumns(snapshot.(panes := snapshot.panes - {paneId}, columns := columns), emptied);
    ghost var t := s.(updatedAt := nowMs);
    assert t == snapshot.(panes := snapshot.panes - {paneId},
                          columns := map c | c in snapshot.columns && c !in gone :: Without(snapshot.columns[c], paneId),
                          centerColumnIds := Retain(snapshot.centerColumnIds, gone),
                          pinnedLeftColumnId := Cleared(snapshot.pinnedLeftColumnId, gone),
                          pinnedRightColumnId := Cleared(snapshot.pinnedRightColumnId, gone),
                          updatedAt := nowMs);
    FirstOnlyReadsColumns(s, t, s.centerColumnIds);
    if s.activePaneId == Some(paneId) {
      s := s.(activePaneId := FirstCenterPaneId(s, s.centerColumnIds));
    }
    s := s.(updatedAt := nowMs);
    r := Ok(s);
  }

  lemma {:induction false} FirstOnlyReadsColumns(s: WorkspaceSnapshot, t: WorkspaceSnapshot, ids: seq<string>)
    requires s.columns == t.columns
    ensures FirstCenterPaneId(s, ids) == FirstCenterPaneId(t, ids)
    decreases |ids|
  {
    if ids != [] { FirstOnlyReadsColumns(s, t, ids[1..]); }
  }

  // ----- well-formed layouts -----

  predicate Distinct(ids: seq<string>) {
    forall i, j :: 0 <= i < j < |ids| ==> ids[i] != ids[j]
  }

  predicate GoodColumn(s: WorkspaceSnapshot, columnId: string)
    requires columnId in s.columns
  {
    var c := s.columns[columnId];
    && c.id == columnId
    && c.paneIds != [] && Distinct(c.paneIds)
    && |c.heightFractions| == |c.paneIds|
    && Elements(c.paneIds) <= s.panes.Keys
  }

  predicate Holds(s: WorkspaceSnapshot, columnId: string, paneId: string) {
    columnId in s.columns && paneId in Elements(s.columns[columnId].paneIds)
  }

  predicate InSomeColumn(s: WorkspaceSnapshot, paneId: string) {
    exists c :: c in s.columns && Holds(s, c, paneId)
  }

  predicate GoodPin(s: WorkspaceSnapshot, pin: Option<string>) {
    pin.Some? ==> pin.value in s.columns
  }

  ghost predicate PanesAreHeld(s: WorkspaceSnapshot) {
    forall p :: p in s.panes ==> s.panes[p].id == p && InSomeColumn(s, p)
  }

  ghost predicate ColumnsAreGood(s: WorkspaceSnapshot) {
    forall c :: c in s.columns ==> GoodColumn(s, c)
  }

  ghost predicate HeldOnce(s: WorkspaceSnapshot) {
    forall c, d, p :: Holds(s, c, p) && Holds(s, d, p) ==> c == d
  }

  predicate CenterNamesColumns(s: WorkspaceSnapshot) {
    Distinct(s.centerColumnIds) && Elements(s.centerColumnIds) == s.columns.Keys
  }

  predicate ActiveIsPresent(s: WorkspaceSnapshot) {
    if s.panes == map[] then s.activePaneId == None else s.activePaneId.Some? && s.activePaneId.value in s.panes
  }

  /**
    * Every pane is in exactly one column, no column is empty, heights are as many as panes, the center order
    * names every column once, and a pane is active exactly when there are panes.
    */
  ghost predicate WellFormed(s: WorkspaceSnapshot) {
    && PanesAreHeld(s) && ColumnsAreGood(s) && HeldOnce(s)
    && CenterNamesColumns(s) && GoodPin(s, s.pinnedLeftColumnId) && GoodPin(s, s.pinnedRightColumnId)
    && ActiveIsPresent(s)
  }

  lemma DistinctAppend(ids: seq<string>, id: string)
    requires Distinct(ids)
    ensures Distinct(ids + [id]) <==> id !in Elements(ids)
  {
    if id in Elements(ids) {
      var i :| 0 <= i < |ids| && ids[i] == id;
      assert (ids + [id])[i] == (ids + [id])[|ids|];
    }
  }

  /** Adding keeps the layout well formed if and only if both identifiers are new. */
  lemma AddKeepsWellFormedExactly(s: WorkspaceSnapshot, pane: PaneState, columnId: string, nowMs: int)
    requires WellFormed(s)
    ensures WellFormed(Added(s, pane, columnId, nowMs)) <==> pane.id !in s.panes && columnId !in s.columns
  {
    var t := Added(s, pane, columnId, nowMs);
    DistinctAppend(s.centerColumnIds, columnId);
    ElementsAppend(s.centerColumnIds, columnId);
    SingleElement(pane.id);
    assert Holds(t, columnId, pane.id);
    if columnId in s.columns {
      assert !Distinct(t.centerColumnIds);
    } else if pane.id in s.panes {
      var c :| c in s.columns && Holds(s, c, pane.id);
      assert Holds(t, c, pane.id);
    } else {
      AddOfNewIsWellFormed(s, pane, columnId, nowMs);
    }
  }

  lemma SingleElement(id: string)
    ensures Elements([id]) == {id}
  {
    assert [id][0] in Elements([id]);
  }

  /** The new column holds just the new pane, the others what they held. */
  lemma AddedHolds(s: WorkspaceSnapshot, pane: PaneState, columnId: string, nowMs: int)
    requires WellFormed(s) && columnId !in s.columns
    ensures var t := Added(s, pane, columnId, nowMs);
            forall c, p :: Holds(t, c, p) <==> if c == columnId then p == pane.id else Holds(s, c, p)
    ensures forall c, p :: Holds(s, c, p) ==> p in s.panes
  {
    var t := Added(s, pane, columnId, nowMs);
    SingleElement(pane.id);
    forall c, p | Holds(s, c, p) ensures p in s.panes { assert GoodColumn(s, c); }
  }

  lemma AddOfNewIsWellFormed(s: WorkspaceSnapshot, pane: PaneState, columnId: string, nowMs: int)
    requires WellFormed(s) && pane.id !in s.panes && columnId !in s.columns
    ensures WellFormed(Added(s, pane, columnId, nowMs))
  {
    var t := Added(s, pane, columnId, nowMs);
    AddedCenter(s, pane, columnId, nowMs);
    AddedHolds(s, pane, columnId, nowMs);
    AddedColumns(s, pane, columnId, nowMs);
    AddedPanes(s, pane, columnId, nowMs);
    assert HeldOnce(t);
    assert ActiveIsPresent(t) by { assert pane.id in t.panes; }
  }

  lemma AddedCenter(s: WorkspaceSnapshot, pane: PaneState, columnId: string, nowMs: int)
    requires CenterNamesColumns(s) && columnId !in s.columns
    ensures CenterNamesColumns(Added(s, pane, columnId, nowMs))
  {
    DistinctAppend(s.centerColumnIds, columnId);
    ElementsAppend(s.centerColumnIds, columnId);
  }

  lemma AddedPanes(s: WorkspaceSnapshot, pane: PaneState, columnId: string, nowMs: int)
    requires PanesAreHeld(s) && columnId !in s.columns
    ensures PanesAreHeld(Added(s, pane, columnId, nowMs))
  {
    var t := Added(s, pane, columnId, nowMs);
    SingleElement(pane.id);
    forall p | p in t.panes ensures t.panes[p].id == p && InSomeColumn(t, p) {
      if p == pane.id {
        assert Holds(t, columnId, p);
      } else {
        assert InSomeColumn(s, p);
        var c :| c in s.columns && Holds(s, c, p);
        assert Holds(t, c, p);
      }
    }
  }

  lemma AddedColumns(s: WorkspaceSnapshot, pane: PaneState, columnId: string, nowMs: int)
    requires ColumnsAreGood(s)
    ensures ColumnsAreGood(Added(s, pane, columnId, nowMs))
  {
    var t := Added(s, pane, columnId, nowMs);
    SingleElement(pane.id);
    forall c | c in t.columns ensures GoodColumn(t, c) {
      if c != columnId { assert GoodColumn(s, c); }
    }
  }

  lemma {:induction false} IndexOfNone(ids: seq<string>, id: string)
    ensures IndexOf(ids, id).None? <==> id !in Elements(ids)
  {
    if ids != [] {
      IndexOfNone(ids[1..], id);
      ElementsFirst(ids[0], ids[1..]);
      assert [ids[0]] + ids[1..] == ids;
    }
  }

  lemma ElementsConcat(a: seq<string>, b: seq<string>)
    ensures Elements(a + b) == Elements(a) + Elements(b)
  {
    var both := a + b;
    forall x | x in Elements(a) ensures x in Elements(both) {
      var i :| 0 <= i < |a| && a[i] == x;
      assert both[i] == x;
    }
    forall x | x in Elements(b) ensures x in Elements(both) {
      var i :| 0 <= i < |b| && b[i] == x;
      assert both[|a| + i] == x;
    }
  }

  lemma ElementsFirst(first: string, rest: seq<string>)
    ensures Elements([first] + rest) == {first} + Elements(rest)
  {
    ElementsConcat([first], rest);
    SingleElement(first);
  }

  /** Taking out one of distinct elements takes out exactly that one. */
  lemma RemoveAtDistinct(ids: seq<string>, i: nat)
    requires Distinct(ids) && i < |ids|
    ensures Distinct(RemoveAt(ids, i))
    ensures Elements(RemoveAt(ids, i)) == Elements(ids) - {ids[i]}
  {
    var before, after := ids[..i], ids[i + 1..];
    assert ids == before + ([ids[i]] + after);
    ElementsConcat(before, after);
    ElementsFirst(ids[i], after);
    ElementsConcat(before, [ids[i]] + after);
    assert ids[i] !in Elements(before) && ids[i] !in Elements(after);
  }

  /** What is left of a good column: all its other panes, each with a height, or the same column. */
  lemma WithoutKeeps(s: WorkspaceSnapshot, columnId: string, paneId: string)
    requires columnId in s.columns && GoodColumn(s, columnId)
    ensures var c := s.columns[columnId];
            && !Panics(c, paneId)
            && var w := Without(c, paneId);
            && w.id == c.id && w.widthPx == c.widthPx
            && Distinct(w.paneIds) && |w.heightFractions| == |w.paneIds|
            && Elements(w.paneIds) == Elements(c.paneIds) - {paneId}
            && (paneId !in Elements(c.paneIds) ==> w == c)
  {
    var c := s.columns[columnId];
    var index := IndexOf(c.paneIds, paneId);
    IndexOfNone(c.paneIds, paneId);
    if index.Some? {
      RemoveAtDistinct(c.paneIds, index.value);
    }
  }

  lemma {:induction false} RetainKeeps(ids: seq<string>, gone: set<string>)
    ensures Elements(Retain(ids, gone)) == Elements(ids) - gone
    ensures Distinct(ids) ==> Distinct(Retain(ids, gone))
  {
    if ids != [] {
      var rest := Retain(ids[1..], gone);
      RetainKeeps(ids[1..], gone);
      assert [ids[0]] + ids[1..] == ids;
      ElementsFirst(ids[0], ids[1..]);
      ElementsFirst(ids[0], rest);
      assert [] + rest == rest;
      if Distinct(ids) {
        assert Distinct(ids[1..]);
        assert ids[0] !in Elements(ids[1..]);
        DistinctFirst(ids[0], rest);
      }
    }
  }

  lemma DistinctFirst(first: string, rest: seq<string>)
    requires Distinct(rest) && first !in Elements(rest)
    ensures Distinct([first] + rest)
  {
    var all := [first] + rest;
    forall i, j | 0 <= i < j < |all| ensures all[i] != all[j] {
      assert all[j] == rest[j - 1];
      assert rest[j - 1] in Elements(rest);
    }
  }

  lemma {:induction false} FirstCenterIsHeld(s: WorkspaceSnapshot, ids: seq<string>)
    requires forall c :: c in Elements(ids) ==> c in s.columns && s.columns[c].paneIds != []
    ensures ids == [] ==> FirstCenterPaneId(s, ids).None?
    ensures ids != [] ==> FirstCenterPaneId(s, ids).Some? && Holds(s, ids[0], FirstCenterPaneId(s, ids).value)
  {
    if ids != [] {
      assert ids[0] in Elements(ids);
      var panes := s.columns[ids[0]].paneIds;
      assert panes[0] in Elements(panes);
    }
  }

  lemma RemovalNeverPanics(s: WorkspaceSnapshot, paneId: string)
    requires WellFormed(s)
    ensures !RemovalPanics(s, paneId)
  {
    forall c | c in s.columns ensures !Panics(s.columns[c], paneId) {
      WithoutKeeps(s, c, paneId);
    }
  }

  /** `t` is `s` without the pane and without the columns in `gone`; `t.columns` is given separately. */
  ghost predicate IsWithoutColumns(s: WorkspaceSnapshot, t: WorkspaceSnapshot, gone: set<string>) {
    && t.centerColumnIds == Retain(s.centerColumnIds, gone)
    && t.pinnedLeftColumnId == Cleared(s.pinnedLeftColumnId, gone)
    && t.pinnedRightColumnId == Cleared(s.pinnedRightColumnId, gone)
    && t.columns.Keys == s.columns.Keys - gone
  }

  lemma RemovedFields(s: WorkspaceSnapshot, paneId: string, nowMs: int)
    requires Removed(s, paneId, nowMs).Ok?
    ensures !RemovalPanics(s, paneId)
    ensures var t := Removed(s, paneId, nowMs).value;
            && t.panes == s.panes - {paneId} && t.updatedAt == nowMs && t.workspaceId == s.workspaceId
            && IsWithoutColumns(s, t, EmptiedColumns(s, paneId))
            && forall c :: c in t.columns ==> c in s.columns && t.columns[c] == Without(s.columns[c], paneId)
  {
  }

  /** Which pane is held where after a removal: as before, but for the removed pane. */
  lemma RemovedHolds(s: WorkspaceSnapshot, paneId: string, nowMs: int)
    requires WellFormed(s) && paneId in s.panes
    ensures var r := Removed(s, paneId, nowMs);
            r.Ok? && forall c, p :: Holds(r.value, c, p) <==> Holds(s, c, p) && p != paneId
  {
    RemovalNeverPanics(s, paneId);
    RemovedFields(s, paneId, nowMs);
    var t := Removed(s, paneId, nowMs).value;
    forall c, p ensures Holds(t, c, p) <==> Holds(s, c, p) && p != paneId {
      if c in s.columns { RemovedHoldsIn(s, t, paneId, c); }
    }
  }

  lemma RemovedHoldsIn(s: WorkspaceSnapshot, t: WorkspaceSnapshot, paneId: string, c: string)
    requires !RemovalPanics(s, paneId) && IsWithoutColumns(s, t, EmptiedColumns(s, paneId))
    requires c in s.columns && GoodColumn(s, c)
    requires c in t.columns ==> t.columns[c] == Without(s.columns[c], paneId)
    ensures forall p :: Holds(t, c, p) <==> Holds(s, c, p) && p != paneId
  {
    var w := Without(s.columns[c], paneId);
    WithoutKeeps(s, c, paneId);
    if w.paneIds == [] {
      assert Elements(w.paneIds) == {};
    }
  }

  lemma RemovedPin(s: WorkspaceSnapshot, t: WorkspaceSnapshot, paneId: string, nowMs: int)
    requires GoodPin(s, s.pinnedLeftColumnId) && GoodPin(s, s.pinnedRightColumnId)
    requires Removed(s, paneId, nowMs) == Ok(t)
    ensures GoodPin(t, t.pinnedLeftColumnId) && GoodPin(t, t.pinnedRightColumnId)
  {
  }

  lemma RemovedCenter(s: WorkspaceSnapshot, t: WorkspaceSnapshot, paneId: string, nowMs: int)
    requires CenterNamesColumns(s) && Removed(s, paneId, nowMs) == Ok(t)
    ensures CenterNamesColumns(t)
  {
    var gone := EmptiedColumns(s, paneId);
    RetainKeeps(s.centerColumnIds, gone);
    assert t.columns.Keys == s.columns.Keys - gone;
    assert t.centerColumnIds == Retain(s.centerColumnIds, gone);
  }

  lemma RemovedColumn(s: WorkspaceSnapshot, t: WorkspaceSnapshot, paneId: string, nowMs: int, c: string)
    requires WellFormed(s) && paneId in s.panes && Removed(s, paneId, nowMs) == Ok(t) && c in t.columns
    ensures GoodColumn(t, c)
  {
    RemovalNeverPanics(s, paneId);
    assert GoodColumn(s, c);
    WithoutKeeps(s, c, paneId);
  }

  /** Removing fails exactly for a pane that is not there, and keeps the layout well formed. */
  lemma RemoveKeepsWellFormed(s: WorkspaceSnapshot, paneId: string, nowMs: int)
    requires WellFormed(s)
    ensures var r := Removed(s, paneId, nowMs);
            if paneId in s.panes then r.Ok? && WellFormed(r.value) else r == Err(MissingPane(paneId))
  {
    RemovalNeverPanics(s, paneId);
    if paneId in s.panes {
      var t := Removed(s, paneId, nowMs).value;
      RemovedCenter(s, t, paneId, nowMs);
      RemovedPin(s, t, paneId, nowMs);
      forall c | c in t.columns ensures GoodColumn(t, c) { RemovedColumn(s, t, paneId, nowMs, c); }
      RemovedHolds(s, paneId, nowMs);
      forall p | p in t.panes ensures InSomeColumn(t, p) {
        assert InSomeColumn(s, p);
        var c :| c in s.columns && Holds(s, c, p);
        assert Holds(t, c, p);
      }
      RemovedActive(s, t, paneId, nowMs);
    }
  }

  lemma RemovedActive(s: WorkspaceSnapshot, t: WorkspaceSnapshot, paneId: string, nowMs: int)
    requires WellFormed(s) && paneId in s.panes && Removed(s, paneId, nowMs) == Ok(t)
    requires CenterNamesColumns(t) && ColumnsAreGood(t) && PanesAreHeld(t)
    ensures ActiveIsPresent(t)
  {
    if s.activePaneId == Some(paneId) {
      var u := t.(activePaneId := s.activePaneId);
      FirstOnlyReadsColumns(t, u, t.centerColumnIds);
      FirstCenterIsHeld(t, t.centerColumnIds);
      if t.centerColumnIds == [] {
        assert t.columns.Keys == {};
        assert forall p :: p in t.panes ==> InSomeColumn(t, p);
        assert t.panes == map[];
      } else {
        var c := t.centerColumnIds[0];
        assert c in Elements(t.centerColumnIds);
        assert GoodColumn(t, c);
      }
    } else {
      assert s.activePaneId.value in t.panes;
    }
  }

  /**
    * A well-formed column keeps the heights of its other panes as they are: no renormalisation takes place,
    * so what the removed pane took is left over.
    */
  lemma OtherHeightsStay(s: WorkspaceSnapshot, columnId: string, paneId: string)
    requires columnId in s.columns && GoodColumn(s, columnId) && Holds(s, columnId, paneId)
    ensures var c := s.columns[columnId];
            !Panics(c, paneId) && IndexOf(c.paneIds, paneId).Some? &&
            var w, i := Without(c, paneId), IndexOf(c.paneIds, paneId).value;
            && |w.paneIds| == |w.heightFractions| == |c.paneIds| - 1
            && forall j :: 0 <= j < |w.paneIds| ==>
                 var k := if j < i then j else j + 1;
                 w.paneIds[j] == c.paneIds[k] && w.heightFractions[j] == c.heightFractions[k]
  {
    WithoutKeeps(s, columnId, paneId);
    IndexOfNone(s.columns[columnId].paneIds, paneId);
  }

  function Sum(heights: seq<real>): real {
    if heights == [] then 0.0 else Sum(heights[..|heights| - 1]) + heights[|heights| - 1]
  }

  lemma {:induction false} SumConcat(a: seq<real>, b: seq<real>)
    ensures Sum(a + b) == Sum(a) + Sum(b)
  {
    if b == [] {
      assert a + b == a;
    } else {
      assert (a + b)[..|a + b| - 1] == a + b[..|b| - 1];
      SumConcat(a, b[..|b| - 1]);
    }
  }

  /**
    * Taking a pane out of a good column lowers the sum of its heights by exactly that pane's height, so the
    * sum is kept if and only if that height is zero.
    */
  lemma HeightsFallByRemoved(s: WorkspaceSnapshot, columnId: string, paneId: string)
    requires columnId in s.columns && GoodColumn(s, columnId) && Holds(s, columnId, paneId)
    ensures var c := s.columns[columnId];
            !Panics(c, paneId) && IndexOf(c.paneIds, paneId).Some? &&
            var before, after := Sum(c.heightFractions), Sum(Without(c, paneId).heightFractions);
            var removed := c.heightFractions[IndexOf(c.paneIds, paneId).value];
            after == before - removed && (after == before <==> removed == 0.0)
  {
    var c := s.columns[columnId];
    OtherHeightsStay(s, columnId, paneId);
    var h, i := c.heightFractions, IndexOf(c.paneIds, paneId).value;
    assert Without(c, paneId).heightFractions == h[..i] + h[i + 1..];
    assert h == h[..i] + ([h[i]] + h[i + 1..]);
    assert [h[i]][..0] == [] && Sum([h[i]]) == h[i];
    SumConcat(h[..i], h[i + 1..]);
    SumConcat([h[i]], h[i + 1..]);
    SumConcat(h[..i], [h[i]] + h[i + 1..]);
  }

  /** A column of two panes, as a stored layout may hold: taking out the first leaves half the height. */
  lemma TwoPanesLeaveAGap(s: WorkspaceSnapshot)
    requires s.columns == map["c" := WorkspaceColumn("c", ["a", "b"], 720.0, [0.5, 0.5])]
    requires s.panes.Keys == {"a", "b"}
    ensures GoodColumn(s, "c") && Holds(s, "c", "a") && !Panics(s.columns["c"], "a")
    ensures Sum(s.columns["c"].heightFractions) == 1.0
    ensures Sum(Without(s.columns["c"], "a").heightFractions) == 0.5
  {
    var c := s.columns["c"];
    ElementsFirst("a", ["b"]);
    SingleElement("b");
    assert ["a"] + ["b"] == c.paneIds;
    assert [0.5][..0] == [] && [0.5, 0.5][..1] == [0.5];
    HeightsFallByRemoved(s, "c", "a");
  }

  // ----- runs -----

  datatype Edit = Add(pane: PaneState, columnId: string) | Remove(paneId: string)

  /** A removal that fails leaves the layout as it was. */
  function Edited(s: WorkspaceSnapshot, e: Edit, nowMs: int): WorkspaceSnapshot {
    match e
    case Add(pane, columnId) => Added(s, pane, columnId, nowMs)
    case Remove(paneId) => if Removed(s, paneId, nowMs).Ok? then Removed(s, paneId, nowMs).value else s
  }

  predicate IsFresh(s: WorkspaceSnapshot, e: Edit) {
    e.Add? ==> e.pane.id !in s.panes && e.columnId !in s.columns
  }

  /** Every identifier generated in the run is new to the layout at that moment. */
  predicate AllFresh(s: WorkspaceSnapshot, edits: seq<(Edit, int)>)
    decreases |edits|
  {
    edits == [] || (IsFresh(s, edits[0].0) && AllFresh(Edited(s, edits[0].0, edits[0].1), edits[1..]))
  }

  /** At every moment of the run the layout is well formed, and so no removal can panic. */
  ghost predicate AlwaysWellFormed(s: WorkspaceSnapshot, edits: seq<(Edit, int)>)
    decreases |edits|
  {
    && WellFormed(s) && (forall p :: !RemovalPanics(s, p))
    && (edits == [] || AlwaysWellFormed(Edited(s, edits[0].0, edits[0].1), edits[1..]))
  }

  lemma {:induction false} EditsKeepWellFormedExactly(s: WorkspaceSnapshot, edits: seq<(Edit, int)>)
    requires WellFormed(s)
    ensures AlwaysWellFormed(s, edits) <==> AllFresh(s, edits)
    decreases |edits|
  {
    forall p ensures !RemovalPanics(s, p) { RemovalNeverPanics(s, p); }
    if edits != [] {
      var e, now := edits[0].0, edits[0].1;
      var next := Edited(s, e, now);
      match e {
        case Add(pane, columnId) => AddKeepsWellFormedExactly(s, pane, columnId, now);
        case Remove(paneId) => RemoveKeepsWellFormed(s, paneId, now);
      }
      if WellFormed(next) {
        EditsKeepWellFormedExactly(next, edits[1..]);
      } else {
        assert !AlwaysWellFormed(next, edits[1..]);
      }
    }
  }

  function After(s: WorkspaceSnapshot, edits: seq<(Edit, int)>): WorkspaceSnapshot
    decreases |edits|
  {
    if edits == [] then s else After(Edited(s, edits[0].0, edits[0].1), edits[1..])
  }

  lemma {:induction false} WellFormedAfter(s: WorkspaceSnapshot, edits: seq<(Edit, int)>)
    requires AlwaysWellFormed(s, edits)
    ensures WellFormed(After(s, edits))
    decreases |edits|
  {
    if edits != [] {
      WellFormedAfter(Edited(s, edits[0].0, edits[0].1), edits[1..]);
    }
  }

  /** Every column holds one pane, at full height. */
  predicate OnePaneColumns(s: WorkspaceSnapshot) {
    forall c :: c in s.columns ==> |s.columns[c].paneIds| == 1 && s.columns[c].heightFractions == [1.0]
  }

  lemma RemovalKeepsOnePane(s: WorkspaceSnapshot, paneId: string, nowMs: int)
    requires OnePaneColumns(s) && Removed(s, paneId, nowMs).Ok?
    ensures OnePaneColumns(Removed(s, paneId, nowMs).value)
  {
    var t := Removed(s, paneId, nowMs).value;
    forall c | c in t.columns ensures |t.columns[c].paneIds| == 1 && t.columns[c].heightFractions == [1.0] {
      assert t.columns[c] == Without(s.columns[c], paneId) && t.columns[c].paneIds != [];
    }
  }

  /** No edit puts a second pane into a column, so every column of the run holds one pane at full height. */
  lemma {:induction false} EditsKeepOnePane(s: WorkspaceSnapshot, edits: seq<(Edit, int)>)
    requires OnePaneColumns(s)
    ensures OnePaneColumns(After(s, edits))
    decreases |edits|
  {
    if edits != [] {
      var e := edits[0].0;
      if e.Remove? && Removed(s, e.paneId, edits[0].1).Ok? {
        RemovalKeepsOnePane(s, e.paneId, edits[0].1);
      }
      EditsKeepOnePane(Edited(s, e, edits[0].1), edits[1..]);
    }
  }

  lemma ReachableColumnsHoldOnePane(workspaceId: string, nowMs: int, edits: seq<(Edit, int)>)
    ensures OnePaneColumns(After(DefaultSnapshot(workspaceId, nowMs), edits))
  {
    EditsKeepOnePane(DefaultSnapshot(workspaceId, nowMs), edits);
  }

  ghost predicate PositiveWidths(s: WorkspaceSnapshot) {
    forall c :: c in s.columns ==> s.columns[c].widthPx > 0.0
  }

  lemma RemovalKeepsWidths(s: WorkspaceSnapshot, paneId: string, nowMs: int)
    requires PositiveWidths(s) && Removed(s, paneId, nowMs).Ok?
    ensures PositiveWidths(Removed(s, paneId, nowMs).value)
  {
  }

  lemma {:induction false} EditsKeepWidths(s: WorkspaceSnapshot, edits: seq<(Edit, int)>)
    requires PositiveWidths(s)
    ensures PositiveWidths(After(s, edits))
    decreases |edits|
  {
    if edits != [] {
      var e := edits[0].0;
      if e.Remove? && Removed(s, e.paneId, edits[0].1).Ok? {
        RemovalKeepsWidths(s, e.paneId, edits[0].1);
      }
      EditsKeepWidths(Edited(s, e, edits[0].1), edits[1..]);
    }
  }

  lemma DefaultIsWellFormed(workspaceId: string, nowMs: int)
    ensures WellFormed(DefaultSnapshot(workspaceId, nowMs))
  {
    assert Elements([]) == {};
  }

  /** From an empty layout on, every layout is well formed if and only if the generated identifiers are new. */
  lemma ReachableIsWellFormed(workspaceId: string, nowMs: int, edits: seq<(Edit, int)>)
    ensures AlwaysWellFormed(DefaultSnapshot(workspaceId, nowMs), edits) <==>
            AllFresh(DefaultSnapshot(workspaceId, nowMs), edits)
  {
    DefaultIsWellFormed(workspaceId, nowMs);
    EditsKeepWellFormedExactly(DefaultSnapshot(workspaceId, nowMs), edits);
  }

  // ----- removal undoes addition -----

  lemma {:induction false} RetainLast(ids: seq<string>, id: string)
    requires id !in Elements(ids)
    ensures Retain(ids + [id], {id}) == ids
  {
    if ids == [] {
      assert [] + [id] == [id];
    } else {
      assert (ids + [id])[1..] == ids[1..] + [id];
      assert [ids[0]] + ids[1..] == ids;
      ElementsFirst(ids[0], ids[1..]);
      RetainLast(ids[1..], id);
    }
  }

  /** After a new pane was added, taking it out empties just its column. */
  lemma AddedThenEmptied(s: WorkspaceSnapshot, pane: PaneState, columnId: string, nowMs: int)
    requires WellFormed(s) && pane.id !in s.panes && columnId !in s.columns
    ensures var t := Added(s, pane, columnId, nowMs);
            && !RemovalPanics(t, pane.id)
            && var gone := EmptiedColumns(t, pane.id);
            && gone == {columnId}
            && s.columns == map c | c in t.columns && c !in gone :: Without(t.columns[c], pane.id)
  {
    var t := Added(s, pane, columnId, nowMs);
    AddOfNewIsWellFormed(s, pane, columnId, nowMs);
    RemovalNeverPanics(t, pane.id);
    forall c | c in s.columns ensures Without(t.columns[c], pane.id) == s.columns[c] && s.columns[c].paneIds != [] {
      assert GoodColumn(s, c);
      WithoutKeeps(t, c, pane.id);
    }
    assert IndexOf([pane.id], pane.id) == Some(0);
    assert Without(t.columns[columnId], pane.id).paneIds == [];
  }

  /**
    * Removing a pane just added gives back the panes, columns, order and pins; the active pane becomes the
    * first center pane, so the layout is as before if and only if that one was active (or there was none).
    */
  lemma RemoveUndoesAdd(s: WorkspaceSnapshot, pane: PaneState, columnId: string, addedMs: int, removedMs: int)
    requires WellFormed(s) && pane.id !in s.panes && columnId !in s.columns
    ensures var r := Removed(Added(s, pane, columnId, addedMs), pane.id, removedMs);
            && r == Ok(s.(activePaneId := FirstCenterPaneId(s, s.centerColumnIds), updatedAt := removedMs))
            && (r == Ok(s.(updatedAt := removedMs)) <==> s.activePaneId == FirstCenterPaneId(s, s.centerColumnIds))
  {
    var t := Added(s, pane, columnId, addedMs);
    AddedThenEmptied(s, pane, columnId, addedMs);
    RetainLast(s.centerColumnIds, columnId);
    assert t.panes - {pane.id} == s.panes;
    var u := Removed(t, pane.id, removedMs).value;
    FirstOnlyReadsColumns(s, u.(activePaneId := t.activePaneId), s.centerColumnIds);
  }

  // ----- what an addition and a removal change, field by field -----

  predicate HasPanes(s: WorkspaceSnapshot, columnId: string) {
    columnId in s.columns && s.columns[columnId].paneIds != []
  }

  predicate IsFirstWithPanes(s: WorkspaceSnapshot, ids: seq<string>, i: nat)
    requires i < |ids|
  {
    HasPanes(s, ids[i]) && forall j :: 0 <= j < i ==> !HasPanes(s, ids[j])
  }

  /** `r` is the first pane of the first of the columns that has panes, or nothing when none has. */
  ghost predicate IsFirstPane(s: WorkspaceSnapshot, ids: seq<string>, r: Option<string>) {
    if r.None? then forall i :: 0 <= i < |ids| ==> !HasPanes(s, ids[i])
    else exists i :: 0 <= i < |ids| && IsFirstWithPanes(s, ids, i) && r.value == s.columns[ids[i]].paneIds[0]
  }

  lemma {:induction false} FirstCenterByIndex(s: WorkspaceSnapshot, ids: seq<string>)
    ensures IsFirstPane(s, ids, FirstCenterPaneId(s, ids))
  {
    if ids != [] {
      if HasPanes(s, ids[0]) {
        assert IsFirstWithPanes(s, ids, 0);
      } else {
        FirstCenterByIndex(s, ids[1..]);
        var r := FirstCenterPaneId(s, ids[1..]);
        if r.Some? {
          var i :| 0 <= i < |ids[1..]| && IsFirstWithPanes(s, ids[1..], i) && r.value == s.columns[ids[1..][i]].paneIds[0];
          forall j | 0 <= j < i + 1 ensures !HasPanes(s, ids[j]) {
            if j > 0 { assert ids[j] == ids[1..][j - 1]; }
          }
          assert IsFirstWithPanes(s, ids, i + 1);
        } else {
          forall j | 0 <= j < |ids| ensures !HasPanes(s, ids[j]) {
            if j > 0 { assert ids[j] == ids[1..][j - 1]; }
          }
        }
      }
    }
  }

  /**
    * Removing a pane that is not active leaves the active one alone, in any layout. Removing the active one
    * makes active the first pane of the first center column left that holds any.
    */
  lemma ActiveAfterRemoval(s: WorkspaceSnapshot, paneId: string, nowMs: int)
    requires Removed(s, paneId, nowMs).Ok?
    ensures var t := Removed(s, paneId, nowMs).value;
            && (s.activePaneId != Some(paneId) ==> t.activePaneId == s.activePaneId)
            && (s.activePaneId == Some(paneId) ==> IsFirstPane(t, t.centerColumnIds, t.activePaneId))
  {
    if s.activePaneId == Some(paneId) {
      var t := Removed(s, paneId, nowMs).value;
      FirstCenterByIndex(t, t.centerColumnIds);
      FirstOnlyReadsColumns(t, t.(activePaneId := s.activePaneId), t.centerColumnIds);
    }
  }

  /** The pane stands in the column first at place `i`, where there is no height. */
  predicate FirstPlaceHasNoHeight(c: WorkspaceColumn, paneId: string, i: nat) {
    && i < |c.paneIds| && c.paneIds[i] == paneId && i >= |c.heightFractions|
    && forall j :: 0 <= j < i ==> c.paneIds[j] != paneId
  }

  ghost predicate LacksHeight(c: WorkspaceColumn, paneId: string) {
    exists i: nat :: FirstPlaceHasNoHeight(c, paneId, i)
  }

  ghost predicate SomePlaceHasNoHeight(s: WorkspaceSnapshot, paneId: string) {
    exists c :: c in s.columns && LacksHeight(s.columns[c], paneId)
  }

  lemma PanicsExactly(c: WorkspaceColumn, paneId: string)
    ensures Panics(c, paneId) <==> LacksHeight(c, paneId)
  {
    IndexOfNone(c.paneIds, paneId);
    if Panics(c, paneId) {
      assert FirstPlaceHasNoHeight(c, paneId, IndexOf(c.paneIds, paneId).value);
    }
    if LacksHeight(c, paneId) {
      var i: nat :| FirstPlaceHasNoHeight(c, paneId, i);
      assert c.paneIds[i] in Elements(c.paneIds);
      assert IndexOf(c.paneIds, paneId) == Some(i);
    }
  }

  /** A removal fails for a missing pane and for one without a height, and for no other reason. */
  lemma RemovalFailsExactly(s: WorkspaceSnapshot, paneId: string, nowMs: int)
    ensures Removed(s, paneId, nowMs) == Err(MissingPane(paneId)) <==> paneId !in s.panes
    ensures Removed(s, paneId, nowMs) == Err(HeightOutOfRange) <==> paneId in s.panes && SomePlaceHasNoHeight(s, paneId)
    ensures Removed(s, paneId, nowMs).Ok? <==> paneId in s.panes && !SomePlaceHasNoHeight(s, paneId)
  {
    forall c | c in s.columns ensures Panics(s.columns[c], paneId) <==> LacksHeight(s.columns[c], paneId) {
      PanicsExactly(s.columns[c], paneId);
    }
  }

  lemma {:induction false} RetainConcat(a: seq<string>, b: seq<string>, gone: set<string>)
    ensures Retain(a + b, gone) == Retain(a, gone) + Retain(b, gone)
  {
    if a == [] {
      assert a + b == b;
      assert [] + Retain(b, gone) == Retain(b, gone);
    } else {
      assert (a + b)[1..] == a[1..] + b;
      RetainConcat(a[1..], b, gone);
      var first := if a[0] in gone then [] else [a[0]];
      assert first + (Retain(a[1..], gone) + Retain(b, gone)) == first + Retain(a[1..], gone) + Retain(b, gone);
    }
  }

  lemma {:induction false} RetainOthers(ids: seq<string>, gone: set<string>)
    requires Elements(ids) !! gone
    ensures Retain(ids, gone) == ids
  {
    if ids != [] {
      assert [ids[0]] + ids[1..] == ids;
      ElementsFirst(ids[0], ids[1..]);
      RetainOthers(ids[1..], gone);
    }
  }

  /** Dropping one of distinct identifiers closes the gap it leaves. */
  lemma {:induction false} RetainDropsOne(ids: seq<string>, k: nat)
    requires Distinct(ids) && k < |ids|
    ensures Retain(ids, {ids[k]}) == ids[..k] + ids[k + 1..]
    decreases k
  {
    var rest := ids[1..];
    if k == 0 {
      RetainOthers(rest, {ids[0]});
    } else {
      assert rest[k - 1] == ids[k];
      RetainDropsOne(rest, k - 1);
      assert ids[..k] == [ids[0]] + rest[..k - 1];
      assert ids[k + 1..] == rest[k..];
    }
  }

  /** `shorter` is `longer` without the element `x` at some place, the rest in order. */
  predicate LacksOne<T(==)>(shorter: seq<T>, longer: seq<T>, x: T) {
    exists k :: 0 <= k < |longer| && longer[k] == x && shorter == longer[..k] + longer[k + 1..]
  }

  /** The column of the removed pane: gone with everything that names it if that was its only pane. */
  ghost predicate ColumnAfterRemoval(s: WorkspaceSnapshot, t: WorkspaceSnapshot, c: string, paneId: string)
    requires c in s.columns
  {
    if s.columns[c].paneIds == [paneId] then
      && t.columns == s.columns - {c}
      && LacksOne(t.centerColumnIds, s.centerColumnIds, c)
      && t.pinnedLeftColumnId == (if s.pinnedLeftColumnId == Some(c) then None else s.pinnedLeftColumnId)
      && t.pinnedRightColumnId == (if s.pinnedRightColumnId == Some(c) then None else s.pinnedRightColumnId)
    else
      && c in t.columns
      && t.columns == s.columns[c := t.columns[c]]
      && LosesPane(s.columns[c], t.columns[c], paneId)
      && t.centerColumnIds == s.centerColumnIds
      && t.pinnedLeftColumnId == s.pinnedLeftColumnId && t.pinnedRightColumnId == s.pinnedRightColumnId
  }

  /** What a removal changes in a well-formed layout: the pane, its column and, if need be, the active pane. */
  lemma RemovalChangesOneColumn(s: WorkspaceSnapshot, paneId: string, nowMs: int, c: string)
    requires WellFormed(s) && Holds(s, c, paneId)
    ensures var r := Removed(s, paneId, nowMs);
            && r.Ok? && ColumnAfterRemoval(s, r.value, c, paneId)
            && r.value.panes == s.panes - {paneId}
            && r.value.updatedAt == nowMs && r.value.workspaceId == s.workspaceId
  {
    OthersStay(s, paneId, c);
    assert GoodColumn(s, c) && paneId in s.panes;
    OnlyPaneIsWholeColumn(s, paneId, c);
    RemovalNeverPanics(s, paneId);
    RemovedFields(s, paneId, nowMs);
    var t := Removed(s, paneId, nowMs).value;
    EmptiedIsOwn(s, paneId, c);
    assert forall d :: d in t.columns && d != c ==> LeftAlone(s, d, paneId);
    if s.columns[c].paneIds == [paneId] {
      assert c in Elements(s.centerColumnIds);
      OnlyPaneGoes(s, t, paneId, c);
    } else {
      OneOfPanesGoes(s, t, paneId, c);
    }
  }

  ghost predicate LeftAlone(s: WorkspaceSnapshot, d: string, paneId: string)
    requires d in s.columns
  {
    && !Panics(s.columns[d], paneId)
    && Without(s.columns[d], paneId) == s.columns[d]
    && s.columns[d].paneIds != []
  }

  /** Only the pane's own column can be emptied. */
  lemma EmptiedIsOwn(s: WorkspaceSnapshot, paneId: string, c: string)
    requires !RemovalPanics(s, paneId) && c in s.columns
    requires forall d :: d in s.columns && d != c ==> LeftAlone(s, d, paneId)
    ensures EmptiedColumns(s, paneId) == if Without(s.columns[c], paneId).paneIds == [] then {c} else {}
  {
  }

  lemma OnlyPaneGoes(s: WorkspaceSnapshot, t: WorkspaceSnapshot, paneId: string, c: string)
    requires c in s.columns && s.columns[c].paneIds == [paneId] && IsWithoutColumns(s, t, {c})
    requires forall d :: d in t.columns && d != c ==> d in s.columns && t.columns[d] == s.columns[d]
    requires Distinct(s.centerColumnIds) && c in Elements(s.centerColumnIds)
    ensures ColumnAfterRemoval(s, t, c, paneId)
  {
    assert t.columns == s.columns - {c};
    var ids := s.centerColumnIds;
    var k :| 0 <= k < |ids| && ids[k] == c;
    RetainDropsOne(ids, k);
    assert LacksOne(Retain(ids, {c}), ids, c);
  }

  lemma OneOfPanesGoes(s: WorkspaceSnapshot, t: WorkspaceSnapshot, paneId: string, c: string)
    requires c in s.columns && s.columns[c].paneIds != [paneId] && IsWithoutColumns(s, t, {})
    requires forall d :: d in t.columns && d != c ==> d in s.columns && t.columns[d] == s.columns[d]
    requires c in t.columns && LosesPane(s.columns[c], t.columns[c], paneId)
    ensures ColumnAfterRemoval(s, t, c, paneId)
  {
    RetainAll(s.centerColumnIds);
    assert t.columns == s.columns[c := t.columns[c]];
  }

  predicate LosesPane(before: WorkspaceColumn, after: WorkspaceColumn, paneId: string) {
    LacksOne(after.paneIds, before.paneIds, paneId) && after.id == before.id && after.widthPx == before.widthPx
  }

  lemma OthersStay(s: WorkspaceSnapshot, paneId: string, c: string)
    requires WellFormed(s) && Holds(s, c, paneId)
    ensures forall d :: d in s.columns && d != c ==> LeftAlone(s, d, paneId)
  {
    forall d | d in s.columns && d != c ensures LeftAlone(s, d, paneId) {
      assert GoodColumn(s, d) && !Holds(s, d, paneId);
      WithoutKeeps(s, d, paneId);
    }
  }

  lemma OnlyPaneIsWholeColumn(s: WorkspaceSnapshot, paneId: string, c: string)
    requires c in s.columns && GoodColumn(s, c) && Holds(s, c, paneId)
    ensures !Panics(s.columns[c], paneId)
    ensures var w := Without(s.columns[c], paneId);
            && (w.paneIds == [] <==> s.columns[c].paneIds == [paneId])
            && LosesPane(s.columns[c], w, paneId)
  {
    WithoutKeeps(s, c, paneId);
    IndexOfNone(s.columns[c].paneIds, paneId);
    var i := IndexOf(s.columns[c].paneIds, paneId).value;
    assert Without(s.columns[c], paneId).paneIds == s.columns[c].paneIds[..i] + s.columns[c].paneIds[i + 1..];
  }

  /** Heights that were not as many as the panes become equal shares of the whole. */
  lemma MismatchedHeightsAreShared(c: WorkspaceColumn, paneId: string)
    requires !Panics(c, paneId) && |c.heightFractions| != |c.paneIds| && Without(c, paneId).paneIds != []
    ensures var w := Without(c, paneId);
            && |w.heightFractions| == |w.paneIds|
            && forall j :: 0 <= j < |w.paneIds| ==> w.heightFractions[j] * |w.paneIds| as real == 1.0
  {
  }

  /** An added pane is active, in a column of its own at the right end; nothing else changes. */
  lemma AddedIsLast(s: WorkspaceSnapshot, pane: PaneState, columnId: string, nowMs: int)
    ensures var t := Added(s, pane, columnId, nowMs);
            && t.centerColumnIds != [] && t.centerColumnIds[|t.centerColumnIds| - 1] == columnId
            && t.centerColumnIds[..|t.centerColumnIds| - 1] == s.centerColumnIds
            && t.activePaneId == Some(pane.id) && pane.id in t.panes && t.panes[pane.id] == pane
            && columnId in t.columns && t.columns[columnId].id == columnId
            && t.columns[columnId].paneIds == [pane.id] && t.columns[columnId].heightFractions == [1.0]
            && t.panes - {pane.id} == s.panes - {pane.id} && t.columns - {columnId} == s.columns - {columnId}
            && t.pinnedLeftColumnId == s.pinnedLeftColumnId && t.pinnedRightColumnId == s.pinnedRightColumnId
            && t.workspaceId == s.workspaceId && t.updatedAt == nowMs
  {
    var t := Added(s, pane, columnId, nowMs);
    assert t.panes - {pane.id} == s.panes - {pane.id};
    assert t.columns - {columnId} == s.columns - {columnId};
  }

  /** The width of a new column: eight pixels a character and the frame, or what the kind of pane asks for. */
  lemma NewColumnWidths(s: WorkspaceSnapshot, pane: PaneState, columnId: string, nowMs: int)
    ensures var width := Added(s, pane, columnId, nowMs).columns[columnId].widthPx;
            && (pane.payload == Terminal(90) ==> width == 744.0)
            && (forall chars: u16 :: pane.payload == Terminal(chars) && chars > 0 ==> (width - 24.0) / 8.0 == chars as real)
            && (pane.payload == OtherPayload || pane.payload == Terminal(0) ==>
                  && (pane.paneType.Shell? ==> width == 720.0)
                  && (pane.paneType.AgentShell? ==> width == 840.0)
                  && (pane.paneType.Note? ==> width == 420.0)
                  && (pane.paneType.Browser? ==> width == 960.0)
                  && (pane.paneType.Diff? ==> width == 900.0))
  {
  }
}
