/**
  * One terminal pane from the extractor to the screen: snapshots are extracted, queued, coalesced,
  * held back, presented and painted in any order, and the caches must still show the last picture.
  */
module RenderPipeline {
  import opened Common
  import opened TerminalSnapshots
  import opened SnapshotExtractors
  import opened SnapshotDamage
  import opened PaintRows
  import opened RenderCache
  import opened GridFrames
  import opened LivePane

  datatype Event =
    | Extract(grid: Grid)
    | Drain(selected: bool, inActiveWorkspace: bool, now: nat)
    | Sync(now: nat)
    | Frame

  /** `extracted` and `painted` are history: the last snapshot extracted and the last one painted. */
  datatype Pipe = Pipe(
    extractor: ExtractorState, extracted: Option<Snapshot>, queue: seq<Snapshot>, pane: Pane,
    cache: GridCache<ViewContent>, input: Option<PaintInput>, painted: Option<Snapshot>)

  function Start(cache: GridCache<ViewContent>): Pipe {
    Pipe(FRESH_EXTRACTOR, None, [], Pane(None, None, None), cache, None, None)
  }

  function Step(hash: RowHash, sessionId: string, p: Pipe, e: Event): Pipe
    requires e.Extract? ==> e.grid.Valid()
  {
    match e
    case Extract(grid) =>
      var s := Extracted(hash, p.extractor, sessionId, grid);
      p.(extractor := AfterExtract(hash, grid), extracted := Some(s), queue := p.queue + [s])
    case Drain(selected, inActiveWorkspace, now) =>
      p.(pane := Drained(p.pane, p.queue, selected, inActiveWorkspace, now), queue := [])
    case Sync(now) =>
      p.(pane := Synced(p.pane, p.queue, now), queue := [])
    case Frame =>
      if p.pane.latest.None? then p
      else
        var s := p.pane.latest.value;
        p.(input := Some(FrameInput(p.cache, s)), cache := FrameCache(p.cache, s), painted := Some(s))
  }

  // ----- whole runs -----

  function Waiting(pane: Pane): Option<Snapshot> {
    if pane.pending.Some? then pane.pending else pane.latest
  }

  function LastOf(pane: Pane, queue: seq<Snapshot>): Option<Snapshot> {
    if queue != [] then Some(queue[|queue| - 1]) else Waiting(pane)
  }

  predicate SamePicture(a: Option<Snapshot>, b: Option<Snapshot>) {
    && (a.Some? <==> b.Some?)
    && (a.Some? ==> a.value.Picture() == b.value.Picture() && a.value.sessionId == b.value.sessionId)
  }

  ghost predicate Sound(s: Snapshot, sessionId: string) {
    s.Valid() && NormalDamage(s) && s.sessionId == sessionId
  }

  /** The queue: each snapshot covers the step from the one before it, and the extractor remembers the last. */
  ghost predicate QueueInv(hash: RowHash, sessionId: string, extractor: ExtractorState, extracted: Option<Snapshot>,
                           queue: seq<Snapshot>, pane: Pane)
  {
    && (forall i :: 0 <= i < |queue| ==> Sound(queue[i], sessionId))
    && Chain(Waiting(pane), queue)
    && SamePicture(extracted, LastOf(pane, queue))
    && (extracted.Some? ==> extracted.value.Valid())
    && extractor == (if extracted.None? then FRESH_EXTRACTOR else AfterExtract(hash, extracted.value.Picture()))
  }

  /** The pane: pending covers the step from the latest presented snapshot, that one the step from the screen. */
  ghost predicate PaneInv(sessionId: string, pane: Pane, painted: Option<Snapshot>) {
    && (pane.pending.Some? ==> Sound(pane.pending.value, sessionId) && Covers(pane.latest, pane.pending.value))
    && (pane.latest.Some? ==> Sound(pane.latest.value, sessionId) && Covers(painted, pane.latest.value))
    && (painted.Some? ==> pane.latest.Some?)
  }

  ghost predicate ScreenInv(cache: GridCache<ViewContent>, input: Option<PaintInput>, painted: Option<Snapshot>) {
    painted.Some? ==> Fresh(cache, painted.value) && input.Some? && FreshInput(input.value, painted.value)
  }

  ghost predicate Inv(hash: RowHash, sessionId: string, p: Pipe) {
    && QueueInv(hash, sessionId, p.extractor, p.extracted, p.queue, p.pane)
    && PaneInv(sessionId, p.pane, p.painted)
    && ScreenInv(p.cache, p.input, p.painted)
  }

  /** The latest presented picture, if any, is the one on screen. */
  predicate LatestShown(p: Pipe) {
    p.pane.latest.None? || SamePicture(p.painted, p.pane.latest)
  }

  /** What a step must respect, checked before it is taken. Syncing and painting are always safe. */
  ghost predicate Safe(hash: RowHash, p: Pipe, e: Event) {
    match e
    case Extract(grid) =>
      && grid.Valid()
      && (p.extracted.Some? && p.extracted.value.cols == grid.cols && p.extracted.value.rows == grid.rows ==>
            HashSeparates(hash, p.extracted.value.rowsData, grid.rowsData))
    case Drain(selected, inActiveWorkspace, now) =>
      && (p.queue != [] && p.pane.pending.Some? ==> ReportsAsMuch(Coalesced(p.queue), p.pane.pending.value))
      && (Presents(p.pane, p.queue, selected, now) && inActiveWorkspace && !LatestShown(p) ==>
            ReportsAsMuch(PendingAfterDrain(p.pane, p.queue).value, p.pane.latest.value))
    case Sync(_) => true
    case Frame => true
  }

  lemma CoversSamePicture(a: Option<Snapshot>, b: Option<Snapshot>, s: Snapshot)
    requires SamePicture(a, b) && Covers(a, s)
    ensures Covers(b, s)
  {
    if !s.damage.full {
      assert a.value.Picture().rowsData == b.value.Picture().rowsData;
      assert a.value.Picture().cols == b.value.Picture().cols && a.value.Picture().rows == b.value.Picture().rows;
    }
  }

  /** What the extractor reports covers the step from the last snapshot it gave. */
  lemma ExtractCoversStep(hash: RowHash, sessionId: string, extractor: ExtractorState, extracted: Option<Snapshot>,
                          queue: seq<Snapshot>, pane: Pane, grid: Grid)
    requires QueueInv(hash, sessionId, extractor, extracted, queue, pane) && PaneSounds(sessionId, pane)
    requires grid.Valid()
    requires extracted.Some? && extracted.value.cols == grid.cols && extracted.value.rows == grid.rows ==>
               HashSeparates(hash, extracted.value.rowsData, grid.rowsData)
    ensures Covers(LastOf(pane, queue), Extracted(hash, extractor, sessionId, grid))
  {
    if extracted.None? {
      FirstSnapshotIsFull(hash, sessionId, grid);
    } else {
      ExtractCoversExactly(hash, extracted.value, grid);
      CoversSamePicture(extracted, LastOf(pane, queue), Extracted(hash, extractor, sessionId, grid));
    }
  }

  /** A queue that is extended by a snapshot covering the step from its end is still a chain. */
  lemma ChainAppends(base: Option<Snapshot>, queue: seq<Snapshot>, s: Snapshot)
    requires Chain(base, queue) && Covers(Before(base, queue + [s], |queue|), s)
    ensures Chain(base, queue + [s])
  {
    forall i | 0 <= i < |queue| + 1 ensures Covers(Before(base, queue + [s], i), (queue + [s])[i]) {
      if i < |queue| { assert Before(base, queue + [s], i) == Before(base, queue, i); }
    }
  }

  predicate PaneSounds(sessionId: string, pane: Pane) {
    && (pane.pending.Some? ==> pane.pending.value.sessionId == sessionId)
    && (pane.latest.Some? ==> pane.latest.value.sessionId == sessionId)
  }

  lemma ExtractKeepsInv(hash: RowHash, sessionId: string, p: Pipe, grid: Grid)
    requires Inv(hash, sessionId, p) && Safe(hash, p, Extract(grid))
    ensures Inv(hash, sessionId, Step(hash, sessionId, p, Extract(grid)))
  {
    var s := Extracted(hash, p.extractor, sessionId, grid);
    ExtractCoversStep(hash, sessionId, p.extractor, p.extracted, p.queue, p.pane, grid);
    ChainAppends(Waiting(p.pane), p.queue, s);
    assert LastOf(p.pane, p.queue + [s]) == Some(s);
  }

  /** A coalesced batch is sound and covers the step from whatever was waiting before it. */
  lemma BatchCovers(sessionId: string, waiting: Option<Snapshot>, queue: seq<Snapshot>)
    requires queue != [] && Chain(waiting, queue)
    requires forall i :: 0 <= i < |queue| ==> Sound(queue[i], sessionId)
    ensures Sound(Coalesced(queue), sessionId) && Covers(waiting, Coalesced(queue))
    ensures SamePicture(Some(Coalesced(queue)), Some(queue[|queue| - 1]))
  {
    assert forall i :: 0 <= i < |queue| ==> queue[i].Valid() by {
      forall i | 0 <= i < |queue| ensures queue[i].Valid() { assert Sound(queue[i], sessionId); }
    }
    CoalescedCovers(waiting, queue);
    assert Sound(queue[|queue| - 1], sessionId);
    PictureKeepsShape(Coalesced(queue), queue[|queue| - 1]);
  }

  /** After the queue is drained, the pending snapshot covers the step from the latest presented one. */
  lemma PendingCovers(sessionId: string, pane: Pane, queue: seq<Snapshot>, painted: Option<Snapshot>)
    requires Chain(Waiting(pane), queue) && (forall i :: 0 <= i < |queue| ==> Sound(queue[i], sessionId))
    requires PaneInv(sessionId, pane, painted)
    requires queue != [] && pane.pending.Some? ==> ReportsAsMuch(Coalesced(queue), pane.pending.value)
    ensures PaneInv(sessionId, pane.(pending := PendingAfterDrain(pane, queue)), painted)
    ensures SamePicture(Waiting(pane.(pending := PendingAfterDrain(pane, queue))), LastOf(pane, queue))
  {
    if queue != [] {
      BatchCovers(sessionId, Waiting(pane), queue);
      if pane.pending.Some? {
        ReplacingKeepsCover(pane.latest, pane.pending.value, Coalesced(queue));
      }
    }
  }

  /** Presenting the pending snapshot. */
  lemma PresentingCovers(sessionId: string, pane: Pane, shown: Snapshot, now: nat, painted: Option<Snapshot>)
    requires PaneInv(sessionId, pane, painted) && pane.pending.Some?
    requires || shown == FullyDamaged(pane.pending.value)
             || (shown == pane.pending.value &&
                 (pane.latest.None? || SamePicture(painted, pane.latest) || ReportsAsMuch(shown, pane.latest.value)))
    ensures PaneInv(sessionId, Pane(Some(shown), None, Some(now)), painted)
    ensures SamePicture(Some(shown), pane.pending)
  {
    if shown == FullyDamaged(pane.pending.value) {
      PictureKeepsShape(shown, pane.pending.value);
    } else if pane.latest.Some? {
      if SamePicture(painted, pane.latest) {
        CoversSamePicture(pane.latest, painted, shown);
      } else {
        ReplacingKeepsCover(painted, pane.latest.value, shown);
      }
    }
  }

  lemma PictureKeepsShape(a: Snapshot, b: Snapshot)
    requires a.Picture() == b.Picture()
    ensures a.cols == b.cols && a.rows == b.rows && a.rowsData == b.rowsData
    ensures a.defaultFg == b.defaultFg && a.defaultBg == b.defaultBg
  {
    var pa, pb := a.Picture(), b.Picture();
    assert pa.cols == pb.cols && pa.rows == pb.rows && pa.rowsData == pb.rowsData;
    assert pa.defaultFg == pb.defaultFg && pa.defaultBg == pb.defaultBg;
  }

  lemma DrainKeepsInv(hash: RowHash, sessionId: string, p: Pipe, selected: bool, inActiveWorkspace: bool, now: nat)
    requires Inv(hash, sessionId, p) && Safe(hash, p, Drain(selected, inActiveWorkspace, now))
    ensures Inv(hash, sessionId, Step(hash, sessionId, p, Drain(selected, inActiveWorkspace, now)))
  {
    PendingCovers(sessionId, p.pane, p.queue, p.painted);
    var waiting := p.pane.(pending := PendingAfterDrain(p.pane, p.queue));
    var pane := Drained(p.pane, p.queue, selected, inActiveWorkspace, now);
    if Presents(p.pane, p.queue, selected, now) {
      PresentingCovers(sessionId, waiting, pane.latest.value, now, p.painted);
    }
    assert PaneInv(sessionId, pane, p.painted) && SamePicture(Waiting(pane), LastOf(p.pane, p.queue));
  }

  /** Whatever was waiting is presented fully damaged, so it covers the step from any screen. */
  lemma SyncedPane(sessionId: string, pane: Pane, now: nat, painted: Option<Snapshot>)
    requires PaneInv(sessionId, pane, painted)
    ensures PaneInv(sessionId, Synced(pane, [], now), painted)
    ensures SamePicture(Waiting(Synced(pane, [], now)), Waiting(pane))
  {
    if Waiting(pane).Some? {
      PictureKeepsShape(FullyDamaged(Waiting(pane).value), Waiting(pane).value);
    }
  }

  lemma SyncKeepsInv(hash: RowHash, sessionId: string, p: Pipe, now: nat)
    requires Inv(hash, sessionId, p)
    ensures Inv(hash, sessionId, Step(hash, sessionId, p, Sync(now)))
  {
    SyncedQueue(sessionId, p.pane, p.queue, now, p.painted);
  }

  lemma SyncedQueue(sessionId: string, pane: Pane, queue: seq<Snapshot>, now: nat, painted: Option<Snapshot>)
    requires Chain(Waiting(pane), queue) && (forall i :: 0 <= i < |queue| ==> Sound(queue[i], sessionId))
    requires PaneInv(sessionId, pane, painted)
    ensures PaneInv(sessionId, Synced(pane, queue, now), painted)
    ensures SamePicture(Waiting(Synced(pane, queue, now)), LastOf(pane, queue))
  {
    if queue == [] {
      SyncedPane(sessionId, pane, now, painted);
    } else {
      BatchCovers(sessionId, Waiting(pane), queue);
      PictureKeepsShape(FullyDamaged(Coalesced(queue)), Coalesced(queue));
    }
  }

  lemma FrameKeepsInv(hash: RowHash, sessionId: string, p: Pipe)
    requires Inv(hash, sessionId, p)
    ensures Inv(hash, sessionId, Step(hash, sessionId, p, Frame))
  {
    if p.pane.latest.Some? {
      FrameIsFresh(p.cache, p.painted, p.pane.latest.value);
    }
  }

  lemma StepKeepsInv(hash: RowHash, sessionId: string, p: Pipe, e: Event)
    requires Inv(hash, sessionId, p) && Safe(hash, p, e)
    ensures Inv(hash, sessionId, Step(hash, sessionId, p, e))
  {
    match e
    case Extract(grid) => ExtractKeepsInv(hash, sessionId, p, grid);
    case Drain(selected, inActiveWorkspace, now) =>
      DrainKeepsInv(hash, sessionId, p, selected, inActiveWorkspace, now);
    case Sync(now) => SyncKeepsInv(hash, sessionId, p, now);
    case Frame => FrameKeepsInv(hash, sessionId, p);
  }

  ghost predicate SafeRun(hash: RowHash, sessionId: string, p: Pipe, events: seq<Event>)
    decreases |events|
  {
    events == [] ||
    (Safe(hash, p, events[0]) && SafeRun(hash, sessionId, Step(hash, sessionId, p, events[0]), events[1..]))
  }

  /** Every grid extracted has as many rows as it says. */
  predicate ValidGrids(events: seq<Event>) {
    forall i :: 0 <= i < |events| && events[i].Extract? ==> events[i].grid.Valid()
  }

  function Run(hash: RowHash, sessionId: string, p: Pipe, events: seq<Event>): Pipe
    requires ValidGrids(events)
    decreases |events|
  {
    if events == [] then p else Run(hash, sessionId, Step(hash, sessionId, p, events[0]), events[1..])
  }

  lemma {:induction false} SafeRunIsValid(hash: RowHash, sessionId: string, p: Pipe, events: seq<Event>)
    requires SafeRun(hash, sessionId, p, events)
    ensures ValidGrids(events)
    decreases |events|
  {
    if events != [] {
      SafeRunIsValid(hash, sessionId, Step(hash, sessionId, p, events[0]), events[1..]);
      assert events == [events[0]] + events[1..];
    }
  }

  lemma {:induction false} RunKeepsInv(hash: RowHash, sessionId: string, p: Pipe, events: seq<Event>)
    requires Inv(hash, sessionId, p) && SafeRun(hash, sessionId, p, events)
    ensures ValidGrids(events)
    ensures Inv(hash, sessionId, Run(hash, sessionId, p, events))
    decreases |events|
  {
    SafeRunIsValid(hash, sessionId, p, events);
    if events != [] {
      StepKeepsInv(hash, sessionId, p, events[0]);
      RunKeepsInv(hash, sessionId, Step(hash, sessionId, p, events[0]), events[1..]);
    }
  }

  /**
    * End to end: from any cache contents, after any safe run, everything painted is fresh: the rows
    * handed to the painter, the cached rows and the row views all equal a from-scratch paint of the
    * snapshot painted last. A frame right after the run paints the snapshot presented last.
    */
  lemma ScreenIsFresh(hash: RowHash, sessionId: string, cache: GridCache<ViewContent>, events: seq<Event>)
    requires SafeRun(hash, sessionId, Start(cache), events)
    ensures ValidGrids(events)
    ensures var p := Run(hash, sessionId, Start(cache), events);
            && (p.painted.Some? ==> Fresh(p.cache, p.painted.value) && p.input.Some? && FreshInput(p.input.value, p.painted.value))
            && (p.pane.latest.Some? ==>
                  && Fresh(FrameCache(p.cache, p.pane.latest.value), p.pane.latest.value)
                  && FreshInput(FrameInput(p.cache, p.pane.latest.value), p.pane.latest.value))
  {
    RunKeepsInv(hash, sessionId, Start(cache), events);
    var p := Run(hash, sessionId, Start(cache), events);
    if p.pane.latest.Some? {
      FrameIsFresh(p.cache, p.painted, p.pane.latest.value);
    }
  }

  lemma SamePictureFresh(c: GridCache<ViewContent>, input: PaintInput, a: Snapshot, b: Snapshot)
    requires a.Picture() == b.Picture() && Fresh(c, a) && FreshInput(input, a)
    ensures Fresh(c, b) && FreshInput(input, b)
  {
    PictureKeepsShape(a, b);
    forall r | 0 <= r < |a.rowsData| ensures FreshRow(a, ToRgba(a.defaultBg), r) == FreshRow(b, ToRgba(b.defaultBg), r) {
    }
  }

  /** Once nothing is queued or pending, the next frame shows exactly what the extractor gave last. */
  lemma LastExtractedIsShown(hash: RowHash, sessionId: string, cache: GridCache<ViewContent>, events: seq<Event>)
    requires SafeRun(hash, sessionId, Start(cache), events)
    ensures ValidGrids(events)
    ensures var p := Run(hash, sessionId, Start(cache), events);
            p.extracted.Some? && p.queue == [] && p.pane.pending.None? ==>
              var q := Step(hash, sessionId, p, Frame);
              Fresh(q.cache, p.extracted.value) && q.input.Some? && FreshInput(q.input.value, p.extracted.value)
  {
    RunKeepsInv(hash, sessionId, Start(cache), events);
    ScreenIsFresh(hash, sessionId, cache, events);
    var p := Run(hash, sessionId, Start(cache), events);
    if p.extracted.Some? && p.queue == [] && p.pane.pending.None? {
      var q := Step(hash, sessionId, p, Frame);
      SamePictureFresh(q.cache, q.input.value, p.pane.latest.value, p.extracted.value);
    }
  }

  lemma {:induction false} SafeRunExtends(hash: RowHash, sessionId: string, p: Pipe, events: seq<Event>, e: Event)
    requires SafeRun(hash, sessionId, p, events) && ValidGrids(events)
    requires Safe(hash, Run(hash, sessionId, p, events), e)
    ensures SafeRun(hash, sessionId, p, events + [e]) && ValidGrids(events + [e])
    ensures Run(hash, sessionId, p, events + [e]) == Step(hash, sessionId, Run(hash, sessionId, p, events), e)
    decreases |events|
  {
    var more := events + [e];
    if events == [] {
      assert more[1..] == [];
    } else {
      assert more[1..] == events[1..] + [e];
      SafeRunExtends(hash, sessionId, Step(hash, sessionId, p, events[0]), events[1..], e);
    }
  }

  /** After any safe run, a safe drain of a selected pane, or a sync, and then a frame show the last extraction. */
  lemma DrainedOrSyncedIsShown(hash: RowHash, sessionId: string, cache: GridCache<ViewContent>, events: seq<Event>, e: Event)
    requires SafeRun(hash, sessionId, Start(cache), events) && ValidGrids(events)
    requires Safe(hash, Run(hash, sessionId, Start(cache), events), e) && (e.Sync? || (e.Drain? && e.selected))
    ensures var p := Run(hash, sessionId, Start(cache), events);
            p.extracted.Some? ==>
              var q := Step(hash, sessionId, Step(hash, sessionId, p, e), Frame);
              Fresh(q.cache, p.extracted.value) && q.input.Some? && FreshInput(q.input.value, p.extracted.value)
  {
    SafeRunExtends(hash, sessionId, Start(cache), events, e);
    LastExtractedIsShown(hash, sessionId, cache, events + [e]);
  }

  // ----- every run, safe or not -----

  /**
    * Over every run whatsoever, stale pictures included: the views show exactly the cached rows, and the paint
    * input of the last frame holds them, although each frame refreshed only the views of flagged rows.
    */
  lemma {:induction false} ViewsShowRows(hash: RowHash, sessionId: string, p: Pipe, events: seq<Event>)
    requires ValidGrids(events) && Coherent(p.cache) && (p.input.Some? ==> ShowsRows(p.input.value, p.cache))
    ensures var q := Run(hash, sessionId, p, events);
            Coherent(q.cache) && (q.input.Some? ==> ShowsRows(q.input.value, q.cache))
    decreases |events|
  {
    if events != [] {
      if events[0].Frame? && p.pane.latest.Some? {
        FrameKeepsCoherent(p.cache, p.pane.latest.value);
      }
      ViewsShowRows(hash, sessionId, Step(hash, sessionId, p, events[0]), events[1..]);
    }
  }

  // ----- when runs are safe -----

  /** Nothing is pending when a batch arrives, and what was presented has been painted. */
  ghost predicate Disciplined(hash: RowHash, p: Pipe, e: Event) {
    && (e.Extract? ==> Safe(hash, p, e))
    && (e.Drain? ==>
          && (p.queue != [] ==> p.pane.pending.None?)
          && (Presents(p.pane, p.queue, e.selected, e.now) && e.inActiveWorkspace ==> LatestShown(p)))
  }

  lemma DisciplinedIsSafe(hash: RowHash, p: Pipe, e: Event)
    requires Disciplined(hash, p, e)
    ensures Safe(hash, p, e)
  {
  }

  ghost predicate DisciplinedRun(hash: RowHash, sessionId: string, p: Pipe, events: seq<Event>)
    decreases |events|
  {
    events == [] ||
    (Disciplined(hash, p, events[0]) && DisciplinedRun(hash, sessionId, Step(hash, sessionId, p, events[0]), events[1..]))
  }

  lemma {:induction false} DisciplinedRunIsSafe(hash: RowHash, sessionId: string, p: Pipe, events: seq<Event>)
    requires DisciplinedRun(hash, sessionId, p, events)
    ensures SafeRun(hash, sessionId, p, events)
    decreases |events|
  {
    if events != [] {
      DisciplinedIsSafe(hash, p, events[0]);
      DisciplinedRunIsSafe(hash, sessionId, Step(hash, sessionId, p, events[0]), events[1..]);
    }
  }

  /**
    * The screen is fresh after every run in which differing rows hash differently, no pending snapshot is
    * overwritten and each presented snapshot is painted before the next.
    */
  lemma DisciplinedScreenIsFresh(hash: RowHash, sessionId: string, cache: GridCache<ViewContent>, events: seq<Event>)
    requires DisciplinedRun(hash, sessionId, Start(cache), events)
    ensures SafeRun(hash, sessionId, Start(cache), events) && ValidGrids(events)
    ensures var p := Run(hash, sessionId, Start(cache), events);
            p.painted.Some? ==> Fresh(p.cache, p.painted.value) && p.input.Some? && FreshInput(p.input.value, p.painted.value)
  {
    DisciplinedRunIsSafe(hash, sessionId, Start(cache), events);
    ScreenIsFresh(hash, sessionId, cache, events);
  }

  /** As a disciplined run, but instead of asking for no overwrite: every drain finds the pane selected. */
  ghost predicate SelectedRun(hash: RowHash, sessionId: string, p: Pipe, events: seq<Event>)
    decreases |events|
  {
    events == [] ||
    var e := events[0];
    && (e.Extract? ==> Safe(hash, p, e))
    && (e.Drain? ==> e.selected && (Presents(p.pane, p.queue, true, e.now) && e.inActiveWorkspace ==> LatestShown(p)))
    && SelectedRun(hash, sessionId, Step(hash, sessionId, p, e), events[1..])
  }

  /** A pane that stays selected is never rate limited, so nothing pending is ever overwritten. */
  lemma {:induction false} SelectedRunIsDisciplined(hash: RowHash, sessionId: string, p: Pipe, events: seq<Event>)
    requires SelectedRun(hash, sessionId, p, events) && p.pane.pending.None?
    ensures DisciplinedRun(hash, sessionId, p, events)
    decreases |events|
  {
    if events != [] {
      SelectedRunIsDisciplined(hash, sessionId, Step(hash, sessionId, p, events[0]), events[1..]);
    }
  }

  // ----- runs that are not safe -----

  function Shown(upper: Row, lower: Row): Grid {
    Grid(1, 2, Rgb(255, 255, 255), Rgb(0, 0, 0), [upper, lower])
  }

  /**
    * Three moments of a pane with no frame between the last two: the first picture painted, the second one
    * drained but not painted, the third one presented.
    */
  function FirstPainted(hash: RowHash, sessionId: string, cache: GridCache<ViewContent>): Pipe {
    var p := Step(hash, sessionId, Start(cache), Extract(Shown([], [])));
    Step(hash, sessionId, Step(hash, sessionId, p, Drain(false, true, 0)), Frame)
  }

  function SecondUnpainted(hash: RowHash, sessionId: string, cache: GridCache<ViewContent>, selected: bool): Pipe {
    var p := Step(hash, sessionId, FirstPainted(hash, sessionId, cache), Extract(Shown([MARK], [])));
    Step(hash, sessionId, p, Drain(selected, true, 10))
  }

  function ThirdPresented(hash: RowHash, sessionId: string, cache: GridCache<ViewContent>, selected: bool): Pipe {
    var p := Step(hash, sessionId, SecondUnpainted(hash, sessionId, cache, selected), Extract(Shown([MARK], [MARK])));
    Step(hash, sessionId, p, Drain(selected, true, 200))
  }

  lemma CoalescedSingle(s: Snapshot)
    requires NormalDamage(s)
    ensures forall r :: r in Coalesced([s]).damage.rows <==> r in s.damage.rows
    ensures Coalesced([s]).damage.full == s.damage.full
  {
    assert s.damage.full ==> [s][0].damage.full;
    assert forall r :: r in s.damage.rows ==> r in [s][0].damage.rows;
    assert ReportedRows([s]) == set r | r in s.damage.rows;
  }

  lemma FirstIsPainted(hash: RowHash, sessionId: string, cache: GridCache<ViewContent>)
    ensures var p := FirstPainted(hash, sessionId, cache);
            && p.queue == [] && p.pane.pending.None? && p.pane.presentedAt == Some(0)
            && p.painted.Some? && p.painted.value.Picture() == Shown([], [])
            && Fresh(p.cache, p.painted.value)
            && p.extractor == AfterExtract(hash, Shown([], []))
  {
    var grid := Shown([], []);
    var s := Extracted(hash, FRESH_EXTRACTOR, sessionId, grid);
    FirstSnapshotIsFull(hash, sessionId, grid);
    CoalescedSingle(s);
    assert [] + [s] == [s];
    FrameIsFresh(cache, None, Coalesced([s]));
  }

  /** Unselected, the second snapshot is held back; selected, it is presented at once. */
  lemma SecondIsNotPainted(hash: RowHash, sessionId: string, cache: GridCache<ViewContent>, selected: bool)
    ensures var p, q := FirstPainted(hash, sessionId, cache), SecondUnpainted(hash, sessionId, cache, selected);
            && q.queue == [] && q.cache == p.cache
            && (if selected then q.pane.pending.None? && q.pane.presentedAt == Some(10)
                else q.pane.pending.Some? && q.pane.presentedAt == Some(0))
            && q.extractor == AfterExtract(hash, Shown([MARK], []))
  {
    FirstIsPainted(hash, sessionId, cache);
  }

  /** Between the second picture and the third only the lower row changes. */
  lemma LowerRowOnly(hash: RowHash, sessionId: string)
    ensures var s := Extracted(hash, AfterExtract(hash, Shown([MARK], [])), sessionId, Shown([MARK], [MARK]));
            && s.Picture() == Shown([MARK], [MARK]) && !s.damage.full && 0 !in s.damage.rows
            && Coalesced([s]).Picture() == s.Picture()
            && !Coalesced([s]).damage.full && 0 !in Coalesced([s]).damage.rows
  {
    var st := AfterExtract(hash, Shown([MARK], []));
    var s := Extracted(hash, st, sessionId, Shown([MARK], [MARK]));
    assert st.rowHashes[0] == hash(Shown([MARK], []).rowsData[0]);
    assert 0 !in ChangedRows(hash, st, Shown([MARK], [MARK]));
    CoalescedSingle(s);
  }

  lemma PresentedLate(pane: Pane, s: Snapshot, selected: bool)
    requires selected || pane.presentedAt == Some(0)
    ensures Drained(pane, [s], selected, true, 200) == Pane(Some(Coalesced([s])), None, Some(200))
  {
  }

  lemma ThirdReportsLowerRowOnly(hash: RowHash, sessionId: string, cache: GridCache<ViewContent>, selected: bool)
    ensures var p, q := FirstPainted(hash, sessionId, cache), ThirdPresented(hash, sessionId, cache, selected);
            && q.cache == p.cache && q.pane.latest.Some?
            && q.pane.latest.value.Picture() == Shown([MARK], [MARK])
            && !q.pane.latest.value.damage.full && 0 !in q.pane.latest.value.damage.rows
  {
    SecondIsNotPainted(hash, sessionId, cache, selected);
    LowerRowOnly(hash, sessionId);
    var p := SecondUnpainted(hash, sessionId, cache, selected);
    var s := Extracted(hash, p.extractor, sessionId, Shown([MARK], [MARK]));
    assert p.queue + [s] == [s];
    PresentedLate(p.pane, s, selected);
    assert ThirdPresented(hash, sessionId, cache, selected).pane.latest == Some(Coalesced([s]));
  }

  lemma ShownParts(s: Snapshot, upper: Row, lower: Row)
    requires s.Picture() == Shown(upper, lower)
    ensures s.cols == 1 && s.rows == 2 && s.rowsData == [upper, lower]
    ensures s.defaultFg == Rgb(255, 255, 255) && s.defaultBg == Rgb(0, 0, 0)
  {
    var p := s.Picture();
    assert p.cols == 1 && p.rows == 2 && p.rowsData == [upper, lower];
    assert p.defaultFg == Rgb(255, 255, 255) && p.defaultBg == Rgb(0, 0, 0);
  }

  /**
    * The third frame keeps a stale upper row on screen, whatever the hash and the initial cache: unselected,
    * because the held-back snapshot was overwritten; selected, because the presented one was replaced before
    * it was painted. Both safety conditions are needed.
    */
  lemma UnpaintedDamageIsLost(hash: RowHash, sessionId: string, cache: GridCache<ViewContent>, selected: bool)
    ensures var q := ThirdPresented(hash, sessionId, cache, selected);
            q.pane.latest.Some? && !Fresh(Step(hash, sessionId, q, Frame).cache, q.pane.latest.value)
  {
    FirstIsPainted(hash, sessionId, cache);
    ThirdReportsLowerRowOnly(hash, sessionId, cache, selected);
    var p, q := FirstPainted(hash, sessionId, cache), ThirdPresented(hash, sessionId, cache, selected);
    var first, s := p.painted.value, q.pane.latest.value;
    ShownParts(first, [], []);
    ShownParts(s, [MARK], [MARK]);
    assert [MARK] == [] + [MARK];
    StaleRow(q.cache, first, s, 0);
  }
}
