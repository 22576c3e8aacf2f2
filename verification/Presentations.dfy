/** When a terminal pane presents what it has, over every run, and what full damage makes good again. */
module Presentations {
  import opened Common
  import opened TerminalSnapshots
  import opened SnapshotExtractors
  import opened SnapshotDamage
  import opened RenderCache
  import opened GridFrames
  import opened LivePane
  import opened RenderPipeline

  /** Something is queued or held back. */
  predicate Waits(p: Pipe) {
    p.queue != [] || p.pane.pending.Some?
  }

  /** The step brings what waits into the latest presented slot. */
  predicate Presented(hash: RowHash, sessionId: string, p: Pipe, e: Event) {
    (e.Drain? || e.Sync?) && Waits(p) && !Waits(Step(hash, sessionId, p, e))
  }

  /** When the pane last presented something in a run; `before` is the answer if it did not. */
  function LastPresented(hash: RowHash, sessionId: string, p: Pipe, events: seq<Event>, before: Option<nat>): Option<nat>
    requires ValidGrids(events)
    decreases |events|
  {
    if events == [] then before
    else
      var e := events[0];
      LastPresented(hash, sessionId, Step(hash, sessionId, p, e), events[1..],
                    if Presented(hash, sessionId, p, e) then Some(e.now) else before)
  }

  lemma {:induction false} PresentedAtIsHistory(hash: RowHash, sessionId: string, p: Pipe, events: seq<Event>)
    requires ValidGrids(events)
    ensures Run(hash, sessionId, p, events).pane.presentedAt == LastPresented(hash, sessionId, p, events, p.pane.presentedAt)
    decreases |events|
  {
    if events != [] {
      PresentedAtIsHistory(hash, sessionId, Step(hash, sessionId, p, events[0]), events[1..]);
    }
  }

  /** Drained later than 100 ms after the last presentation, or never presented yet. */
  predicate LongAgo(last: Option<nat>, now: nat) {
    last.None? || now >= last.value + 100
  }

  /**
    * Over every run: a drain presents what waits exactly when the pane is selected or its last presentation, by
    * a drain or by a sync, is 100 ms old; a sync presents whatever waits.
    */
  lemma PresentsExactly(hash: RowHash, sessionId: string, cache: GridCache<ViewContent>, events: seq<Event>, e: Event)
    requires ValidGrids(events) && (e.Drain? || e.Sync?)
    ensures var p := Run(hash, sessionId, Start(cache), events);
            var last := LastPresented(hash, sessionId, Start(cache), events, None);
            Presented(hash, sessionId, p, e) <==> Waits(p) && (e.Sync? || e.selected || LongAgo(last, e.now))
  {
    PresentedAtIsHistory(hash, sessionId, Start(cache), events);
  }

  // ----- what is presented, safe or not -----

  /** What was extracted last is the end of the queue, or else held back, or else presented. */
  ghost predicate NothingForgotten(p: Pipe) {
    && SamePicture(p.extracted, LastOf(p.pane, p.queue))
    && (p.extracted.Some? ==> p.extracted.value.Valid())
  }

  lemma StepForgetsNothing(hash: RowHash, sessionId: string, p: Pipe, e: Event)
    requires NothingForgotten(p) && (e.Extract? ==> e.grid.Valid())
    ensures NothingForgotten(Step(hash, sessionId, p, e))
  {
  }

  lemma {:induction false} RunForgetsNothing(hash: RowHash, sessionId: string, p: Pipe, events: seq<Event>)
    requires NothingForgotten(p) && ValidGrids(events)
    ensures NothingForgotten(Run(hash, sessionId, p, events))
    decreases |events|
  {
    if events != [] {
      StepForgetsNothing(hash, sessionId, p, events[0]);
      RunForgetsNothing(hash, sessionId, Step(hash, sessionId, p, events[0]), events[1..]);
    }
  }

  /** A sync, or a drain that presents a pane outside the active workspace. */
  predicate DamagesAll(hash: RowHash, sessionId: string, p: Pipe, e: Event) {
    e.Sync? || (e.Drain? && !e.inActiveWorkspace && Presented(hash, sessionId, p, e))
  }

  /** Such a step leaves the last extraction presented and fully damaged. */
  lemma LatestIsFull(hash: RowHash, sessionId: string, p: Pipe, e: Event)
    requires NothingForgotten(p) && DamagesAll(hash, sessionId, p, e) && p.extracted.Some?
    ensures var q := Step(hash, sessionId, p, e);
            && q.cache == p.cache
            && q.pane.latest.Some? && q.pane.latest.value.damage.full
            && q.pane.latest.value.Picture() == p.extracted.value.Picture()
  {
  }

  /**
    * Full damage makes everything good: after any run at all, safe or not, stale pictures included, a sync, or
    * presenting a pane that is not in the active workspace, and then a frame show the last extraction.
    */
  lemma FullDamageHeals(hash: RowHash, sessionId: string, cache: GridCache<ViewContent>, events: seq<Event>, e: Event)
    requires ValidGrids(events)
    requires DamagesAll(hash, sessionId, Run(hash, sessionId, Start(cache), events), e)
    ensures var p := Run(hash, sessionId, Start(cache), events);
            p.extracted.Some? ==>
              var q := Step(hash, sessionId, Step(hash, sessionId, p, e), Frame);
              Fresh(q.cache, p.extracted.value) && q.input.Some? && FreshInput(q.input.value, p.extracted.value)
  {
    RunForgetsNothing(hash, sessionId, Start(cache), events);
    var p := Run(hash, sessionId, Start(cache), events);
    if p.extracted.Some? {
      var q := Step(hash, sessionId, p, e);
      LatestIsFull(hash, sessionId, p, e);
      var s := q.pane.latest.value;
      FrameIsFresh(q.cache, None, s);
      SamePictureFresh(FrameCache(q.cache, s), FrameInput(q.cache, s), s, p.extracted.value);
    }
  }

  /** What a drain does not present it keeps, and it touches nothing that was presented before. */
  lemma UnpresentedIsKept(hash: RowHash, sessionId: string, p: Pipe, e: Event)
    requires NothingForgotten(p) && e.Drain? && Waits(p) && !Presented(hash, sessionId, p, e)
    ensures var q := Step(hash, sessionId, p, e);
            && q.pane.latest == p.pane.latest && q.pane.presentedAt == p.pane.presentedAt
            && q.pane.pending.Some? && p.extracted.Some?
            && q.pane.pending.value.Picture() == p.extracted.value.Picture()
  {
  }

  /** A drain with nothing waiting leaves the pane as it was. */
  lemma IdleDrainChangesNothing(hash: RowHash, sessionId: string, p: Pipe, e: Event)
    requires e.Drain? && !Waits(p)
    ensures Step(hash, sessionId, p, e) == p
  {
  }
}
