/** Draining, rate limiting and presenting the snapshots of one live terminal pane. */
module LivePane {
  import opened Common
  import opened TerminalSnapshots
  import opened SnapshotDamage

  const TERMINAL_BACKGROUND_FRAME_INTERVAL := 100

  /** Instants and durations are in milliseconds. */
  function SaturatingSince(now: nat, earlier: nat): nat {
    if now >= earlier then now - earlier else 0
  }

  /** How long a pending snapshot still has to wait; None when nothing has to wait. */
  function PresentationDelay(hasPending: bool, lastPresentedAt: Option<nat>, focused: bool, now: nat): Option<nat> {
    if !hasPending || focused then None
    else if lastPresentedAt.None? then None
    else
      var elapsed := SaturatingSince(now, lastPresentedAt.value);
      if elapsed >= TERMINAL_BACKGROUND_FRAME_INTERVAL then None
      else Some(TERMINAL_BACKGROUND_FRAME_INTERVAL - elapsed)
  }

  /**
    * Only an unfocused pane presented less than 100 ms ago waits, until 100 ms are over: a deferral timer set
    * for the reported delay is exactly long enough, never early, never late.
    */
  lemma DelayIsExact(lastPresentedAt: Option<nat>, focused: bool, now: nat, waited: nat)
    requires lastPresentedAt.Some? ==> lastPresentedAt.value <= now
    ensures var delay := PresentationDelay(true, lastPresentedAt, focused, now);
            && (delay.Some? <==> !focused && lastPresentedAt.Some? && now < lastPresentedAt.value + 100)
            && (delay.Some? ==>
              && now + delay.value == lastPresentedAt.value + 100
              && (PresentationDelay(true, lastPresentedAt, focused, now + waited).None? <==> waited >= delay.value))
  {
  }

  datatype Pane = Pane(latest: Option<Snapshot>, pending: Option<Snapshot>, presentedAt: Option<nat>)

  /** The pending slot after the queue is drained: a coalesced batch replaces whatever was there. */
  function PendingAfterDrain(pane: Pane, queue: seq<Snapshot>): Option<Snapshot> {
    if queue == [] then pane.pending else Some(Coalesced(queue))
  }

  predicate Presents(pane: Pane, queue: seq<Snapshot>, selected: bool, now: nat) {
    PendingAfterDrain(pane, queue).Some? && PresentationDelay(true, pane.presentedAt, selected, now).None?
  }

  function Drained(pane: Pane, queue: seq<Snapshot>, selected: bool, inActiveWorkspace: bool, now: nat): Pane {
    var pending := PendingAfterDrain(pane, queue);
    if Presents(pane, queue, selected, now) then
      Pane(Some(if inActiveWorkspace then pending.value else FullyDamaged(pending.value)), None, Some(now))
    else pane.(pending := pending)
  }

  function Synced(pane: Pane, queue: seq<Snapshot>, now: nat): Pane {
    var pending := PendingAfterDrain(pane, queue);
    if pending.Some? then Pane(Some(FullyDamaged(pending.value)), None, Some(now))
    else if pane.latest.Some? then pane.(latest := Some(FullyDamaged(pane.latest.value)))
    else pane
  }

  class LiveTerminalPane {
    var latest: Option<Snapshot>
    var pendingSnapshot: Option<Snapshot>
    var lastPresentedSnapshotAt: Option<nat>

    function State(): Pane
      reads this
    {
      Pane(latest, pendingSnapshot, lastPresentedSnapshotAt)
    }

    constructor ()
      ensures State() == Pane(None, None, None)
    {
      latest, pendingSnapshot, lastPresentedSnapshotAt := None, None, None;
    }

    method TakePresentableSnapshot(focused: bool, now: nat) returns (snapshot: Option<Snapshot>)
      modifies this`pendingSnapshot
      ensures var delayed := PresentationDelay(old(pendingSnapshot).Some?, lastPresentedSnapshotAt, focused, now).Some?;
              && snapshot == (if delayed then None else old(pendingSnapshot))
              && pendingSnapshot == (if delayed then old(pendingSnapshot) else None)
    {
      if PresentationDelay(pendingSnapshot.Some?, lastPresentedSnapshotAt, focused, now).Some? {
        return None;
      }
      snapshot := pendingSnapshot;
      pendingSnapshot := None;
    }

    /** One pane's turn in the drain loop; `queue` is what its channel holds. */
    method Drain(queue: seq<Snapshot>, selected: bool, inActiveWorkspace: bool, now: nat)
      returns (presented: bool, deferFor: Option<nat>)
      modifies this
      ensures State() == Drained(old(State()), queue, selected, inActiveWorkspace, now)
      ensures presented == Presents(old(State()), queue, selected, now)
      ensures deferFor == if presented then None
                          else PresentationDelay(pendingSnapshot.Some?, lastPresentedSnapshotAt, selected, now)
    {
      var coalesced := CoalesceTerminalSnapshots(queue);
      if coalesced.Some? {
        pendingSnapshot := coalesced;
      }
      var snapshot := TakePresentableSnapshot(selected, now);
      presented, deferFor := snapshot.Some?, None;
      if snapshot.Some? {
        var shown := snapshot.value;
        if !inActiveWorkspace {
          shown := MarkTerminalSnapshotFullDamage(shown);
        }
        latest := Some(shown);
        lastPresentedSnapshotAt := Some(now);
      } else if pendingSnapshot.Some? {
        deferFor := PresentationDelay(true, lastPresentedSnapshotAt, selected, now);
      }
    }

    /** One pane's turn when its workspace becomes the active one. */
    method SyncActiveWorkspace(queue: seq<Snapshot>, now: nat)
      modifies this
      ensures State() == Synced(old(State()), queue, now)
    {
      var coalesced := CoalesceTerminalSnapshots(queue);
      if coalesced.Some? {
        var marked := MarkTerminalSnapshotFullDamage(coalesced.value);
        pendingSnapshot := Some(marked);
      }
      if pendingSnapshot.Some? {
        var shown := MarkTerminalSnapshotFullDamage(pendingSnapshot.value);
        pendingSnapshot := None;
        latest := Some(shown);
        lastPresentedSnapshotAt := Some(now);
      } else if latest.Some? {
        var shown := MarkTerminalSnapshotFullDamage(latest.value);
        latest := Some(shown);
      }
    }
  }

  // ----- replacing a snapshot that nobody has consumed yet -----

  /** Every row `dropped` reports is reported by `kept` too. */
  predicate ReportsAsMuch(kept: Snapshot, dropped: Snapshot) {
    kept.damage.full || (!dropped.damage.full && forall r :: r in dropped.damage.rows ==> r in kept.damage.rows)
  }

  /**
    * Replacing an unconsumed snapshot by its successor, without merging damage, is right for every
    * earlier picture that the dropped damage covered if and only if the kept damage reports as much.
    */
  lemma ReplacingUnconsumed(dropped: Snapshot, kept: Snapshot)
    requires dropped.Valid() && kept.Valid() && NormalDamage(dropped) && NormalDamage(kept)
    requires Covers(Some(dropped), kept)
    ensures ReportsAsMuch(kept, dropped) <==>
            forall base: Option<Snapshot> :: Covers(base, dropped) ==> Covers(base, kept)
  {
    if ReportsAsMuch(kept, dropped) {
      forall base: Option<Snapshot> | Covers(base, dropped) ensures Covers(base, kept) {
        ReplacingKeepsCover(base, dropped, kept);
      }
    } else if dropped.damage.full {
      assert Covers(None, dropped) && !Covers(None, kept);
    } else {
      var r :| r in dropped.damage.rows && r !in kept.damage.rows;
      var other := dropped.(rowsData := dropped.rowsData[r := dropped.rowsData[r] + [BLANK]]);
      assert other.rowsData[r] != dropped.rowsData[r];
      assert Covers(Some(other), dropped);
      assert dropped.rowsData[r] == kept.rowsData[r];
      assert !Covers(Some(other), kept);
    }
  }

  const BLANK := Cell(" ", 1, None, None, false, false, false, false, false, false, false, false, false)

  lemma ReplacingKeepsCover(base: Option<Snapshot>, dropped: Snapshot, kept: Snapshot)
    requires Covers(base, dropped) && Covers(Some(dropped), kept) && ReportsAsMuch(kept, dropped)
    ensures Covers(base, kept)
  {
    if !kept.damage.full {
      forall r | 0 <= r < |kept.rowsData| && base.value.rowsData[r] != kept.rowsData[r]
        ensures r in kept.damage.rows
      {
        if dropped.rowsData[r] == kept.rowsData[r] { assert r in dropped.damage.rows; }
      }
    }
  }
}
