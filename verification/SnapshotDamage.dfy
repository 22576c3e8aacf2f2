/** Coalescing of queued snapshots and full-damage marking. */
module SnapshotDamage {
  import opened Common
  import opened TerminalSnapshots

  function AllRows(n: nat): (rows: seq<u16>)
    requires n <= 0x1_0000
    ensures |rows| == n && StrictlyIncreasing(rows)
    ensures forall r :: r in rows <==> 0 <= r < n
  {
    var rows := seq(n, r requires 0 <= r < n => r);
    assert forall r | 0 <= r < n :: r in rows by {
      forall r | 0 <= r < n ensures r in rows { assert rows[r] == r; }
    }
    rows
  }

  /** `s` with every row reported dirty. */
  function FullyDamaged(s: Snapshot): (t: Snapshot)
    ensures t.Picture() == s.Picture() && t.sessionId == s.sessionId
    ensures NormalDamage(t) && t.damage.full
  {
    CellCountFits(s.rows, s.cols);
    var rows := AllRows(s.rows);
    s.(damage := Damage(true, rows, s.rows * s.cols), dirtyRows := s.rows, dirtyCells := s.rows * s.cols)
  }

  method MarkTerminalSnapshotFullDamage(snapshot: Snapshot) returns (s: Snapshot)
    ensures s == FullyDamaged(snapshot)
  {
    s := snapshot;
    CellCountFits(s.rows, s.cols);
    var rows := AllRows(s.rows);
    var cells := (|rows| * s.cols) % 0x1_0000_0000;
    s := s.(damage := Damage(true, rows, cells));
    s := s.(dirtyRows := |s.damage.rows|, dirtyCells := s.damage.cells);
  }

  predicate SameShape(a: Snapshot, b: Snapshot) {
    a.sessionId == b.sessionId && a.cols == b.cols && a.rows == b.rows
  }

  /** Some member is fully damaged, or differs in session or size from the one before it. */
  predicate ForcesFull(snapshots: seq<Snapshot>) {
    || (exists i :: 0 <= i < |snapshots| && snapshots[i].damage.full)
    || (exists i :: 0 < i < |snapshots| && !SameShape(snapshots[i - 1], snapshots[i]))
  }

  /** Every row reported by some member. */
  function ReportedRows(snapshots: seq<Snapshot>): (rows: set<int>)
    ensures forall r :: r in rows <==> exists i :: 0 <= i < |snapshots| && r in snapshots[i].damage.rows
  {
    set i, r | 0 <= i < |snapshots| && r in snapshots[i].damage.rows :: r
  }

  function Coalesced(snapshots: seq<Snapshot>): (s: Snapshot)
    requires snapshots != []
    ensures s.Picture() == snapshots[|snapshots| - 1].Picture()
    ensures s.sessionId == snapshots[|snapshots| - 1].sessionId
    ensures NormalDamage(s)
    ensures ForcesFull(snapshots) ==> s.damage.full
    ensures !ForcesFull(snapshots) ==>
              forall r :: r in s.damage.rows <==> 0 <= r < s.rows && r in ReportedRows(snapshots)
  {
    var latest := snapshots[|snapshots| - 1];
    if ForcesFull(snapshots) then
      FullyDamaged(latest)
    else
      var rows := RowsBelow(latest.rows, ReportedRows(snapshots));
      CountTellsAllListed(latest.rows, ReportedRows(snapshots));
      CellCountFits(|rows|, latest.cols);
      var cells := |rows| * latest.cols;
      latest.(damage := Damage(|rows| == latest.rows, rows, cells), dirtyRows := |rows|, dirtyCells := cells)
  }

  method CoalesceTerminalSnapshots(snapshots: seq<Snapshot>) returns (r: Option<Snapshot>)
    ensures snapshots == [] ==> r == None
    ensures snapshots != [] ==> r == Some(Coalesced(snapshots))
  {
    if snapshots == [] {
      return None;
    }
    var latest := snapshots[0];
    var dirtyRows: set<int> := set row | row in latest.damage.rows;
    var forceFull := latest.damage.full;
    var previousSessionId := latest.sessionId;
    var previousSize := (latest.cols, latest.rows);
    var i := 1;
    while i < |snapshots|
      invariant 1 <= i <= |snapshots|
      invariant latest == snapshots[i - 1]
      invariant previousSessionId == latest.sessionId && previousSize == (latest.cols, latest.rows)
      invariant dirtyRows == ReportedRows(snapshots[..i])
      invariant forceFull == ForcesFull(snapshots[..i])
    {
      var snapshot := snapshots[i];
      ForcesFullStep(snapshots, i);
      ReportedRowsStep(snapshots, i);
      if snapshot.damage.full || snapshot.sessionId != previousSessionId
         || (snapshot.cols, snapshot.rows) != previousSize {
        forceFull := true;
      }
      dirtyRows := dirtyRows + set row | row in snapshot.damage.rows;
      previousSessionId := snapshot.sessionId;
      previousSize := (snapshot.cols, snapshot.rows);
      latest := snapshot;
      i := i + 1;
    }
    assert snapshots[..|snapshots|] == snapshots;
    if forceFull {
      latest := MarkTerminalSnapshotFullDamage(latest);
    } else {
      var rows := RowsBelow(latest.rows, dirtyRows);
      CellCountFits(|rows|, latest.cols);
      var cells := (|rows| * latest.cols) % 0x1_0000_0000;
      latest := latest.(damage := Damage(|rows| == latest.rows, rows, cells));
      latest := latest.(dirtyRows := |latest.damage.rows|, dirtyCells := latest.damage.cells);
    }
    r := Some(latest);
  }

  lemma ForcesFullStep(snapshots: seq<Snapshot>, i: nat)
    requires 0 < i < |snapshots|
    ensures ForcesFull(snapshots[..i + 1]) <==>
            ForcesFull(snapshots[..i]) || snapshots[i].damage.full || !SameShape(snapshots[i - 1], snapshots[i])
  {
    var a, b := snapshots[..i], snapshots[..i + 1];
    assert forall k :: 0 <= k < i ==> a[k] == b[k];
    assert b[i] == snapshots[i] && b[i - 1] == snapshots[i - 1];
  }

  lemma ReportedRowsStep(snapshots: seq<Snapshot>, i: nat)
    requires i < |snapshots|
    ensures ReportedRows(snapshots[..i + 1]) == ReportedRows(snapshots[..i]) + set row | row in snapshots[i].damage.rows
  {
    var a, b := snapshots[..i], snapshots[..i + 1];
    assert b[i] == snapshots[i];
    forall r | r in ReportedRows(a) ensures r in ReportedRows(b) {
      var k :| 0 <= k < |a| && r in a[k].damage.rows;
      assert b[k] == a[k];
    }
    forall r | r in ReportedRows(b) && r !in snapshots[i].damage.rows ensures r in ReportedRows(a) {
      var k :| 0 <= k < |b| && r in b[k].damage.rows;
      assert k < i && a[k] == b[k];
    }
  }

  ghost function Before(base: Option<Snapshot>, snapshots: seq<Snapshot>, i: nat): Option<Snapshot>
    requires i < |snapshots|
  {
    if i == 0 then base else Some(snapshots[i - 1])
  }

  /** Each member's damage covers its change from the one before it, the first one from `base`. */
  ghost predicate Chain(base: Option<Snapshot>, snapshots: seq<Snapshot>)
  {
    forall i :: 0 <= i < |snapshots| ==> Covers(Before(base, snapshots, i), snapshots[i])
  }

  /** Whatever the batch, the coalesced damage covers the whole change since before the batch. */
  lemma CoalescedCovers(base: Option<Snapshot>, snapshots: seq<Snapshot>)
    requires snapshots != [] && Chain(base, snapshots)
    requires forall i :: 0 <= i < |snapshots| ==> snapshots[i].Valid()
    ensures Covers(base, Coalesced(snapshots))
  {
    var s := Coalesced(snapshots);
    if !ForcesFull(snapshots) {
      assert Covers(Before(base, snapshots, 0), snapshots[0]);
      SameShapeThroughout(snapshots, |snapshots| - 1);
      forall r | 0 <= r < |s.rowsData| && base.value.rowsData[r] != s.rowsData[r]
        ensures r in s.damage.rows
      {
        SomeMemberReports(base, snapshots, |snapshots| - 1, r);
      }
    }
  }

  lemma {:induction false} SameShapeThroughout(snapshots: seq<Snapshot>, k: nat)
    requires k < |snapshots| && !ForcesFull(snapshots)
    ensures SameShape(snapshots[0], snapshots[k])
  {
    if k > 0 {
      SameShapeThroughout(snapshots, k - 1);
      assert SameShape(snapshots[k - 1], snapshots[k]);
    }
  }

  lemma {:induction false} SomeMemberReports(base: Option<Snapshot>, snapshots: seq<Snapshot>, k: nat, r: nat)
    requires k < |snapshots| && Chain(base, snapshots) && !ForcesFull(snapshots)
    requires forall i :: 0 <= i < |snapshots| ==> snapshots[i].Valid()
    requires base.Some? && r < |base.value.rowsData| && r < |snapshots[k].rowsData|
    requires base.value.rowsData[r] != snapshots[k].rowsData[r]
    ensures r in ReportedRows(snapshots)
  {
    if r !in snapshots[k].damage.rows {
      assert Covers(Before(base, snapshots, k), snapshots[k]);
      if k > 0 {
        SomeMemberReports(base, snapshots, k - 1, r);
      }
    }
  }

  /** The batch changes neither session nor size. */
  predicate OneShape(snapshots: seq<Snapshot>) {
    forall i :: 0 <= i < |snapshots| ==> SameShape(snapshots[0], snapshots[i])
  }

  predicate IsFullyDamaged(s: Snapshot) {
    s.damage.full && |s.damage.rows| == s.rows && forall i :: 0 <= i < s.rows ==> s.damage.rows[i] == i
  }

  /**
    * A batch with a fully damaged member, or one that changes session or size anywhere, coalesces to a fully
    * damaged snapshot; any other reports just the rows some member reports, and none besides.
    */
  lemma CoalescedReportsExactly(snapshots: seq<Snapshot>)
    requires snapshots != []
    ensures var s := Coalesced(snapshots);
            if (exists i :: 0 <= i < |snapshots| && snapshots[i].damage.full) || !OneShape(snapshots) then IsFullyDamaged(s)
            else forall r :: r in s.damage.rows <==> r < s.rows && exists i :: 0 <= i < |snapshots| && r in snapshots[i].damage.rows
  {
    var s := Coalesced(snapshots);
    if !OneShape(snapshots) {
      var i :| 0 <= i < |snapshots| && !SameShape(snapshots[0], snapshots[i]);
      if !ForcesFull(snapshots) { SameShapeThroughout(snapshots, i); }
    }
    if OneShape(snapshots) && ForcesFull(snapshots) {
      forall i | 0 < i < |snapshots| ensures SameShape(snapshots[i - 1], snapshots[i]) {
        assert SameShape(snapshots[0], snapshots[i]) && SameShape(snapshots[0], snapshots[i - 1]);
      }
    }
  }
}
