/**
  * Write-behind persistence of pane activity: changes go to memory and to a pending map, and one task
  * writes the pending rows to the store, row by row, while further changes may arrive.
  */
module PaneActivities {
  import opened Common

  type Key = (string, string)

  datatype PaneActivity = PaneActivity(
    workspaceId: string,
    paneId: string,
    lastActivityAtMs: int,
    lastSeenAtMs: int,
    lastSeenActivityAtMs: int,
    lastTmuxActivityAtS: Option<int>,
    lastSeenTmuxActivityAtS: Option<int>,
    lastScreenFingerprint: Option<string>,
    lastSeenScreenFingerprint: Option<string>,
    needsAttention: bool,
    needsAttentionAtMs: int,
    needsAttentionClearedAtMs: int,
    updatedAtMs: int
  ) {
    function Key(): Key {
      (workspaceId, paneId)
    }
  }

  function Max(a: int, b: int): int {
    if a < b then b else a
  }

  function NewActivity(key: Key, nowMs: int): PaneActivity {
    PaneActivity(key.0, key.1, 0, 0, 0, None, None, None, None, false, 0, 0, nowMs)
  }

  /** What is recorded about a pane. */
  datatype Change =
    | Seen(atMs: int)
    | Activity(atMs: int, tmuxActivityAtS: Option<int>, screenFingerprint: Option<string>)
    | Attention(atMs: int)

  function Changed(a: PaneActivity, c: Change): PaneActivity {
    match c
    case Seen(at) =>
      a.(lastSeenAtMs := at,
         lastSeenActivityAtMs := a.lastActivityAtMs,
         lastSeenTmuxActivityAtS := a.lastTmuxActivityAtS,
         lastSeenScreenFingerprint := a.lastScreenFingerprint,
         needsAttentionClearedAtMs := if a.needsAttention then at else a.needsAttentionClearedAtMs,
         needsAttention := false,
         updatedAtMs := Max(a.updatedAtMs, at))
    case Activity(at, tmux, screen) =>
      a.(lastActivityAtMs := Max(a.lastActivityAtMs, at),
         lastTmuxActivityAtS :=
           if tmux.None? then a.lastTmuxActivityAtS
           else Some(Max(if a.lastTmuxActivityAtS.Some? then a.lastTmuxActivityAtS.value else 0, tmux.value)),
         lastScreenFingerprint := if screen.Some? then screen else a.lastScreenFingerprint,
         updatedAtMs := Max(a.updatedAtMs, at))
    case Attention(at) =>
      a.(needsAttention := true,
         needsAttentionAtMs := Max(a.needsAttentionAtMs, at),
         needsAttentionClearedAtMs := 0,
         updatedAtMs := Max(a.updatedAtMs, at))
  }

  // ----- the steps -----

  /** A persisting task waits for its delay, or for the store to write the rows it still has to write. */
  datatype Task = Delaying | Writing(rows: seq<PaneActivity>)

  datatype State = State(
    memory: map<Key, PaneActivity>,
    pending: map<Key, PaneActivity>,
    persistActive: bool,
    tasks: map<nat, Task>,
    nextTask: nat,
    store: map<Key, PaneActivity>
  )

  function Scheduled(s: State): State {
    if s.persistActive then s
    else s.(persistActive := true, tasks := s.tasks[s.nextTask := Delaying], nextTask := s.nextTask + 1)
  }

  function ChangedEntry(s: State, key: Key, c: Change): PaneActivity {
    Changed(if key in s.memory then s.memory[key] else NewActivity(key, c.atMs), c)
  }

  function Recorded(s: State, key: Key, c: Change): State {
    var activity := ChangedEntry(s, key, c);
    Scheduled(s.(memory := s.memory[key := activity], pending := s.pending[key := activity]))
  }

  function KeysOf(rows: seq<PaneActivity>): set<Key> {
    set i | 0 <= i < |rows| :: rows[i].Key()
  }

  /** The pending map's values in whatever order a hash map gives them. */
  predicate IsListing(pending: map<Key, PaneActivity>, rows: seq<PaneActivity>) {
    && KeysOf(rows) == pending.Keys
    && forall i :: 0 <= i < |rows| ==> rows[i].Key() in pending && pending[rows[i].Key()] == rows[i]
  }

  /** The delay is over: take what is pending, or end when there is nothing. */
  function Taken(s: State, task: nat, rows: seq<PaneActivity>): State
    requires task in s.tasks
  {
    if s.pending == map[] then s.(persistActive := false, tasks := s.tasks - {task})
    else s.(pending := map[], tasks := s.tasks[task := Writing(rows)])
  }

  /** The store writes the next row; a failed write ends the batch. */
  function RowWritten(s: State, task: nat, written: bool): State
    requires task in s.tasks && s.tasks[task].Writing? && s.tasks[task].rows != []
  {
    var rows := s.tasks[task].rows;
    if written then s.(store := s.store[rows[0].Key() := rows[0]], tasks := s.tasks[task := Writing(rows[1..])])
    else s.(tasks := s.tasks[task := Writing([])])
  }

  /** The batch is over: go round again if more came in meanwhile. */
  function Finished(s: State, task: nat): State
    requires task in s.tasks
  {
    if s.pending == map[] then s.(persistActive := false, tasks := s.tasks - {task})
    else s.(tasks := s.tasks[task := Delaying])
  }

  class OcttyApp {
    var memory: map<Key, PaneActivity>
    var pending: map<Key, PaneActivity>
    var persistActive: bool
    var tasks: map<nat, Task>
    var nextTask: nat
    var store: map<Key, PaneActivity>

    function View(): State
      reads this
    {
      State(memory, pending, persistActive, tasks, nextTask, store)
    }

    constructor (memory: map<Key, PaneActivity>, store: map<Key, PaneActivity>)
      ensures View() == Start(memory, store)
    {
      this.memory, this.store := memory, store;
      pending, persistActive, tasks, nextTask := map[], false, map[], 0;
    }

    method RecordPaneSeen(key: Key, seenAtMs: int)
      modifies this
      ensures View() == Recorded(old(View()), key, Seen(seenAtMs))
    {
      var activity := if key in memory then memory[key] else NewActivity(key, seenAtMs);
      activity := activity.(lastSeenAtMs := seenAtMs,
                            lastSeenActivityAtMs := activity.lastActivityAtMs,
                            lastSeenTmuxActivityAtS := activity.lastTmuxActivityAtS,
                            lastSeenScreenFingerprint := activity.lastScreenFingerprint);
      if activity.needsAttention {
        activity := activity.(needsAttentionClearedAtMs := seenAtMs);
      }
      activity := activity.(needsAttention := false, updatedAtMs := Max(activity.updatedAtMs, seenAtMs));
      memory := memory[key := activity];
      pending := pending[key := activity];
      SchedulePaneActivityPersistence();
    }

    method RecordPaneActivity(key: Key, activityAtMs: int, tmuxActivityAtS: Option<int>, screenFingerprint: Option<string>)
      modifies this
      ensures View() == Recorded(old(View()), key, Activity(activityAtMs, tmuxActivityAtS, screenFingerprint))
    {
      var activity := if key in memory then memory[key] else NewActivity(key, activityAtMs);
      activity := activity.(lastActivityAtMs := Max(activity.lastActivityAtMs, activityAtMs));
      if tmuxActivityAtS.Some? {
        var last := if activity.lastTmuxActivityAtS.Some? then activity.lastTmuxActivityAtS.value else 0;
        activity := activity.(lastTmuxActivityAtS := Some(Max(last, tmuxActivityAtS.value)));
      }
      if screenFingerprint.Some? {
        activity := activity.(lastScreenFingerprint := screenFingerprint);
      }
      activity := activity.(updatedAtMs := Max(activity.updatedAtMs, activityAtMs));
      memory := memory[key := activity];
      pending := pending[key := activity];
      SchedulePaneActivityPersistence();
    }

    method RecordPaneAttention(key: Key, attentionAtMs: int)
      modifies this
      ensures View() == Recorded(old(View()), key, Attention(attentionAtMs))
    {
      var activity := if key in memory then memory[key] else NewActivity(key, attentionAtMs);
      activity := activity.(needsAttention := true,
                            needsAttentionAtMs := Max(activity.needsAttentionAtMs, attentionAtMs),
                            needsAttentionClearedAtMs := 0,
                            updatedAtMs := Max(activity.updatedAtMs, attentionAtMs));
      memory := memory[key := activity];
      pending := pending[key := activity];
      SchedulePaneActivityPersistence();
    }

    method SchedulePaneActivityPersistence()
      modifies this
      ensures View() == Scheduled(old(View()))
    {
      if persistActive { return; }
      persistActive := true;
      tasks := tasks[nextTask := Delaying];
      nextTask := nextTask + 1;
    }

    /** `listing` is the order in which the hash map gives its values. */
    method TakeBatch(task: nat, listing: seq<PaneActivity>)
      requires task in tasks && IsListing(pending, listing)
      modifies this
      ensures View() == Taken(old(View()), task, listing)
    {
      var activities := listing;
      pending := map[];
      if activities == [] {
        assert old(pending).Keys == {};
        persistActive := false;
        tasks := tasks - {task};
      } else {
        assert listing[0].Key() in old(pending).Keys;
        tasks := tasks[task := Writing(activities)];
      }
    }

    method FinishBatch(task: nat)
      requires task in tasks
      modifies this
      ensures View() == Finished(old(View()), task)
    {
      if pending == map[] {
        persistActive := false;
        tasks := tasks - {task};
      } else {
        tasks := tasks[task := Delaying];
      }
    }
  }

  // ----- runs -----

  datatype Action =
    | Record(key: Key, change: Change)
    | Take(task: nat, rows: seq<PaneActivity>)
    | WriteRow(task: nat, written: bool)
    | Finish(task: nat)

  ghost predicate Enabled(s: State, a: Action) {
    match a
    case Record(_, _) => true
    case Take(task, rows) => task in s.tasks && s.tasks[task].Delaying? && IsListing(s.pending, rows)
    case WriteRow(task, _) => task in s.tasks && s.tasks[task].Writing? && s.tasks[task].rows != []
    case Finish(task) => task in s.tasks && s.tasks[task] == Writing([])
  }

  ghost function Step(s: State, a: Action): State
    requires Enabled(s, a)
  {
    match a
    case Record(key, change) => Recorded(s, key, change)
    case Take(task, rows) => Taken(s, task, rows)
    case WriteRow(task, written) => RowWritten(s, task, written)
    case Finish(task) => Finished(s, task)
  }

  function Start(memory: map<Key, PaneActivity>, store: map<Key, PaneActivity>): State {
    State(memory, map[], false, map[], 0, store)
  }

  ghost predicate IsRun(s: State, run: seq<Action>)
    decreases |run|
  {
    run == [] || (Enabled(s, run[0]) && IsRun(Step(s, run[0]), run[1..]))
  }

  ghost function After(s: State, run: seq<Action>): State
    requires IsRun(s, run)
    decreases |run|
  {
    if run == [] then s else After(Step(s, run[0]), run[1..])
  }

  /** Which keys were recorded in a run, starting from `sofar`. */
  function RecordedKeys(run: seq<Action>, sofar: set<Key>): set<Key> {
    if run == [] then sofar else RecordedKeys(run[1..], if run[0].Record? then sofar + {run[0].key} else sofar)
  }

  /** The keys whose rows a failed write drops while nothing newer is pending and the store holds another value. */
  function LostByFailure(s: State, rows: seq<PaneActivity>): set<Key> {
    set k | k in KeysOf(rows) && k !in s.pending && !(k in s.store && k in s.memory && s.store[k] == s.memory[k])
  }

  /** Lost keys stay lost until they are recorded again. */
  ghost function LostAfter(s: State, a: Action, lost: set<Key>): set<Key>
    requires Enabled(s, a)
  {
    match a
    case Record(key, _) => lost - {key}
    case WriteRow(task, written) => if written then lost else lost + LostByFailure(s, s.tasks[task].rows)
    case _ => lost
  }

  ghost function Lost(s: State, run: seq<Action>, lost: set<Key>): set<Key>
    requires IsRun(s, run)
    decreases |run|
  {
    if run == [] then lost else Lost(Step(s, run[0]), run[1..], LostAfter(s, run[0], lost))
  }

  // ----- what every run keeps -----

  /** The rows that are still to be written under a task, as a lookup. */
  function InFlight(rows: seq<PaneActivity>, key: Key): Option<PaneActivity> {
    if rows == [] then None
    else if InFlight(rows[1..], key).Some? then InFlight(rows[1..], key)
    else if rows[0].Key() == key then Some(rows[0])
    else None
  }

  function RowsOf(s: State): seq<PaneActivity> {
    if s.nextTask > 0 && s.nextTask - 1 in s.tasks && s.tasks[s.nextTask - 1].Writing? then s.tasks[s.nextTask - 1].rows
    else []
  }

  /** What the store will hold for a key once all is written: pending over in flight over stored. */
  function Settled(s: State, key: Key): Option<PaneActivity> {
    if key in s.pending then Some(s.pending[key])
    else if InFlight(RowsOf(s), key).Some? then InFlight(RowsOf(s), key)
    else if key in s.store then Some(s.store[key])
    else None
  }

  predicate IsKeyed(m: map<Key, PaneActivity>) {
    forall k :: k in m ==> m[k].Key() == k
  }

  /** There is one task while persisting is active and none otherwise. */
  predicate OneTask(s: State) {
    if s.persistActive then s.nextTask > 0 && s.tasks.Keys == {s.nextTask - 1} else s.tasks == map[]
  }

  ghost predicate Inv(s: State, recorded: set<Key>, lost: set<Key>) {
    && OneTask(s)
    && (s.pending != map[] ==> s.persistActive)
    && IsKeyed(s.memory) && IsKeyed(s.pending)
    && (forall k :: k in recorded ==> k in s.memory)
    && (forall k :: k in recorded ==> Tracked(s, k, lost))
  }

  /** A key is lost exactly when it will not be stored as memory has it; then no row of it is on its way. */
  predicate Tracked(s: State, key: Key, lost: set<Key>)
    requires key in s.memory
  {
    && (key !in lost <==> Settled(s, key) == Some(s.memory[key]))
    && (key in lost ==> key !in s.pending && InFlight(RowsOf(s), key).None?)
  }

  lemma KeysOfFirst(row: PaneActivity, rest: seq<PaneActivity>)
    ensures KeysOf([row] + rest) == {row.Key()} + KeysOf(rest)
  {
    var rows := [row] + rest;
    forall k | k in KeysOf(rest) ensures k in KeysOf(rows) {
      var i :| 0 <= i < |rest| && rest[i].Key() == k;
      assert rows[i + 1].Key() == k;
    }
    assert rows[0].Key() in KeysOf(rows);
  }

  lemma {:induction false} NotInFlight(rows: seq<PaneActivity>, key: Key)
    ensures InFlight(rows, key).None? <==> key !in KeysOf(rows)
  {
    if rows != [] {
      NotInFlight(rows[1..], key);
      KeysOfFirst(rows[0], rows[1..]);
      assert [rows[0]] + rows[1..] == rows;
    }
  }

  lemma {:induction false} InFlightIsARow(rows: seq<PaneActivity>, key: Key)
    requires InFlight(rows, key).Some?
    ensures exists i :: 0 <= i < |rows| && rows[i] == InFlight(rows, key).value && rows[i].Key() == key
  {
    if InFlight(rows[1..], key).Some? {
      InFlightIsARow(rows[1..], key);
      var i :| 0 <= i < |rows[1..]| && rows[1..][i] == InFlight(rows, key).value && rows[1..][i].Key() == key;
      assert rows[i + 1] == InFlight(rows, key).value;
    } else {
      assert rows[0] == InFlight(rows, key).value;
    }
  }

  /** Looking a key up in a listing gives what the map held. */
  lemma ListingLookup(pending: map<Key, PaneActivity>, rows: seq<PaneActivity>, key: Key)
    requires IsListing(pending, rows)
    ensures InFlight(rows, key) == if key in pending then Some(pending[key]) else None
  {
    NotInFlight(rows, key);
    if InFlight(rows, key).Some? {
      InFlightIsARow(rows, key);
    }
  }

  lemma RecordKeepsInv(s: State, key: Key, c: Change, recorded: set<Key>, lost: set<Key>)
    requires Inv(s, recorded, lost)
    ensures Inv(Recorded(s, key, c), recorded + {key}, lost - {key})
  {
    var next := Recorded(s, key, c);
    assert RowsOf(next) == RowsOf(s);
    forall k | k in recorded + {key} ensures Tracked(next, k, lost - {key}) {
      if k != key { assert Tracked(s, k, lost) && Settled(next, k) == Settled(s, k); }
    }
  }

  lemma TakeKeepsInv(s: State, task: nat, rows: seq<PaneActivity>, recorded: set<Key>, lost: set<Key>)
    requires Inv(s, recorded, lost) && Enabled(s, Take(task, rows))
    ensures Inv(Taken(s, task, rows), recorded, lost)
  {
    var next := Taken(s, task, rows);
    assert task == s.nextTask - 1;
    assert RowsOf(s) == [];
    forall k | k in recorded ensures Tracked(next, k, lost) {
      ListingLookup(s.pending, rows, k);
      assert Tracked(s, k, lost) && Settled(next, k) == Settled(s, k);
    }
  }

  lemma WriteKeepsInv(s: State, task: nat, written: bool, recorded: set<Key>, lost: set<Key>)
    requires Inv(s, recorded, lost) && Enabled(s, WriteRow(task, written))
    ensures Inv(RowWritten(s, task, written), recorded, LostAfter(s, WriteRow(task, written), lost))
  {
    var next := RowWritten(s, task, written);
    var rows := RowsOf(s);
    assert task == s.nextTask - 1 && rows == s.tasks[task].rows;
    forall k | k in recorded ensures Tracked(next, k, LostAfter(s, WriteRow(task, written), lost)) {
      NotInFlight(rows, k);
      assert Tracked(s, k, lost);
    }
  }

  lemma FinishKeepsInv(s: State, task: nat, recorded: set<Key>, lost: set<Key>)
    requires Inv(s, recorded, lost) && Enabled(s, Finish(task))
    ensures Inv(Finished(s, task), recorded, lost)
  {
    var next := Finished(s, task);
    assert task == s.nextTask - 1;
    assert RowsOf(s) == [] && RowsOf(next) == [];
    forall k | k in recorded ensures Tracked(next, k, lost) {
      assert Tracked(s, k, lost) && Settled(next, k) == Settled(s, k);
    }
  }

  lemma {:induction false} RunKeepsInv(s: State, run: seq<Action>, recorded: set<Key>, lost: set<Key>)
    requires Inv(s, recorded, lost) && IsRun(s, run)
    ensures Inv(After(s, run), RecordedKeys(run, recorded), Lost(s, run, lost))
    decreases |run|
  {
    if run != [] {
      var a := run[0];
      match a {
        case Record(key, change) => RecordKeepsInv(s, key, change, recorded, lost);
        case Take(task, rows) => TakeKeepsInv(s, task, rows, recorded, lost);
        case WriteRow(task, written) => WriteKeepsInv(s, task, written, recorded, lost);
        case Finish(task) => FinishKeepsInv(s, task, recorded, lost);
      }
      RunKeepsInv(Step(s, a), run[1..], if a.Record? then recorded + {a.key} else recorded, LostAfter(s, a, lost));
    }
  }

  /** Write-through: what the store would hold if every change went straight to it. */
  function WrittenThrough(memory: map<Key, PaneActivity>, run: seq<Action>): map<Key, PaneActivity>
    decreases |run|
  {
    if run == [] then memory
    else if run[0].Record? then
      var key := run[0].key;
      var entry := if key in memory then memory[key] else NewActivity(key, run[0].change.atMs);
      WrittenThrough(memory[key := Changed(entry, run[0].change)], run[1..])
    else WrittenThrough(memory, run[1..])
  }

  lemma {:induction false} MemoryIsWrittenThrough(s: State, run: seq<Action>)
    requires IsRun(s, run)
    ensures After(s, run).memory == WrittenThrough(s.memory, run)
    decreases |run|
  {
    if run != [] {
      MemoryIsWrittenThrough(Step(s, run[0]), run[1..]);
    }
  }

  /**
    * In every interleaving of changes with the persisting task, whatever writes fail: there is one task
    * exactly while persisting is active, pending rows mean it is, and a recorded key is not lost if and only if
    * pending over in flight over stored is what memory holds, which is what writing every change straight
    * through would have stored. At rest the store itself holds it if and only if it is not lost.
    */
  lemma ActivityIsNotLost(memory: map<Key, PaneActivity>, store: map<Key, PaneActivity>, run: seq<Action>)
    requires IsKeyed(memory) && IsRun(Start(memory, store), run)
    ensures var s := After(Start(memory, store), run);
            var lost := Lost(Start(memory, store), run, {});
            && OneTask(s)
            && (s.pending != map[] ==> s.persistActive)
            && s.memory == WrittenThrough(memory, run)
            && (forall k :: k in RecordedKeys(run, {}) ==> k in s.memory)
            && (forall k :: k in RecordedKeys(run, {}) ==> (k !in lost <==> Settled(s, k) == Some(s.memory[k])))
            && (!s.persistActive ==>
                  forall k :: k in RecordedKeys(run, {}) ==>
                    (k !in lost <==> k in s.store && s.store[k] == s.memory[k]))
  {
    MemoryIsWrittenThrough(Start(memory, store), run);
    RunKeepsInv(Start(memory, store), run, {}, {});
    var s, lost := After(Start(memory, store), run), Lost(Start(memory, store), run, {});
    forall k | k in RecordedKeys(run, {}) ensures k !in lost <==> Settled(s, k) == Some(s.memory[k]) {
      assert Tracked(s, k, lost);
    }
  }

  predicate AllWritten(run: seq<Action>) {
    forall i :: 0 <= i < |run| ==> run[i].WriteRow? ==> run[i].written
  }

  /** Only failed writes lose anything. */
  lemma {:induction false} NothingLostWhenWritten(s: State, run: seq<Action>)
    requires IsRun(s, run) && AllWritten(run)
    ensures Lost(s, run, {}) == {}
    decreases |run|
  {
    if run != [] {
      assert AllWritten(run[1..]);
      assert LostAfter(s, run[0], {}) == {};
      NothingLostWhenWritten(Step(s, run[0]), run[1..]);
    }
  }

  /**
    * A failed write leaves a key as memory has it if and only if a newer row is pending, no row of it was
    * dropped, or the store already held that value.
    */
  lemma FailedWriteKeepsExactly(s: State, task: nat, key: Key, recorded: set<Key>, lost: set<Key>)
    requires Inv(s, recorded, lost) && Enabled(s, WriteRow(task, false)) && key in recorded && key !in lost
    ensures Settled(RowWritten(s, task, false), key) == Some(s.memory[key]) <==>
            (|| key in s.pending
             || key !in KeysOf(s.tasks[task].rows)
             || (key in s.store && s.store[key] == s.memory[key]))
  {
    assert task == s.nextTask - 1;
    NotInFlight(s.tasks[task].rows, key);
    assert Tracked(s, key, lost);
  }

  // ----- coming to rest -----

  lemma ListingFirst(pending: map<Key, PaneActivity>, key: Key, others: seq<PaneActivity>)
    requires key in pending && IsKeyed(pending) && IsListing(pending - {key}, others)
    ensures IsListing(pending, [pending[key]] + others)
  {
    KeysOfFirst(pending[key], others);
    assert pending.Keys == {key} + (pending - {key}).Keys;
  }

  lemma {:induction false} ListingExists(pending: map<Key, PaneActivity>) returns (rows: seq<PaneActivity>)
    requires IsKeyed(pending)
    ensures IsListing(pending, rows)
    decreases |pending|
  {
    rows := [];
    if pending != map[] {
      var key :| key in pending;
      assert pending.Keys == (pending - {key}).Keys + {key};
      var others := ListingExists(pending - {key});
      ListingFirst(pending, key, others);
      rows := [pending[key]] + others;
    }
  }

  function Rank(s: State): nat {
    if s.nextTask > 0 && s.nextTask - 1 in s.tasks && s.tasks[s.nextTask - 1].Writing? then 1 + |RowsOf(s)| else 0
  }

  /**
    * Left alone, with its writes succeeding, the task ends, and then the store holds every recorded key that
    * was not lost before, and no other.
    */
  lemma {:induction false} ComesToRest(s: State, recorded: set<Key>, lost: set<Key>) returns (run: seq<Action>)
    requires Inv(s, recorded, lost)
    ensures IsRun(s, run) && AllWritten(run) && forall i :: 0 <= i < |run| ==> !run[i].Record?
    ensures var end := After(s, run);
            && !end.persistActive
            && end.memory == s.memory
            && forall k :: k in recorded ==> (k !in lost <==> k in end.store && end.store[k] == end.memory[k])
    decreases if s.pending == map[] then 0 else 1, if s.persistActive then 1 else 0, Rank(s)
  {
    if !s.persistActive {
      run := [];
      forall k | k in recorded ensures k !in lost <==> k in s.store && s.store[k] == s.memory[k] {
        assert Tracked(s, k, lost);
      }
      return;
    }
    var a := NextOfTask(s, recorded, lost);
    var rest := ComesToRest(Step(s, a), recorded, lost);
    run := [a] + rest;
    assert run[1..] == rest;
  }

  /** What the task does next when left alone, its write succeeding. */
  lemma NextOfTask(s: State, recorded: set<Key>, lost: set<Key>) returns (a: Action)
    requires Inv(s, recorded, lost) && s.persistActive
    ensures Enabled(s, a) && !a.Record? && (a.WriteRow? ==> a.written)
    ensures Inv(Step(s, a), recorded, lost) && Step(s, a).memory == s.memory
    ensures var next := Step(s, a);
            || (s.pending != map[] && next.pending == map[])
            || (next.pending == s.pending && s.persistActive && !next.persistActive)
            || (next.pending == s.pending && s.persistActive == next.persistActive && Rank(next) < Rank(s))
  {
    var task := s.nextTask - 1;
    assert task in s.tasks;
    if s.tasks[task].Delaying? {
      var rows := ListingExists(s.pending);
      a := Take(task, rows);
      TakeKeepsInv(s, task, rows, recorded, lost);
    } else if s.tasks[task].rows == [] {
      a := Finish(task);
      FinishKeepsInv(s, task, recorded, lost);
    } else {
      a := WriteRow(task, true);
      WriteKeepsInv(s, task, true, recorded, lost);
    }
  }
}
