/**
  * Debounced refresh of workspace status. A spawned task only yields at its awaits, so each stretch
  * between two awaits is one step and any tasks may interleave at these points. Times are milliseconds.
  */
module StatusRefresh {

  const DEBOUNCE := 180

  /** Where a task waits inside its loop: not polled yet, or for its timer. */
  datatype Waiting = Spawned | Timer(until: nat)

  datatype Task = Task(workspace: string, waiting: Waiting)

  datatype State = State(
    now: nat,
    dueAt: map<string, nat>,
    timerActive: set<string>,
    suspended: set<string>,
    workspaces: set<string>,
    tasks: map<nat, Task>,
    nextTask: nat
  )

  /** What a stretch of a task came to: still in the loop, or out of it. */
  datatype Outcome = Looping | Idle | Suspended(workspace: string) | Gone(workspace: string) | Refreshing(workspace: string)

  function LaterOf(a: nat, b: nat): nat {
    if a < b then b else a
  }

  // ----- the steps -----

  function Scheduled(s: State, w: string): State {
    if w in s.suspended then s
    else
      var due := s.(dueAt := s.dueAt[w := s.now + DEBOUNCE]);
      if w in s.timerActive then due
      else
        due.(timerActive := s.timerActive + {w}, tasks := s.tasks[s.nextTask := Task(w, Spawned)], nextTask := s.nextTask + 1)
  }

  function SuspendedBy(s: State, w: string): State {
    s.(suspended := s.suspended + {w}, dueAt := s.dueAt - {w}, timerActive := s.timerActive - {w})
  }

  function ResumedBy(s: State, w: string): State {
    s.(suspended := s.suspended - {w})
  }

  /** The head of the loop: sleep until the due time, or end when there is none. */
  function Slept(s: State, task: nat): (State, Outcome)
    requires task in s.tasks
  {
    var w := s.tasks[task].workspace;
    if w in s.dueAt then (s.(tasks := s.tasks[task := Task(w, Timer(LaterOf(s.dueAt[w], s.now)))]), Looping)
    else (s.(timerActive := s.timerActive - {w}, tasks := s.tasks - {task}), Idle)
  }

  /** The timer has fired; `lag` passes before the head of the loop reads the clock again. */
  function Woken(s: State, task: nat, lag: nat): (State, Outcome)
    requires task in s.tasks
  {
    var w := s.tasks[task].workspace;
    if w in s.dueAt && s.dueAt[w] > s.now then Slept(s.(now := s.now + lag), task)
    else
      (s.(dueAt := s.dueAt - {w}, timerActive := s.timerActive - {w}, tasks := s.tasks - {task}),
       if w in s.suspended then Outcome.Suspended(w) else if w in s.workspaces then Refreshing(w) else Gone(w))
  }

  /** The part of the app that the tasks share. */
  class OcttyApp {
    var now: nat
    var dueAt: map<string, nat>
    var timerActive: set<string>
    var suspended: set<string>
    var workspaces: set<string>
    var tasks: map<nat, Task>
    var nextTask: nat

    function View(): State
      reads this
    {
      State(now, dueAt, timerActive, suspended, workspaces, tasks, nextTask)
    }

    constructor ()
      ensures View() == Start()
    {
      now, nextTask := 0, 0;
      dueAt, tasks := map[], map[];
      timerActive, suspended, workspaces := {}, {}, {};
    }

    method ScheduleWorkspaceStatusRefresh(w: string)
      modifies this
      ensures View() == Scheduled(old(View()), w)
    {
      if w in suspended { return; }
      dueAt := dueAt[w := now + DEBOUNCE];
      if w in timerActive { return; }
      timerActive := timerActive + {w};
      tasks := tasks[nextTask := Task(w, Spawned)];
      nextTask := nextTask + 1;
    }

    method SuspendWorkspaceStatusRefresh(w: string)
      modifies this
      ensures View() == SuspendedBy(old(View()), w)
    {
      suspended := suspended + {w};
      dueAt := dueAt - {w};
      timerActive := timerActive - {w};
    }

    method ResumeWorkspaceStatusRefresh(w: string)
      modifies this
      ensures View() == ResumedBy(old(View()), w)
    {
      suspended := suspended - {w};
    }

    method Sleep(task: nat) returns (outcome: Outcome)
      requires task in tasks
      modifies this
      ensures (View(), outcome) == Slept(old(View()), task)
    {
      var w := tasks[task].workspace;
      if w in dueAt {
        var delay := if dueAt[w] <= now then 0 else dueAt[w] - now;
        tasks := tasks[task := Task(w, Timer(now + delay))];
        outcome := Looping;
      } else {
        timerActive := timerActive - {w};
        tasks := tasks - {task};
        outcome := Idle;
      }
    }

    method Wake(task: nat, lag: nat) returns (outcome: Outcome)
      requires task in tasks
      modifies this
      ensures (View(), outcome) == Woken(old(View()), task, lag)
    {
      var w := tasks[task].workspace;
      var ready := true;
      if w in dueAt {
        if dueAt[w] > now {
          ready := false;
        } else {
          dueAt := dueAt - {w};
        }
      } else {
        assert dueAt - {w} == dueAt;
      }
      if !ready {
        now := now + lag;
        outcome := Sleep(task);
        return;
      }
      tasks := tasks - {task};
      timerActive := timerActive - {w};
      if w in suspended {
        outcome := Outcome.Suspended(w);
      } else if w in workspaces {
        outcome := Refreshing(w);
      } else {
        outcome := Gone(w);
      }
    }
  }

  // ----- runs -----

  datatype Action =
    | Pass(time: nat)
    | Event(workspace: string)
    | Suspend(workspace: string)
    | Resume(workspace: string)
    | SetWorkspaces(all: set<string>)
    | PollNew(task: nat)
    | Fire(task: nat, lag: nat)

  predicate Enabled(s: State, a: Action) {
    match a
    case PollNew(task) => task in s.tasks && s.tasks[task].waiting.Spawned?
    case Fire(task, _) => task in s.tasks && s.tasks[task].waiting.Timer? && s.tasks[task].waiting.until <= s.now
    case _ => true
  }

  function Step(s: State, a: Action): (State, Outcome)
    requires Enabled(s, a)
  {
    match a
    case Pass(time) => (s.(now := s.now + time), Looping)
    case Event(w) => (Scheduled(s, w), Looping)
    case Suspend(w) => (SuspendedBy(s, w), Looping)
    case Resume(w) => (ResumedBy(s, w), Looping)
    case SetWorkspaces(all) => (s.(workspaces := all), Looping)
    case PollNew(task) => Slept(s, task)
    case Fire(task, lag) => Woken(s, task, lag)
  }

  function Start(): State {
    State(0, map[], {}, {}, {}, map[], 0)
  }

  function Last(run: seq<Action>): Action
    requires run != []
  {
    run[|run| - 1]
  }

  function Front(run: seq<Action>): seq<Action>
    requires run != []
  {
    run[..|run| - 1]
  }

  predicate IsRun(s: State, run: seq<Action>)
    decreases |run|, 0
  {
    run == [] || (IsRun(s, Front(run)) && Enabled(After(s, Front(run)), Last(run)))
  }

  function After(s: State, run: seq<Action>): State
    requires IsRun(s, run)
    decreases |run|, 1
  {
    if run == [] then s else Step(After(s, Front(run)), Last(run)).0
  }

  function LastOutcome(s: State, run: seq<Action>): Outcome
    requires IsRun(s, run) && run != []
  {
    Step(After(s, Front(run)), Last(run)).1
  }

  /** The workspaces suspended and not resumed since, in a run. */
  function SuspendedIn(run: seq<Action>): set<string> {
    if run == [] then {}
    else
      match Last(run)
      case Suspend(w) => SuspendedIn(Front(run)) + {w}
      case Resume(w) => SuspendedIn(Front(run)) - {w}
      case _ => SuspendedIn(Front(run))
  }

  /** The workspaces that were listed last in a run. */
  function ListedIn(run: seq<Action>): set<string> {
    if run == [] then {} else if Last(run).SetWorkspaces? then Last(run).all else ListedIn(Front(run))
  }

  /**
    * The history a user sees: for each workspace the time of its last event, as long as no refresh of it
    * has started since, it was not suspended since and it was not found to be gone.
    */
  function Unanswered(run: seq<Action>): map<string, nat>
    requires IsRun(Start(), run)
    decreases |run|
  {
    if run == [] then map[]
    else
      var before, s := Unanswered(Front(run)), After(Start(), Front(run));
      match Last(run)
      case Event(w) => if w in SuspendedIn(Front(run)) then before else before[w := s.now]
      case Suspend(w) => before - {w}
      case Fire(_, _) =>
        var outcome := LastOutcome(Start(), run);
        if outcome.Refreshing? || outcome.Gone? then before - {outcome.workspace} else before
      case _ => before
  }

  // ----- what every run keeps -----

  ghost predicate HasTask(s: State, w: string) {
    exists t :: t in s.tasks && s.tasks[t].workspace == w
  }

  /** No task sleeps past the due time of its workspace, nor by more than the debounce. */
  predicate WakesInTime(s: State, task: Task) {
    task.waiting.Timer? ==>
      var until := task.waiting.until;
      until <= s.now + DEBOUNCE && (task.workspace in s.dueAt ==> until <= s.dueAt[task.workspace] || until <= s.now)
  }

  ghost predicate Inv(s: State) {
    && s.timerActive == s.dueAt.Keys
    && s.dueAt.Keys !! s.suspended
    && (forall w :: w in s.dueAt ==> s.dueAt[w] <= s.now + DEBOUNCE && HasTask(s, w))
    && (forall t :: t in s.tasks ==> t < s.nextTask && WakesInTime(s, s.tasks[t]))
  }

  lemma StillHasTask(s: State, next: State, w: string)
    requires HasTask(s, w)
    requires forall t :: t in s.tasks && s.tasks[t].workspace == w ==> t in next.tasks && next.tasks[t].workspace == w
    ensures HasTask(next, w)
  {
    var t :| t in s.tasks && s.tasks[t].workspace == w;
    assert t in next.tasks;
  }

  lemma ScheduledKeepsInv(s: State, w: string)
    requires Inv(s)
    ensures Inv(Scheduled(s, w))
  {
    var next := Scheduled(s, w);
    if w !in s.suspended {
      forall v | v in next.dueAt ensures HasTask(next, v) {
        if v == w && w !in s.timerActive {
          assert s.nextTask in next.tasks && next.tasks[s.nextTask].workspace == w;
        } else {
          StillHasTask(s, next, v);
        }
      }
      forall t | t in next.tasks ensures WakesInTime(next, next.tasks[t]) {
        if t != s.nextTask { assert WakesInTime(s, s.tasks[t]); }
      }
    }
  }

  lemma SuspendedKeepsInv(s: State, w: string)
    requires Inv(s)
    ensures Inv(SuspendedBy(s, w))
  {
    var next := SuspendedBy(s, w);
    forall v | v in next.dueAt ensures HasTask(next, v) { StillHasTask(s, next, v); }
    forall t | t in next.tasks ensures WakesInTime(next, next.tasks[t]) { assert WakesInTime(s, s.tasks[t]); }
  }

  lemma SleptKeepsInv(s: State, task: nat)
    requires Inv(s) && task in s.tasks
    ensures Inv(Slept(s, task).0)
  {
    var next := Slept(s, task).0;
    forall v | v in next.dueAt ensures HasTask(next, v) { StillHasTask(s, next, v); }
    forall t | t in next.tasks ensures WakesInTime(next, next.tasks[t]) { assert WakesInTime(s, s.tasks[t]); }
  }

  lemma TimePassesKeepsInv(s: State, time: nat)
    requires Inv(s)
    ensures Inv(s.(now := s.now + time))
  {
    var next := s.(now := s.now + time);
    forall v | v in next.dueAt ensures HasTask(next, v) { StillHasTask(s, next, v); }
    forall t | t in next.tasks ensures WakesInTime(next, next.tasks[t]) { assert WakesInTime(s, s.tasks[t]); }
  }

  /** A task takes the due time of its workspace, if there is one, and leaves the loop. */
  lemma LeavingKeepsInv(s: State, task: nat)
    requires Inv(s) && task in s.tasks
    ensures var w := s.tasks[task].workspace;
            Inv(s.(dueAt := s.dueAt - {w}, timerActive := s.timerActive - {w}, tasks := s.tasks - {task}))
  {
    var w := s.tasks[task].workspace;
    var next := s.(dueAt := s.dueAt - {w}, timerActive := s.timerActive - {w}, tasks := s.tasks - {task});
    forall v | v in next.dueAt ensures HasTask(next, v) { StillHasTask(s, next, v); }
    forall t | t in next.tasks ensures WakesInTime(next, next.tasks[t]) { assert WakesInTime(s, s.tasks[t]); }
  }

  lemma WokenKeepsInv(s: State, task: nat, lag: nat)
    requires Inv(s) && task in s.tasks
    ensures Inv(Woken(s, task, lag).0)
  {
    var w := s.tasks[task].workspace;
    if w in s.dueAt && s.dueAt[w] > s.now {
      TimePassesKeepsInv(s, lag);
      SleptKeepsInv(s.(now := s.now + lag), task);
    } else {
      LeavingKeepsInv(s, task);
    }
  }

  lemma StepKeepsInv(s: State, a: Action)
    requires Inv(s) && Enabled(s, a)
    ensures Inv(Step(s, a).0)
  {
    match a
    case Pass(time) => TimePassesKeepsInv(s, time);
    case Event(w) => ScheduledKeepsInv(s, w);
    case Suspend(w) => SuspendedKeepsInv(s, w);
    case PollNew(task) => SleptKeepsInv(s, task);
    case Fire(task, lag) => WokenKeepsInv(s, task, lag);
    case Resume(w) =>
      forall v | v in s.dueAt ensures HasTask(ResumedBy(s, w), v) { StillHasTask(s, ResumedBy(s, w), v); }
      forall t | t in s.tasks ensures WakesInTime(ResumedBy(s, w), s.tasks[t]) { assert WakesInTime(s, s.tasks[t]); }
    case SetWorkspaces(all) =>
      var next := s.(workspaces := all);
      forall v | v in s.dueAt ensures HasTask(next, v) { StillHasTask(s, next, v); }
      forall t | t in s.tasks ensures WakesInTime(next, s.tasks[t]) { assert WakesInTime(s, s.tasks[t]); }
  }

  lemma {:induction false} RunKeepsInv(s: State, run: seq<Action>)
    requires Inv(s) && IsRun(s, run)
    ensures Inv(After(s, run))
    decreases |run|
  {
    if run != [] {
      RunKeepsInv(s, Front(run));
      StepKeepsInv(After(s, Front(run)), Last(run));
    }
  }

  lemma {:induction false} StateFollowsHistory(run: seq<Action>)
    requires IsRun(Start(), run)
    ensures After(Start(), run).suspended == SuspendedIn(run)
    ensures After(Start(), run).workspaces == ListedIn(run)
    decreases |run|
  {
    if run != [] {
      StateFollowsHistory(Front(run));
    }
  }

  /**
    * Over every run: a refresh starts only for a workspace that is listed and not suspended; a task that ends
    * otherwise does so because its workspace is suspended, or not listed.
    */
  lemma SuspendedIsNotRefreshed(run: seq<Action>)
    requires IsRun(Start(), run) && run != []
    ensures match LastOutcome(Start(), run)
            case Refreshing(w) => w in ListedIn(run) && w !in SuspendedIn(run)
            case Suspended(w) => w in SuspendedIn(run)
            case Gone(w) => w !in ListedIn(run) && w !in SuspendedIn(run)
            case _ => true
  {
    StateFollowsHistory(Front(run));
  }

  /**
    * A task whose timer fires leaves its loop exactly when its workspace is not due later; one that is polled
    * first ends exactly when its workspace is not due at all.
    */
  lemma TaskLeavesExactly(s: State, a: Action)
    requires Enabled(s, a) && (a.Fire? || a.PollNew?)
    ensures var (next, outcome) := Step(s, a);
            var w := s.tasks[a.task].workspace;
            && (a.task !in next.tasks <==> if a.Fire? then !(w in s.dueAt && s.dueAt[w] > s.now) else w !in s.dueAt)
            && (outcome == Looping <==> a.task in next.tasks)
            && (outcome == Idle ==> a.PollNew?)
            && forall t :: t in s.tasks && t != a.task ==> t in next.tasks && next.tasks[t] == s.tasks[t]
  {
  }

  /**
    * In every interleaving a workspace has a due time exactly while its last event is unanswered, and the
    * due time is 180 ms after that event; it is then marked active, is not suspended, and a task for
    * it is still in the loop.
    */
  lemma {:induction false} NoEventIsLost(run: seq<Action>)
    requires IsRun(Start(), run)
    ensures var s := After(Start(), run);
            && s.dueAt.Keys == Unanswered(run).Keys == s.timerActive
            && (forall w :: w in Unanswered(run) ==>
                  s.dueAt[w] == Unanswered(run)[w] + 180 && w !in s.suspended && HasTask(s, w))
    decreases |run|
  {
    RunKeepsInv(Start(), run);
    if run != [] {
      var before := After(Start(), Front(run));
      RunKeepsInv(Start(), Front(run));
      NoEventIsLost(Front(run));
      StateFollowsHistory(Front(run));
      DueAtFollowsHistory(before, Last(run));
    }
  }

  /** How one step changes the due times: the same way as the history. */
  lemma DueAtFollowsHistory(s: State, a: Action)
    requires Inv(s) && Enabled(s, a)
    ensures var (next, outcome) := Step(s, a);
            next.dueAt == match a
                          case Event(w) => if w in s.suspended then s.dueAt else s.dueAt[w := s.now + DEBOUNCE]
                          case Suspend(w) => s.dueAt - {w}
                          case Fire(_, _) =>
                            if outcome.Refreshing? || outcome.Gone? then s.dueAt - {outcome.workspace} else s.dueAt
                          case _ => s.dueAt
  {
    if a.Fire? && Step(s, a).1.Suspended? {
      var w := s.tasks[a.task].workspace;
      assert w !in s.dueAt;
      assert s.dueAt - {w} == s.dueAt;
    }
  }

  /** A refresh that answers an event starts no sooner than 180 ms after the workspace's last event. */
  lemma RefreshWaitsForQuiet(run: seq<Action>)
    requires IsRun(Start(), run) && run != [] && LastOutcome(Start(), run).Refreshing?
    ensures var w := LastOutcome(Start(), run).workspace;
            && w !in Unanswered(run)
            && (w in Unanswered(Front(run)) ==> After(Start(), run).now >= Unanswered(Front(run))[w] + 180)
  {
    NoEventIsLost(Front(run));
  }

  /**
    * No unanswered event waits for ever: once its due time has come some task of the workspace can move, and
    * its next one or two stretches start the refresh (or find the workspace gone).
    */
  lemma DueRefreshStarts(s: State, w: string) returns (run: seq<Action>)
    requires Inv(s) && w in s.dueAt && s.dueAt[w] <= s.now
    ensures IsRun(s, run) && 1 <= |run| <= 2
    ensures forall i :: 0 <= i < |run| ==> run[i].PollNew? || run[i].Fire?
    ensures LastOutcome(s, run) == if w in s.workspaces then Refreshing(w) else Gone(w)
    ensures After(s, run).now == s.now
  {
    assert HasTask(s, w);
    var t :| t in s.tasks && s.tasks[t].workspace == w;
    assert WakesInTime(s, s.tasks[t]);
    var polled, next := PolledTask(s, [], t);
    RunKeepsInv(s, polled);
    assert WakesInTime(next, next.tasks[t]);
    next := Extend(s, polled, Fire(t, 0));
    run := polled + [Fire(t, 0)];
  }

  // ----- refreshes that answer no event -----

  /** One task for each workspace that is due, and none for any other. */
  ghost predicate OneTaskEach(s: State) {
    && (forall t :: t in s.tasks ==> s.tasks[t].workspace in s.dueAt)
    && (forall t, u :: t in s.tasks && u in s.tasks && s.tasks[t].workspace == s.tasks[u].workspace ==> t == u)
  }

  /** Every suspension of the run finds its workspace with no event unanswered. */
  predicate SuspendsIdle(s: State, run: seq<Action>)
    requires IsRun(s, run)
    decreases |run|
  {
    run == [] ||
    (SuspendsIdle(s, Front(run)) && (Last(run).Suspend? ==> Last(run).workspace !in After(s, Front(run)).dueAt))
  }

  /** The last stretch of the run starts a refresh although its workspace has no event unanswered. */
  ghost predicate EndsWithSpareRefresh(s: State, run: seq<Action>)
    requires IsRun(s, run)
  {
    && run != []
    && LastOutcome(s, run).Refreshing?
    && LastOutcome(s, run).workspace !in After(s, Front(run)).dueAt
  }

  /** From here on every refresh answers an event, as long as only idle workspaces are suspended. */
  ghost predicate NoSpareRefresh(s: State) {
    forall run :: IsRun(s, run) && SuspendsIdle(s, run) ==> !EndsWithSpareRefresh(s, run)
  }

  /** Suspending leaves a task behind, and so a spare refresh possible, exactly when the workspace is due. */
  lemma SuspendKeepsOneTaskExactly(s: State, w: string)
    requires Inv(s) && OneTaskEach(s)
    ensures OneTaskEach(SuspendedBy(s, w)) <==> w !in s.dueAt
  {
    if w in s.dueAt {
      assert HasTask(s, w);
      var t :| t in s.tasks && s.tasks[t].workspace == w;
      assert t in SuspendedBy(s, w).tasks;
    }
  }

  lemma StepKeepsOneTaskEach(s: State, a: Action)
    requires Inv(s) && OneTaskEach(s) && Enabled(s, a)
    requires a.Suspend? ==> a.workspace !in s.dueAt
    ensures OneTaskEach(Step(s, a).0)
  {
    if a.Suspend? {
      SuspendKeepsOneTaskExactly(s, a.workspace);
    }
  }

  lemma {:induction false} RunKeepsOneTaskEach(s: State, run: seq<Action>)
    requires Inv(s) && OneTaskEach(s) && IsRun(s, run) && SuspendsIdle(s, run)
    ensures OneTaskEach(After(s, run))
    decreases |run|
  {
    if run != [] {
      RunKeepsInv(s, Front(run));
      RunKeepsOneTaskEach(s, Front(run));
      StepKeepsOneTaskEach(After(s, Front(run)), Last(run));
    }
  }

  lemma FireAnswers(s: State, run: seq<Action>)
    requires Inv(s) && OneTaskEach(s) && IsRun(s, run) && SuspendsIdle(s, run)
    ensures !EndsWithSpareRefresh(s, run)
  {
    if run != [] {
      RunKeepsOneTaskEach(s, Front(run));
    }
  }

  lemma Extend(s: State, run: seq<Action>, a: Action) returns (next: State)
    requires IsRun(s, run) && Enabled(After(s, run), a) && SuspendsIdle(s, run) && !a.Suspend?
    ensures IsRun(s, run + [a]) && next == After(s, run + [a]) == Step(After(s, run), a).0
    ensures LastOutcome(s, run + [a]) == Step(After(s, run), a).1
    ensures SuspendsIdle(s, run + [a]) && Front(run + [a]) == run
  {
    assert Front(run + [a]) == run;
    next := After(s, run + [a]);
  }

  /** A task that has not been polled yet is polled, so that it waits for its timer. */
  lemma PolledTask(s: State, run: seq<Action>, t: nat) returns (more: seq<Action>, next: State)
    requires Inv(s) && IsRun(s, run) && SuspendsIdle(s, run)
    requires t in After(s, run).tasks && After(s, run).tasks[t].workspace in After(s, run).dueAt
    ensures IsRun(s, more) && SuspendsIdle(s, more) && next == After(s, more)
    ensures next.tasks.Keys == After(s, run).tasks.Keys && next.dueAt == After(s, run).dueAt
    ensures next.workspaces == After(s, run).workspaces && next.suspended == After(s, run).suspended
    ensures next.now == After(s, run).now && (more == run || more == run + [PollNew(t)])
    ensures forall u :: u in next.tasks ==>
              && next.tasks[u].workspace == After(s, run).tasks[u].workspace
              && (u != t ==> next.tasks[u] == After(s, run).tasks[u])
    ensures next.tasks[t].waiting.Timer?
  {
    more, next := run, After(s, run);
    if next.tasks[t].waiting.Spawned? {
      more := run + [PollNew(t)];
      next := Extend(s, run, PollNew(t));
    }
  }

  predicate BothReady(s: State, t: nat, u: nat) {
    && t != u && Enabled(s, Fire(t, 0)) && Enabled(s, Fire(u, 0))
    && var w := s.tasks[t].workspace;
    && w == s.tasks[u].workspace && w in s.workspaces && w !in s.suspended
    && w in s.dueAt && s.dueAt[w] <= s.now
  }

  /** Of two tasks of one workspace the second to wake finds nothing due and refreshes all the same. */
  lemma SecondIsSpare(s: State, t: nat, u: nat)
    requires BothReady(s, t, u)
    ensures var next := Step(s, Fire(t, 0)).0;
            && Enabled(next, Fire(u, 0))
            && Step(next, Fire(u, 0)).1 == Refreshing(s.tasks[t].workspace)
            && s.tasks[t].workspace !in next.dueAt
  {
  }

  lemma BothFire(s: State, run: seq<Action>, t: nat, u: nat) returns (more: seq<Action>)
    requires IsRun(s, run) && SuspendsIdle(s, run) && BothReady(After(s, run), t, u)
    ensures IsRun(s, more) && SuspendsIdle(s, more) && EndsWithSpareRefresh(s, more)
  {
    SecondIsSpare(After(s, run), t, u);
    var fired := run + [Fire(t, 0)];
    var next := Extend(s, run, Fire(t, 0));
    var last := Extend(s, fired, Fire(u, 0));
    more := fired + [Fire(u, 0)];
  }

  /** Two tasks of one due workspace: once their timers are past both refresh. */
  lemma TwoTasksSpare(s: State, run: seq<Action>, t: nat, u: nat) returns (more: seq<Action>)
    requires Inv(s) && IsRun(s, run) && SuspendsIdle(s, run)
    requires t in After(s, run).tasks && u in After(s, run).tasks && t != u
    requires After(s, run).tasks[t].workspace == After(s, run).tasks[u].workspace
    requires After(s, run).tasks[t].workspace in After(s, run).dueAt
    ensures IsRun(s, more) && SuspendsIdle(s, more) && EndsWithSpareRefresh(s, more)
  {
    var w := After(s, run).tasks[t].workspace;
    RunKeepsInv(s, run);
    var one, polled := PolledTask(s, run, t);
    var two, waiting := PolledTask(s, one, u);
    var wait := LaterOf(waiting.dueAt[w], LaterOf(waiting.tasks[t].waiting.until, waiting.tasks[u].waiting.until));
    var listed := Extend(s, two, SetWorkspaces({w}));
    var ready := Extend(s, two + [SetWorkspaces({w})], Pass(wait));
    more := BothFire(s, two + [SetWorkspaces({w})] + [Pass(wait)], t, u);
  }

  /** A task of a workspace that is not due: the next event gives the workspace a second one. */
  lemma LeftOverTaskSpare(s: State, t: nat) returns (run: seq<Action>)
    requires Inv(s) && t in s.tasks && s.tasks[t].workspace !in s.dueAt
    ensures IsRun(s, run) && SuspendsIdle(s, run) && EndsWithSpareRefresh(s, run)
  {
    var w := s.tasks[t].workspace;
    var resumed := Extend(s, [], Resume(w));
    var next := Extend(s, [] + [Resume(w)], Event(w));
    run := TwoTasksSpare(s, [] + [Resume(w)] + [Event(w)], t, s.nextTask);
  }

  /**
    * Every refresh from here on answers an event, in every continuation that suspends only idle workspaces,
    * if and only if each due workspace has one task and no other workspace has any.
    */
  lemma RefreshesAnswerExactly(s: State)
    requires Inv(s)
    ensures NoSpareRefresh(s) <==> OneTaskEach(s)
  {
    if OneTaskEach(s) {
      forall run | IsRun(s, run) && SuspendsIdle(s, run) ensures !EndsWithSpareRefresh(s, run) {
        FireAnswers(s, run);
      }
    } else if t :| t in s.tasks && s.tasks[t].workspace !in s.dueAt {
      var run := LeftOverTaskSpare(s, t);
      assert !NoSpareRefresh(s);
    } else {
      var t, u :| t in s.tasks && u in s.tasks && s.tasks[t].workspace == s.tasks[u].workspace && t != u;
      var run := TwoTasksSpare(s, [], t, u);
      assert !NoSpareRefresh(s);
    }
  }

  /** From the start, as long as only idle workspaces are suspended, every refresh answers an event. */
  lemma RefreshAnswersAnEvent(run: seq<Action>)
    requires IsRun(Start(), run) && SuspendsIdle(Start(), run) && run != [] && LastOutcome(Start(), run).Refreshing?
    ensures LastOutcome(Start(), run).workspace in Unanswered(Front(run))
  {
    NoEventIsLost(Front(run));
    FireAnswers(Start(), run);
  }

  /** Once a due workspace was suspended a spare refresh can follow, whatever happened before. */
  lemma SuspensionLeavesASpareRefresh(s: State, w: string) returns (run: seq<Action>)
    requires Inv(s) && w in s.dueAt
    ensures IsRun(SuspendedBy(s, w), run) && SuspendsIdle(SuspendedBy(s, w), run)
    ensures EndsWithSpareRefresh(SuspendedBy(s, w), run)
  {
    assert HasTask(s, w);
    var t :| t in s.tasks && s.tasks[t].workspace == w;
    SuspendedKeepsInv(s, w);
    run := LeftOverTaskSpare(SuspendedBy(s, w), t);
  }
}
