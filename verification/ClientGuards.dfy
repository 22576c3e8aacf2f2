/**
  * One client per session: a new client evicts the old one, and a dropped guard clears the client flag
  * unless its client was evicted. Connects run under the manager lock; a drop is one step.
  */
module ClientGuards {
  import opened Common

  /** `live` are the guards not dropped yet, each named after its eviction channel. */
  datatype State = State(hasClient: bool, evictTx: Option<nat>, evicted: set<nat>, live: set<nat>, nextChannel: nat)

  function Evicted(s: State): set<nat> {
    if s.evictTx.Some? then s.evicted + {s.evictTx.value} else s.evicted
  }

  function Connected(s: State): State {
    State(true, Some(s.nextChannel), Evicted(s), s.live + {s.nextChannel}, s.nextChannel + 1)
  }

  function Dropped(s: State, guard: nat): State {
    s.(hasClient := s.hasClient && guard in s.evicted, live := s.live - {guard})
  }

  function Disconnected(s: State): State {
    s.(evictTx := None)
  }

  class Session {
    var hasClient: bool
    var evictTx: Option<nat>
    /** Channels whose value is no longer true. */
    var evicted: set<nat>
    var live: set<nat>
    var nextChannel: nat

    function View(): State
      reads this
    {
      State(hasClient, evictTx, evicted, live, nextChannel)
    }

    constructor ()
      ensures View() == Start()
    {
      hasClient, evictTx, evicted, live, nextChannel := false, None, {}, {}, 0;
    }

    method Connect() returns (guard: nat)
      modifies this
      ensures View() == Connected(old(View())) && guard == old(nextChannel)
    {
      hasClient := true;
      if evictTx.Some? {
        evicted := evicted + {evictTx.value};
      }
      guard := nextChannel;
      nextChannel := nextChannel + 1;
      evictTx := Some(guard);
      live := live + {guard};
    }

    method DropGuard(guard: nat)
      requires guard in live
      modifies this
      ensures View() == Dropped(old(View()), guard)
    {
      if guard !in evicted {
        hasClient := false;
      }
      live := live - {guard};
    }

    method Disconnect()
      modifies this
      ensures View() == Disconnected(old(View()))
    {
      evictTx := None;
    }
  }

  // ----- runs -----

  datatype Action = Connect | Drop(guard: nat) | Disconnect

  predicate Enabled(s: State, a: Action) {
    a.Drop? ==> a.guard in s.live
  }

  function Step(s: State, a: Action): State {
    match a
    case Connect => Connected(s)
    case Drop(guard) => Dropped(s, guard)
    case Disconnect => Disconnected(s)
  }

  function Start(): State {
    State(false, None, {}, {}, 0)
  }

  predicate IsRun(s: State, run: seq<Action>)
    decreases |run|
  {
    run == [] || (Enabled(s, run[0]) && IsRun(Step(s, run[0]), run[1..]))
  }

  function After(s: State, run: seq<Action>): State
    decreases |run|
  {
    if run == [] then s else After(Step(s, run[0]), run[1..])
  }

  /** The clients that are attached: guards that are live and not evicted. */
  function Attached(s: State): set<nat> {
    s.live - s.evicted
  }

  ghost predicate Fresh(s: State) {
    && (forall c :: c in s.live ==> c < s.nextChannel)
    && (forall c :: c in s.evicted ==> c < s.nextChannel)
    && (s.evictTx.Some? ==> s.evictTx.value < s.nextChannel && s.evictTx.value !in s.evicted)
  }

  /** At most one client is attached, the flag says whether one is, and the sender can evict no other. */
  ghost predicate Inv(s: State) {
    && Fresh(s)
    && OneClient(s)
    && (s.evictTx.Some? ==> Attached(s) <= {s.evictTx.value})
  }

  /** What the session promises: at most one client is attached, and the flag says whether one is. */
  ghost predicate OneClient(s: State) {
    && (forall c, d :: c in Attached(s) && d in Attached(s) ==> c == d)
    && (s.hasClient <==> Attached(s) != {})
  }

  /** Connecting is safe: the old client can be evicted or there is none. */
  predicate MayConnect(s: State) {
    s.evictTx.Some? || !s.hasClient
  }

  lemma NoneBut(s: State, guard: nat)
    requires Inv(s) && guard in Attached(s)
    ensures (s.live - {guard}) - s.evicted == {}
  {
    assert Attached(s) == {guard};
    assert (s.live - {guard}) - s.evicted == Attached(s) - {guard};
  }

  lemma FreshStep(s: State, a: Action)
    requires Fresh(s) && Enabled(s, a)
    ensures Fresh(Step(s, a))
  {
  }

  /** A connect leaves one client, and keeps the invariant, if and only if an attached one can still be evicted. */
  lemma ConnectKeepsInvExactly(s: State)
    requires Inv(s)
    ensures OneClient(Connected(s)) <==> MayConnect(s)
    ensures Inv(Connected(s)) <==> MayConnect(s)
  {
    var next, newest := Connected(s), s.nextChannel;
    FreshStep(s, Connect);
    assert newest in Attached(next);
    if s.evictTx.Some? {
      assert Attached(next) == {newest};
    } else {
      assert Attached(next) == Attached(s) + {newest};
      if !s.hasClient {
        assert Attached(next) == {newest};
      } else {
        var c :| c in Attached(s);
        assert c in Attached(next) && c != newest;
      }
    }
  }

  /** Dropping keeps it, whichever guard is dropped. */
  lemma DropKeepsInv(s: State, guard: nat)
    requires Inv(s) && guard in s.live
    ensures Inv(Dropped(s, guard))
  {
    var next := Dropped(s, guard);
    FreshStep(s, Drop(guard));
    if guard in s.evicted {
      assert Attached(next) == Attached(s);
    } else {
      assert guard in Attached(s);
      NoneBut(s, guard);
    }
  }

  lemma DisconnectKeepsInv(s: State)
    requires Inv(s)
    ensures Inv(Disconnected(s))
  {
    assert Attached(Disconnected(s)) == Attached(s);
  }

  /** Every connect of the run is made while it is safe. */
  predicate ConnectsSafely(s: State, run: seq<Action>)
    decreases |run|
  {
    run == [] || ((run[0].Connect? ==> MayConnect(s)) && ConnectsSafely(Step(s, run[0]), run[1..]))
  }

  ghost predicate AlwaysOneClient(s: State, run: seq<Action>)
    decreases |run|
  {
    OneClient(s) && (run == [] || AlwaysOneClient(Step(s, run[0]), run[1..]))
  }

  lemma StepKeepsInv(s: State, a: Action)
    requires Inv(s) && Enabled(s, a) && (a.Connect? ==> MayConnect(s))
    ensures Inv(Step(s, a))
  {
    match a
    case Connect => ConnectKeepsInvExactly(s);
    case Drop(guard) => DropKeepsInv(s, guard);
    case Disconnect => DisconnectKeepsInv(s);
  }

  lemma {:induction false} SafeRunKeepsInv(s: State, run: seq<Action>)
    requires Inv(s) && IsRun(s, run) && ConnectsSafely(s, run)
    ensures Inv(After(s, run))
    decreases |run|
  {
    if run != [] {
      StepKeepsInv(s, run[0]);
      SafeRunKeepsInv(Step(s, run[0]), run[1..]);
    }
  }

  /**
    * Over any run of connects, drops in any order and disconnects: at most one client is attached and the
    * flag says whether one is, at every moment, if and only if every connect was safe.
    */
  lemma {:induction false} OneClientExactly(s: State, run: seq<Action>)
    requires Inv(s) && IsRun(s, run)
    ensures AlwaysOneClient(s, run) <==> ConnectsSafely(s, run)
    decreases |run|
  {
    if run != [] {
      if run[0].Connect? && !MayConnect(s) {
        ConnectKeepsInvExactly(s);
        assert !AlwaysOneClient(Step(s, run[0]), run[1..]);
      } else {
        StepKeepsInv(s, run[0]);
        OneClientExactly(Step(s, run[0]), run[1..]);
      }
    }
  }

  predicate NeverDisconnects(run: seq<Action>) {
    forall i :: 0 <= i < |run| ==> !run[i].Disconnect?
  }

  /** While nothing is disconnected every connect is safe, the first one too. */
  lemma {:induction false} SafeWithoutDisconnect(s: State, run: seq<Action>)
    requires IsRun(s, run) && NeverDisconnects(run)
    requires s.evictTx.Some? || (!s.hasClient && s.live == {})
    ensures ConnectsSafely(s, run)
    decreases |run|
  {
    if run != [] {
      assert !run[0].Disconnect? && NeverDisconnects(run[1..]);
      SafeWithoutDisconnect(Step(s, run[0]), run[1..]);
    }
  }

  /** The guards a run drops. */
  function DroppedBy(run: seq<Action>): set<nat> {
    if run == [] then {} else (if run[0].Drop? then {run[0].guard} else {}) + DroppedBy(run[1..])
  }

  function Connects(run: seq<Action>): nat {
    if run == [] then 0 else (if run[0].Connect? then 1 else 0) + Connects(run[1..])
  }

  lemma {:induction false} HistoryFrom(s: State, run: seq<Action>)
    requires IsRun(s, run) && Fresh(s) && NeverDisconnects(run)
    requires s.nextChannel > 0 ==> s.evictTx == Some(s.nextChannel - 1)
    requires forall c: nat :: c < s.nextChannel - 1 ==> c in s.evicted
    ensures var end := After(s, run);
            && Fresh(end)
            && end.nextChannel == s.nextChannel + Connects(run)
            && (end.nextChannel > 0 ==> end.evictTx == Some(end.nextChannel - 1))
            && (forall c: nat :: c < end.nextChannel - 1 ==> c in end.evicted)
            && (forall c: nat :: c < end.nextChannel ==>
                  (c in end.live <==> (c in s.live || c >= s.nextChannel) && c !in DroppedBy(run)))
    decreases |run|
  {
    if run != [] {
      assert !run[0].Disconnect? && NeverDisconnects(run[1..]);
      FreshStep(s, run[0]);
      HistoryFrom(Step(s, run[0]), run[1..]);
    }
  }

  /**
    * From a new session on, without disconnects: the flag is set exactly while the newest client's guard
    * has not been dropped, and no other client is attached, in whatever order older guards are dropped.
    */
  lemma FlagFollowsNewestClient(run: seq<Action>)
    requires IsRun(Start(), run) && NeverDisconnects(run)
    ensures var s, newest := After(Start(), run), Connects(run) - 1;
            && (s.hasClient <==> newest >= 0 && newest !in DroppedBy(run))
            && Attached(s) == if s.hasClient then {newest} else {}
  {
    SafeWithoutDisconnect(Start(), run);
    assert Attached(Start()) == {};
    SafeRunKeepsInv(Start(), run);
    HistoryFrom(Start(), run);
  }

  /** A connect after a disconnect whose client is still attached: two clients are attached. */
  lemma ReconnectAttachesTwo() returns (s: State)
    ensures IsRun(Start(), [Connect, Disconnect, Connect]) && s == After(Start(), [Connect, Disconnect, Connect])
    ensures {0, 1} <= Attached(s)
  {
    var one := Connected(Start());
    assert [Connect, Disconnect, Connect][1..] == [Disconnect, Connect];
    assert [Disconnect, Connect][1..] == [Connect];
    assert After(Disconnected(one), [Connect]) == Connected(Disconnected(one));
    assert After(one, [Disconnect, Connect]) == Connected(Disconnected(one));
    s := Connected(Disconnected(one));
  }

  // ----- what atomic drops are needed for -----

  /** The second half of a drop that read `wasAttached` at some earlier moment. */
  function LateDropped(s: State, guard: nat, wasAttached: bool): State {
    s.(hasClient := s.hasClient && !wasAttached, live := s.live - {guard})
  }

  /**
    * If other steps may come between a drop's read and its store, the store leaves one client and a right
    * flag, and keeps the invariant, if and only if the guard was evicted before the read, is not evicted yet,
    * or nobody else is attached.
    */
  lemma LateDropKeepsInvExactly(s: State, guard: nat, wasAttached: bool)
    requires Inv(s) && guard in s.live && (!wasAttached ==> guard in s.evicted)
    ensures OneClient(LateDropped(s, guard, wasAttached)) <==> !wasAttached || guard !in s.evicted || !s.hasClient
    ensures Inv(LateDropped(s, guard, wasAttached)) <==> !wasAttached || guard !in s.evicted || !s.hasClient
  {
    var next := LateDropped(s, guard, wasAttached);
    if guard in s.evicted {
      assert Attached(next) == Attached(s);
    } else {
      assert guard in Attached(s);
      NoneBut(s, guard);
    }
    assert Fresh(next);
  }

  /** A read, a connect and the late store leave a client attached with the flag cleared. */
  lemma LateDropLosesClient() returns (s: State)
    ensures s == LateDropped(After(Start(), [Connect, Connect]), 0, 0 in Attached(After(Start(), [Connect])))
    ensures 1 in Attached(s) && !s.hasClient
  {
    var one := Connected(Start());
    assert [Connect, Connect][1..] == [Connect];
    assert After(Start(), [Connect]) == one;
    assert After(Start(), [Connect, Connect]) == Connected(one);
    s := LateDropped(Connected(one), 0, true);
  }
}
