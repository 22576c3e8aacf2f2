/** What the changes recorded for a pane make of it: active or idle, seen or unseen, asking for attention. */
module PaneHistory {
  import opened Common
  import opened PaneActivities

  const I64_MAX := 0x7FFF_FFFF_FFFF_FFFF
  const I64_MIN := -0x8000_0000_0000_0000

  function SaturatingSub(a: int, b: int): int {
    if a - b > I64_MAX then I64_MAX else if a - b < I64_MIN then I64_MIN else a - b
  }

  datatype ActivityState = Active | IdleUnseen | IdleSeen

  predicate AttentionClosesCurrentActivity(a: PaneActivity) {
    a.needsAttentionAtMs > 0 && a.needsAttentionAtMs >= a.lastActivityAtMs
  }

  predicate HasRecentActivity(a: PaneActivity, nowMs: int, activeWindowMs: int) {
    && a.lastActivityAtMs > 0
    && !AttentionClosesCurrentActivity(a)
    && SaturatingSub(nowMs, a.lastActivityAtMs) <= activeWindowMs
  }

  predicate HasUnseenActivity(a: PaneActivity) {
    || a.lastActivityAtMs > a.lastSeenActivityAtMs
    || (a.lastTmuxActivityAtS.Some? && a.lastSeenTmuxActivityAtS.Some? &&
        a.lastTmuxActivityAtS.value > a.lastSeenTmuxActivityAtS.value)
    || (a.lastTmuxActivityAtS.Some? && a.lastSeenTmuxActivityAtS.None?)
    || (a.lastScreenFingerprint.Some? && a.lastScreenFingerprint != a.lastSeenScreenFingerprint)
  }

  function StateAt(a: PaneActivity, nowMs: int, activeWindowMs: int): ActivityState {
    if HasRecentActivity(a, nowMs, activeWindowMs) then Active
    else if HasUnseenActivity(a) then IdleUnseen
    else IdleSeen
  }

  // ----- a pane's changes, one after the other -----

  function Folded(a: PaneActivity, changes: seq<Change>): PaneActivity {
    if changes == [] then a else Changed(Folded(a, changes[..|changes| - 1]), changes[|changes| - 1])
  }

  lemma {:induction false} FoldedConcat(a: PaneActivity, before: seq<Change>, after: seq<Change>)
    ensures Folded(a, before + after) == Folded(Folded(a, before), after)
    decreases |after|
  {
    if after == [] {
      assert before + after == before;
    } else {
      var all := before + after;
      assert all[..|all| - 1] == before + after[..|after| - 1];
      FoldedConcat(a, before, after[..|after| - 1]);
    }
  }

  predicate NoneSeen(changes: seq<Change>) {
    forall i :: 0 <= i < |changes| ==> !changes[i].Seen?
  }

  lemma NoneSeenSnoc(front: seq<Change>, last: Change)
    ensures NoneSeen(front + [last]) <==> NoneSeen(front) && !last.Seen?
  {
    var all := front + [last];
    assert all[|front|] == last;
    assert forall i :: 0 <= i < |front| ==> all[i] == front[i];
  }

  /** The i-th change asks for attention, and the pane is not seen after it. */
  predicate StillAsks(changes: seq<Change>, i: nat)
    requires i < |changes|
  {
    changes[i].Attention? && NoneSeen(changes[i + 1..])
  }

  /** A pane asks for attention exactly when that was recorded and it has not been seen since. */
  lemma {:induction false} AttentionFollowsHistory(a: PaneActivity, changes: seq<Change>)
    ensures Folded(a, changes).needsAttention <==>
            || (a.needsAttention && NoneSeen(changes))
            || exists i :: 0 <= i < |changes| && StillAsks(changes, i)
  {
    if changes != [] {
      var n := |changes| - 1;
      var front := changes[..n];
      AttentionFollowsHistory(a, front);
      assert changes == front + [changes[n]];
      NoneSeenSnoc(front, changes[n]);
      forall i | 0 <= i < n ensures StillAsks(changes, i) <==> StillAsks(front, i) && !changes[n].Seen? {
        assert changes[i + 1..] == front[i + 1..] + [changes[n]];
        NoneSeenSnoc(front[i + 1..], changes[n]);
      }
      assert StillAsks(changes, n) <==> changes[n].Attention?;
    }
  }

  // ----- the latest times -----

  /** `x` is the greatest of `floor` and the times, and one of them. */
  ghost predicate IsLatest(x: int, floor: int, times: seq<int>) {
    && floor <= x
    && (forall i :: 0 <= i < |times| ==> times[i] <= x)
    && (x == floor || x in times)
  }

  function ActivityTimes(changes: seq<Change>): seq<int> {
    if changes == [] then []
    else
      var last := changes[|changes| - 1];
      ActivityTimes(changes[..|changes| - 1]) + if last.Activity? then [last.atMs] else []
  }

  function AttentionTimes(changes: seq<Change>): seq<int> {
    if changes == [] then []
    else
      var last := changes[|changes| - 1];
      AttentionTimes(changes[..|changes| - 1]) + if last.Attention? then [last.atMs] else []
  }

  function AllTimes(changes: seq<Change>): seq<int> {
    seq(|changes|, i requires 0 <= i < |changes| => changes[i].atMs)
  }

  lemma LatestSnoc(x: int, floor: int, times: seq<int>, t: int)
    requires IsLatest(x, floor, times)
    ensures IsLatest(if x < t then t else x, floor, times + [t])
  {
    assert (times + [t])[|times|] == t;
    if x in times {
      var i :| 0 <= i < |times| && times[i] == x;
      assert (times + [t])[i] == x;
    }
  }

  lemma {:induction false} TimesAreLatest(a: PaneActivity, changes: seq<Change>)
    ensures var x := Folded(a, changes);
            && IsLatest(x.lastActivityAtMs, a.lastActivityAtMs, ActivityTimes(changes))
            && IsLatest(x.needsAttentionAtMs, a.needsAttentionAtMs, AttentionTimes(changes))
            && IsLatest(x.updatedAtMs, a.updatedAtMs, AllTimes(changes))
  {
    if changes != [] {
      var n := |changes| - 1;
      var front, last := changes[..n], changes[n];
      var x := Folded(a, front);
      TimesAreLatest(a, front);
      LatestSnoc(x.lastActivityAtMs, a.lastActivityAtMs, ActivityTimes(front), last.atMs);
      LatestSnoc(x.needsAttentionAtMs, a.needsAttentionAtMs, AttentionTimes(front), last.atMs);
      LatestSnoc(x.updatedAtMs, a.updatedAtMs, AllTimes(front), last.atMs);
      assert AllTimes(changes) == AllTimes(front) + [last.atMs];
      assert ActivityTimes(front) + [] == ActivityTimes(front);
      assert AttentionTimes(front) + [] == AttentionTimes(front);
    }
  }

  lemma {:induction false} TimesAreOfChanges(changes: seq<Change>, t: int)
    ensures t in ActivityTimes(changes) <==> exists i :: 0 <= i < |changes| && changes[i].Activity? && changes[i].atMs == t
    ensures t in AttentionTimes(changes) <==> exists i :: 0 <= i < |changes| && changes[i].Attention? && changes[i].atMs == t
  {
    if changes != [] {
      var n := |changes| - 1;
      var front, last := changes[..n], changes[n];
      TimesAreOfChanges(front, t);
      assert forall i :: 0 <= i < n ==> front[i] == changes[i];
      assert t in ActivityTimes(changes) <==> t in ActivityTimes(front) || (last.Activity? && last.atMs == t);
      assert t in AttentionTimes(changes) <==> t in AttentionTimes(front) || (last.Attention? && last.atMs == t);
    }
  }

  /** Activity recorded within the window, and no attention recorded for that time or later. */
  predicate KeepsActive(changes: seq<Change>, i: nat, nowMs: int, activeWindowMs: int)
    requires i < |changes|
  {
    && changes[i].Activity? && changes[i].atMs > 0
    && SaturatingSub(nowMs, changes[i].atMs) <= activeWindowMs
    && forall j :: 0 <= j < |changes| && changes[j].Attention? && changes[j].atMs > 0 ==> changes[j].atMs < changes[i].atMs
  }

  /** The latest activity and attention of a new pane, by the changes themselves; zero when there are none. */
  lemma LatestOfNew(key: Key, createdMs: int, changes: seq<Change>)
    ensures var x := Folded(NewActivity(key, createdMs), changes);
            && (forall i :: 0 <= i < |changes| ==>
                  && (changes[i].Activity? ==> changes[i].atMs <= x.lastActivityAtMs)
                  && (changes[i].Attention? ==> changes[i].atMs <= x.needsAttentionAtMs))
            && (x.lastActivityAtMs > 0 ==>
                  exists i :: 0 <= i < |changes| && changes[i].Activity? && changes[i].atMs == x.lastActivityAtMs)
            && (x.needsAttentionAtMs > 0 ==>
                  exists i :: 0 <= i < |changes| && changes[i].Attention? && changes[i].atMs == x.needsAttentionAtMs)
  {
    var x := Folded(NewActivity(key, createdMs), changes);
    TimesAreLatest(NewActivity(key, createdMs), changes);
    TimesAreOfChanges(changes, x.lastActivityAtMs);
    TimesAreOfChanges(changes, x.needsAttentionAtMs);
    forall i | 0 <= i < |changes|
      ensures changes[i].Activity? ==> changes[i].atMs <= x.lastActivityAtMs
      ensures changes[i].Attention? ==> changes[i].atMs <= x.needsAttentionAtMs
    {
      TimesAreOfChanges(changes, changes[i].atMs);
    }
  }

  /** A pane is active exactly when some activity in its history keeps it so; having been seen does not matter. */
  lemma ActiveExactly(key: Key, createdMs: int, changes: seq<Change>, nowMs: int, activeWindowMs: int)
    ensures StateAt(Folded(NewActivity(key, createdMs), changes), nowMs, activeWindowMs) == Active <==>
            exists i :: 0 <= i < |changes| && KeepsActive(changes, i, nowMs, activeWindowMs)
  {
    var x := Folded(NewActivity(key, createdMs), changes);
    LatestOfNew(key, createdMs, changes);
    if HasRecentActivity(x, nowMs, activeWindowMs) {
      var i :| 0 <= i < |changes| && changes[i].Activity? && changes[i].atMs == x.lastActivityAtMs;
      assert KeepsActive(changes, i, nowMs, activeWindowMs);
    }
  }

  // ----- seen and unseen -----

  /** Activity that is newer in time, newer in tmux's count, or shows another screen than `y` has. */
  predicate IsNewer(c: Change, y: PaneActivity) {
    && c.Activity?
    && (|| c.atMs > y.lastActivityAtMs
        || (c.tmuxActivityAtS.Some? &&
            (y.lastTmuxActivityAtS.None? || c.tmuxActivityAtS.value > y.lastTmuxActivityAtS.value)))
  }

  predicate ShowsScreen(c: Change) {
    c.Activity? && c.screenFingerprint.Some?
  }

  /** The last screen reported is not the one `y` has. */
  ghost predicate EndsOnOtherScreen(changes: seq<Change>, y: PaneActivity) {
    exists i :: 0 <= i < |changes| && IsLastScreen(changes, i) && changes[i].screenFingerprint != y.lastScreenFingerprint
  }

  predicate IsLastScreen(changes: seq<Change>, i: nat)
    requires i < |changes|
  {
    ShowsScreen(changes[i]) && forall j :: i < j < |changes| ==> !ShowsScreen(changes[j])
  }

  ghost predicate SomeNewer(changes: seq<Change>, y: PaneActivity) {
    exists i :: 0 <= i < |changes| && IsNewer(changes[i], y)
  }

  /** What `x` shows differs from what `y` shows by something newer. */
  predicate NewerThan(x: PaneActivity, y: PaneActivity) {
    || x.lastActivityAtMs > y.lastActivityAtMs
    || (x.lastTmuxActivityAtS.Some? &&
        (y.lastTmuxActivityAtS.None? || x.lastTmuxActivityAtS.value > y.lastTmuxActivityAtS.value))
  }

  lemma {:induction false} NewerExactly(y: PaneActivity, changes: seq<Change>)
    ensures var x := Folded(y, changes);
            && x.lastActivityAtMs >= y.lastActivityAtMs
            && (y.lastTmuxActivityAtS.Some? ==>
                  x.lastTmuxActivityAtS.Some? && x.lastTmuxActivityAtS.value >= y.lastTmuxActivityAtS.value)
            && (NewerThan(x, y) <==> SomeNewer(changes, y))
  {
    if changes != [] {
      var n := |changes| - 1;
      NewerExactly(y, changes[..n]);
      assert forall i :: 0 <= i < n ==> changes[..n][i] == changes[i];
      assert SomeNewer(changes, y) <==> SomeNewer(changes[..n], y) || IsNewer(changes[n], y);
    }
  }

  lemma {:induction false} ScreenExactly(y: PaneActivity, changes: seq<Change>)
    ensures var x := Folded(y, changes);
            x.lastScreenFingerprint != y.lastScreenFingerprint <==> EndsOnOtherScreen(changes, y)
    ensures (exists i :: 0 <= i < |changes| && ShowsScreen(changes[i])) ==> Folded(y, changes).lastScreenFingerprint.Some?
    ensures y.lastScreenFingerprint.Some? ==> Folded(y, changes).lastScreenFingerprint.Some?
  {
    if changes != [] {
      var n := |changes| - 1;
      var front := changes[..n];
      ScreenExactly(y, front);
      assert forall i :: 0 <= i < n ==> front[i] == changes[i];
      if ShowsScreen(changes[n]) {
        assert IsLastScreen(changes, n);
        assert forall i :: 0 <= i < n ==> !IsLastScreen(changes, i);
      } else {
        assert forall i :: 0 <= i < n ==> (IsLastScreen(changes, i) <==> IsLastScreen(front, i));
      }
    }
  }

  /** What was seen last stays what it is as long as the pane is not seen again. */
  lemma {:induction false} SeenStays(y: PaneActivity, changes: seq<Change>)
    requires NoneSeen(changes)
    ensures var x := Folded(y, changes);
            && x.Key() == y.Key() && x.lastSeenAtMs == y.lastSeenAtMs
            && x.lastSeenActivityAtMs == y.lastSeenActivityAtMs
            && x.lastSeenTmuxActivityAtS == y.lastSeenTmuxActivityAtS
            && x.lastSeenScreenFingerprint == y.lastSeenScreenFingerprint
  {
    if changes != [] {
      assert forall i :: 0 <= i < |changes| - 1 ==> changes[..|changes| - 1][i] == changes[i];
      SeenStays(y, changes[..|changes| - 1]);
    }
  }

  /**
    * Being seen changes only what has been seen: the pane does not ask for attention, has nothing unseen, and
    * the time is noted; its activity stays.
    */
  lemma SeenSettles(y: PaneActivity, atMs: int)
    ensures var x := Changed(y, Seen(atMs));
            && !x.needsAttention && !HasUnseenActivity(x) && x.lastSeenAtMs == atMs
            && (y.needsAttention ==> x.needsAttentionClearedAtMs == atMs)
            && (!y.needsAttention ==> x.needsAttentionClearedAtMs == y.needsAttentionClearedAtMs)
            && x.lastSeenActivityAtMs == y.lastActivityAtMs
            && x.lastSeenTmuxActivityAtS == x.lastTmuxActivityAtS == y.lastTmuxActivityAtS
            && x.lastSeenScreenFingerprint == x.lastScreenFingerprint == y.lastScreenFingerprint
            && x.lastActivityAtMs == y.lastActivityAtMs && x.needsAttentionAtMs == y.needsAttentionAtMs
            && x.Key() == y.Key()
  {
  }

  /** When a pane asks for attention, the note of when it was last settled is cleared; activity keeps it. */
  lemma {:induction false} ClearedFollowsHistory(y: PaneActivity, changes: seq<Change>)
    requires NoneSeen(changes)
    ensures Folded(y, changes).needsAttentionClearedAtMs ==
            if exists i :: 0 <= i < |changes| && changes[i].Attention? then 0 else y.needsAttentionClearedAtMs
  {
    if changes != [] {
      var n := |changes| - 1;
      assert forall i :: 0 <= i < n ==> changes[..n][i] == changes[i];
      ClearedFollowsHistory(y, changes[..n]);
    }
  }

  /**
    * Since it was last seen a pane has unseen activity exactly when some later activity was newer than all
    * before, or the last screen reported since is another one; and it asks for attention exactly when that was
    * recorded since.
    */
  lemma UnseenExactly(a: PaneActivity, before: seq<Change>, seenAtMs: int, after: seq<Change>)
    requires NoneSeen(after)
    ensures var x, y := Folded(a, before + ([Seen(seenAtMs)] + after)), Folded(a, before);
            && (HasUnseenActivity(x) <==> SomeNewer(after, y) || EndsOnOtherScreen(after, y))
            && (x.needsAttention <==> exists i :: 0 <= i < |after| && after[i].Attention?)
            && x.lastSeenAtMs == seenAtMs && x.lastSeenActivityAtMs == y.lastActivityAtMs
  {
    var y := Folded(a, before);
    var z := Changed(y, Seen(seenAtMs));
    FoldedConcat(a, before, [Seen(seenAtMs)] + after);
    FoldedConcat(y, [Seen(seenAtMs)], after);
    assert Folded(y, [Seen(seenAtMs)]) == z by { assert [Seen(seenAtMs)][..0] == []; }
    SeenSettles(y, seenAtMs);
    SeenStays(z, after);
    NewerExactly(z, after);
    ScreenExactly(z, after);
    SameNews(y, z, after);
    AttentionFollowsHistory(z, after);
    assert forall i :: 0 <= i < |after| ==> (StillAsks(after, i) <==> after[i].Attention?);
  }

  lemma SameNews(y: PaneActivity, z: PaneActivity, changes: seq<Change>)
    requires y.lastActivityAtMs == z.lastActivityAtMs && y.lastTmuxActivityAtS == z.lastTmuxActivityAtS
    requires y.lastScreenFingerprint == z.lastScreenFingerprint
    ensures SomeNewer(changes, y) <==> SomeNewer(changes, z)
    ensures EndsOnOtherScreen(changes, y) <==> EndsOnOtherScreen(changes, z)
  {
    assert forall i :: 0 <= i < |changes| ==> (IsNewer(changes[i], y) <==> IsNewer(changes[i], z));
  }

  // ----- in every run -----

  function ChangesOf(run: seq<Action>, key: Key): seq<Change> {
    if run == [] then []
    else (if run[0].Record? && run[0].key == key then [run[0].change] else []) + ChangesOf(run[1..], key)
  }

  function EntryBefore(memory: map<Key, PaneActivity>, key: Key, changes: seq<Change>): PaneActivity
    requires key in memory || changes != []
  {
    if key in memory then memory[key] else NewActivity(key, changes[0].atMs)
  }

  lemma {:induction false} WrittenThroughIsFolded(memory: map<Key, PaneActivity>, run: seq<Action>, key: Key)
    ensures key in WrittenThrough(memory, run) <==> key in memory || ChangesOf(run, key) != []
    ensures key in WrittenThrough(memory, run) ==>
              WrittenThrough(memory, run)[key] == Folded(EntryBefore(memory, key, ChangesOf(run, key)), ChangesOf(run, key))
    decreases |run|
  {
    if run != [] {
      var rest := ChangesOf(run[1..], key);
      assert [] + rest == rest;
      if run[0].Record? {
        var c, k := run[0].change, run[0].key;
        var entry := if k in memory then memory[k] else NewActivity(k, c.atMs);
        var changed := memory[k := Changed(entry, c)];
        WrittenThroughIsFolded(changed, run[1..], key);
        if k == key {
          assert ChangesOf(run, key) == [c] + rest && EntryBefore(memory, key, [c] + rest) == entry;
          assert EntryBefore(changed, key, rest) == Changed(entry, c);
          FoldedFirst(entry, c, rest);
        } else {
          assert ChangesOf(run, key) == rest;
          assert key in changed <==> key in memory;
        }
      } else {
        WrittenThroughIsFolded(memory, run[1..], key);
      }
    }
  }

  lemma FoldedFirst(a: PaneActivity, c: Change, rest: seq<Change>)
    ensures Folded(a, [c] + rest) == Folded(Changed(a, c), rest)
  {
    FoldedConcat(a, [c], rest);
    assert [c][..0] == [];
  }

  /**
    * Over every run, whatever the persisting task does in between: memory holds for a pane just what the
    * changes recorded for that pane, in order, make of its entry.
    */
  lemma MemoryFollowsHistory(memory: map<Key, PaneActivity>, store: map<Key, PaneActivity>, run: seq<Action>, key: Key)
    requires IsRun(Start(memory, store), run)
    ensures var m, changes := After(Start(memory, store), run).memory, ChangesOf(run, key);
            && (key in m <==> key in memory || changes != [])
            && (key in m ==> m[key] == Folded(EntryBefore(memory, key, changes), changes))
  {
    MemoryIsWrittenThrough(Start(memory, store), run);
    WrittenThroughIsFolded(memory, run, key);
  }

  /** A pane first recorded in a run: when it is active, and whether it asks for attention, at the end of it. */
  lemma PaneStateFollowsRun(memory: map<Key, PaneActivity>, store: map<Key, PaneActivity>, run: seq<Action>, key: Key,
                            nowMs: int, activeWindowMs: int)
    requires IsRun(Start(memory, store), run) && key !in memory && ChangesOf(run, key) != []
    ensures var m, changes := After(Start(memory, store), run).memory, ChangesOf(run, key);
            && key in m
            && (StateAt(m[key], nowMs, activeWindowMs) == Active <==>
                  exists i :: 0 <= i < |changes| && KeepsActive(changes, i, nowMs, activeWindowMs))
            && (m[key].needsAttention <==>
                  exists i :: 0 <= i < |changes| && StillAsks(changes, i))
  {
    var changes := ChangesOf(run, key);
    MemoryFollowsHistory(memory, store, run, key);
    ActiveExactly(key, changes[0].atMs, changes, nowMs, activeWindowMs);
    AttentionFollowsHistory(NewActivity(key, changes[0].atMs), changes);
  }
}
