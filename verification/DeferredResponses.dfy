/** Replies the reader loop writes to the terminal, deferred in a bounded queue while the writer is taken. */
module DeferredResponses {
  import opened Common

  const MAX_DEFERRED := 64

  /** Trying the writer's lock: taken by another, or held while the first `writes` replies are written. */
  datatype Lock = Contended | Held(writes: nat)

  /** One read of the loop: the replies the screen produced and how the lock attempt goes. */
  datatype Read = Read(responses: seq<Bytes>, lock: Lock)

  datatype State = State(written: seq<Bytes>, deferred: seq<Bytes>)

  function LastOf(all: seq<Bytes>, n: nat): seq<Bytes> {
    if |all| <= n then all else all[|all| - n..]
  }

  predicate Enabled(s: State, r: Read) {
    r.lock.Held? ==> r.lock.writes <= |s.deferred| + |r.responses|
  }

  function Step(s: State, r: Read): State
    requires Enabled(s, r)
  {
    var all := s.deferred + r.responses;
    match r.lock
    case Contended => s.(deferred := LastOf(all, MAX_DEFERRED))
    case Held(writes) => State(s.written + all[..writes], [])
  }

  class Reader {
    /** What reached the terminal. */
    var written: seq<Bytes>
    var deferred: seq<Bytes>

    function View(): State
      reads this
    {
      State(written, deferred)
    }

    constructor ()
      ensures View() == State([], [])
    {
      written, deferred := [], [];
    }

    method HandleResponses(produced: seq<Bytes>, lock: Lock)
      requires Enabled(View(), Read(produced, lock))
      requires |deferred| <= MAX_DEFERRED
      modifies this
      ensures View() == Step(old(View()), Read(produced, lock))
    {
      var responses := produced;
      if deferred != [] {
        responses := deferred + responses;
        deferred := [];
      }
      assert responses == old(deferred) + produced;
      if responses != [] {
        match lock
        case Held(writes) =>
          var done := WriteAll(responses, writes);
          written := written + done;
        case Contended =>
          deferred := Defer(responses);
      }
    }
  }

  /** The write loop: the first failed write ends it. */
  method WriteAll(responses: seq<Bytes>, writes: nat) returns (done: seq<Bytes>)
    requires writes <= |responses|
    ensures done == responses[..writes]
  {
    done := [];
    var i := 0;
    while i < |responses|
      invariant 0 <= i <= writes
      invariant done == responses[..i]
    {
      if i == writes { break; }
      done := done + [responses[i]];
      i := i + 1;
    }
  }

  /** The deferral loop: the oldest reply goes when the queue is full. */
  method Defer(responses: seq<Bytes>) returns (queue: seq<Bytes>)
    ensures queue == LastOf(responses, MAX_DEFERRED)
  {
    queue := [];
    var i := 0;
    while i < |responses|
      invariant 0 <= i <= |responses|
      invariant queue == LastOf(responses[..i], MAX_DEFERRED)
    {
      assert responses[..i + 1] == responses[..i] + [responses[i]];
      if |queue| >= MAX_DEFERRED {
        queue := queue[1..];
      }
      queue := queue + [responses[i]];
      i := i + 1;
    }
    assert responses[..i] == responses;
  }

  // ----- runs -----

  predicate IsRun(run: seq<Read>)
    decreases |run|, 0
  {
    run == [] || (IsRun(run[..|run| - 1]) && Enabled(After(run[..|run| - 1]), run[|run| - 1]))
  }

  function After(run: seq<Read>): State
    requires IsRun(run)
    decreases |run|, 1
  {
    if run == [] then State([], []) else Step(After(run[..|run| - 1]), run[|run| - 1])
  }

  /** Every reply produced. */
  function Produced(run: seq<Read>): seq<Bytes> {
    if run == [] then [] else Produced(run[..|run| - 1]) + run[|run| - 1].responses
  }

  /** The replies produced since the lock was last got, whatever the queue did with them. */
  function Backlog(run: seq<Read>): seq<Bytes> {
    if run == [] || run[|run| - 1].lock.Held? then []
    else Backlog(run[..|run| - 1]) + run[|run| - 1].responses
  }

  /** No contended stretch produced more replies than the queue holds, and no write failed. */
  predicate Lossless(run: seq<Read>) {
    run == [] ||
    var before, last := run[..|run| - 1], run[|run| - 1];
    && Lossless(before)
    && match last.lock
       case Contended => |Backlog(run)| <= MAX_DEFERRED
       case Held(writes) => writes == |Backlog(before)| + |last.responses|
  }

  /** `part` is `whole` with some elements left out, the order kept. */
  predicate IsSubsequence(part: seq<Bytes>, whole: seq<Bytes>)
    decreases |whole|
  {
    if part == [] then true
    else if whole == [] then false
    else
      || IsSubsequence(part, whole[..|whole| - 1])
      || (part[|part| - 1] == whole[|whole| - 1] && IsSubsequence(part[..|part| - 1], whole[..|whole| - 1]))
  }

  predicate IsSuffix(part: seq<Bytes>, whole: seq<Bytes>) {
    |part| <= |whole| && part == whole[|whole| - |part|..]
  }

  lemma SuffixAppends(part: seq<Bytes>, whole: seq<Bytes>, more: seq<Bytes>)
    requires IsSuffix(part, whole)
    ensures IsSuffix(part + more, whole + more)
  {
    var skip := |whole| - |part|;
    assert (whole + more)[skip..] == whole[skip..] + more;
  }

  lemma LastOfIsSuffix(part: seq<Bytes>, whole: seq<Bytes>, n: nat)
    requires IsSuffix(part, whole)
    ensures IsSuffix(LastOf(part, n), whole)
  {
  }

  lemma LastOfAppend(a: seq<Bytes>, b: seq<Bytes>, n: nat)
    ensures LastOf(LastOf(a, n) + b, n) == LastOf(a + b, n)
  {
  }

  /** The queue holds the last replies of the backlog, at most its capacity. */
  lemma {:induction false} QueueIsEndOfBacklog(run: seq<Read>)
    requires IsRun(run)
    ensures After(run).deferred == LastOf(Backlog(run), MAX_DEFERRED)
    ensures IsSuffix(Backlog(run), Produced(run))
    decreases |run|
  {
    if run != [] {
      var before, last := run[..|run| - 1], run[|run| - 1];
      QueueIsEndOfBacklog(before);
      SuffixAppends(Backlog(before), Produced(before), last.responses);
      if last.lock.Contended? {
        LastOfAppend(Backlog(before), last.responses, MAX_DEFERRED);
      } else {
        assert Backlog(run) == [];
      }
    }
  }

  lemma {:induction false} SubsequenceOfPrefix(part: seq<Bytes>, whole: seq<Bytes>, more: seq<Bytes>)
    requires IsSubsequence(part, whole)
    ensures IsSubsequence(part, whole + more)
    decreases |more|
  {
    if more == [] {
      assert whole + more == whole;
    } else {
      assert (whole + more)[..|whole + more| - 1] == whole + more[..|more| - 1];
      SubsequenceOfPrefix(part, whole, more[..|more| - 1]);
    }
  }

  lemma {:induction false} SubsequenceAppends(part: seq<Bytes>, whole: seq<Bytes>, more: seq<Bytes>)
    requires IsSubsequence(part, whole)
    ensures IsSubsequence(part + more, whole + more)
    decreases |more|
  {
    if more == [] {
      assert whole + more == whole && part + more == part;
    } else {
      assert (whole + more)[..|whole + more| - 1] == whole + more[..|more| - 1];
      assert (part + more)[..|part + more| - 1] == part + more[..|more| - 1];
      SubsequenceAppends(part, whole, more[..|more| - 1]);
    }
  }

  /** Dropping a stretch of a subsequence leaves a subsequence. */
  lemma {:induction false} SubsequenceWithout(a: seq<Bytes>, gap: seq<Bytes>, b: seq<Bytes>, whole: seq<Bytes>)
    requires IsSubsequence(a + gap + b, whole)
    ensures IsSubsequence(a + b, whole)
    decreases |whole|, |gap|
  {
    var part := a + gap + b;
    if whole == [] {
      assert a + b == [];
    } else if b != [] {
      var front := whole[..|whole| - 1];
      if IsSubsequence(part, front) {
        SubsequenceWithout(a, gap, b, front);
        assert IsSubsequence(a + b, front);
      } else {
        assert part[..|part| - 1] == a + gap + b[..|b| - 1];
        SubsequenceWithout(a, gap, b[..|b| - 1], front);
        assert (a + b)[..|a + b| - 1] == a + b[..|b| - 1];
      }
    } else if gap != [] {
      SubsequenceShortens(part, whole);
      assert part[..|part| - 1] == a + gap[..|gap| - 1] + b;
      SubsequenceWithout(a, gap[..|gap| - 1], b, whole);
    } else {
      assert a + b == part;
    }
  }

  lemma {:induction false} SubsequenceShortens(part: seq<Bytes>, whole: seq<Bytes>)
    requires IsSubsequence(part, whole) && part != []
    ensures IsSubsequence(part[..|part| - 1], whole)
    decreases |whole|
  {
    var front := whole[..|whole| - 1];
    if IsSubsequence(part, front) {
      SubsequenceShortens(part, front);
    }
    assert IsSubsequence(part[..|part| - 1], front);
  }

  lemma {:induction false} SubsequenceLength(part: seq<Bytes>, whole: seq<Bytes>)
    requires IsSubsequence(part, whole)
    ensures |part| <= |whole| && (|part| == |whole| ==> part == whole)
    decreases |whole|
  {
    if part != [] {
      var front := whole[..|whole| - 1];
      if IsSubsequence(part, front) {
        SubsequenceLength(part, front);
      } else {
        SubsequenceLength(part[..|part| - 1], front);
        assert part == part[..|part| - 1] + [part[|part| - 1]];
        assert whole == front + [whole[|whole| - 1]];
      }
    }
  }

  lemma StepKeepsOrder(s: State, r: Read, produced: seq<Bytes>)
    requires Enabled(s, r) && IsSubsequence(s.written + s.deferred, produced)
    ensures IsSubsequence(Step(s, r).written + Step(s, r).deferred, produced + r.responses)
  {
    var all, whole := s.deferred + r.responses, produced + r.responses;
    SubsequenceAppends(s.written + s.deferred, produced, r.responses);
    Assoc(s.written, s.deferred, r.responses);
    match r.lock
    case Contended =>
      var kept := LastOf(all, MAX_DEFERRED);
      TailIsSubsequence(s.written, all, |all| - |kept|, whole);
    case Held(writes) =>
      HeadIsSubsequence(s.written, all, writes, whole);
  }

  lemma TailIsSubsequence(a: seq<Bytes>, b: seq<Bytes>, n: nat, whole: seq<Bytes>)
    requires IsSubsequence(a + b, whole) && n <= |b|
    ensures IsSubsequence(a + b[n..], whole)
  {
    assert a + b == a + b[..n] + b[n..];
    SubsequenceWithout(a, b[..n], b[n..], whole);
  }

  lemma HeadIsSubsequence(a: seq<Bytes>, b: seq<Bytes>, n: nat, whole: seq<Bytes>)
    requires IsSubsequence(a + b, whole) && n <= |b|
    ensures IsSubsequence(a + b[..n] + [], whole)
  {
    assert a + b == a + b[..n] + b[n..] + [];
    SubsequenceWithout(a + b[..n], b[n..], [], whole);
  }

  /**
    * Over every run the queue holds the last replies of the backlog, as many as its capacity of 64 allows, and
    * the replies written, then queued, are the produced ones in order with some left out.
    */
  lemma {:induction false} RepliesKeepOrder(run: seq<Read>)
    requires IsRun(run)
    ensures var s := After(run);
            && |s.deferred| <= MAX_DEFERRED
            && IsSuffix(s.deferred, Produced(run)) && IsSuffix(s.deferred, Backlog(run))
            && |s.deferred| == (if |Backlog(run)| <= 64 then |Backlog(run)| else 64)
            && IsSubsequence(s.written + s.deferred, Produced(run))
    decreases |run|
  {
    QueueIsEndOfBacklog(run);
    LastOfIsSuffix(Backlog(run), Produced(run), MAX_DEFERRED);
    if run != [] {
      RepliesKeepOrder(run[..|run| - 1]);
      StepKeepsOrder(After(run[..|run| - 1]), run[|run| - 1], Produced(run[..|run| - 1]));
    }
  }

  lemma {:induction false} NoneLostByCount(run: seq<Read>)
    requires IsRun(run)
    ensures var s := After(run); |s.written| + |s.deferred| <= |Produced(run)|
    ensures var s := After(run); |s.written| + |s.deferred| == |Produced(run)| <==> Lossless(run)
    decreases |run|
  {
    if run != [] {
      NoneLostByCount(run[..|run| - 1]);
      QueueIsEndOfBacklog(run[..|run| - 1]);
      var before := run[..|run| - 1];
      if Lossless(before) {
        assert |Backlog(before)| <= MAX_DEFERRED;
      }
    }
  }

  /** No reply is lost if and only if no write failed and no contended stretch outgrew the queue. */
  lemma NoneLostExactly(run: seq<Read>)
    requires IsRun(run)
    ensures After(run).written + After(run).deferred == Produced(run) <==> Lossless(run)
  {
    RepliesKeepOrder(run);
    NoneLostByCount(run);
    SubsequenceLength(After(run).written + After(run).deferred, Produced(run));
  }

  /** `t` has the first `n` of the queued and new replies written after what `s` has. */
  predicate WritesOldest(s: State, t: State, responses: seq<Bytes>, n: nat)
    requires n <= |s.deferred| + |responses|
  {
    && |t.written| == |s.written| + n
    && (forall i :: 0 <= i < |s.written| ==> t.written[i] == s.written[i])
    && forall i :: 0 <= i < n ==>
         t.written[|s.written| + i] == if i < |s.deferred| then s.deferred[i] else responses[i - |s.deferred|]
  }

  /**
    * When the lock is got, the oldest replies go first: the queued ones, then the new ones, up to the first
    * write that fails; the queue is then empty. While the lock is taken nothing is written.
    */
  lemma OldestAreWritten(s: State, r: Read)
    requires Enabled(s, r)
    ensures var t := Step(s, r);
            match r.lock
            case Held(writes) => t.deferred == [] && WritesOldest(s, t, r.responses, writes)
            case Contended => t.written == s.written
  {
    if r.lock.Held? {
      var all, t := s.deferred + r.responses, Step(s, r);
      assert t.written == s.written + all[..r.lock.writes];
      forall i | 0 <= i < r.lock.writes ensures t.written[|s.written| + i] == all[i] {
      }
    }
  }
}
