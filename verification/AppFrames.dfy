/** The app's own copy of the frame reader, and the capture of a pane that reads through it. */
module AppFrames {
  import opened Common
  import opened Frames

  /** The header is worked out with explicit indices. */
  class AppFrameReader {
    var readBuf: Bytes
    var offset: nat

    ghost predicate Valid()
      reads this
    {
      offset <= |readBuf|
    }

    function Unread(): Bytes
      requires Valid()
      reads this
    {
      readBuf[offset..]
    }

    constructor ()
      ensures Valid() && Unread() == []
    {
      readBuf, offset := [], 0;
    }

    method FillFrom(read: Bytes) returns (r: Result<bool, ProtocolError>)
      requires Valid() && |read| <= READ_BUF_SIZE
      modifies this
      ensures Valid() && Unread() == old(Unread()) + read
      ensures r.Err? <==> read != [] && |old(Unread())| + |read| > 2 * MAX_FRAME_SIZE + 8
      ensures r.Ok? ==> r.value == (read != [])
    {
      if offset > 0 {
        readBuf := readBuf[offset..];
        offset := 0;
      }
      var size := |read|;
      if size == 0 {
        return Ok(false);
      }
      readBuf := readBuf + read;
      if |readBuf| > MAX_FRAME_SIZE * 2 + 8 {
        return Err(FrameTooLarge(|readBuf|, MAX_FRAME_SIZE));
      }
      r := Ok(true);
    }

    /** Decodes exactly as the protocol crate's reader does. */
    method DecodeNext() returns (r: Result<Option<Bytes>, ProtocolError>)
      requires Valid()
      modifies this
      ensures Valid()
      ensures match DecodeFrame(old(Unread())) {
                case Err(e) => r == Err(e) && Unread() == old(Unread())
                case Ok(None) => r == Ok(None) && Unread() == old(Unread())
                case Ok(Some((payload, consumed))) => r == Ok(Some(payload)) && Unread() == old(Unread())[consumed..]
              }
    {
      if |readBuf| < offset + 4 {
        return Ok(None);
      }
      var start := offset;
      assert readBuf[offset..][..4] == [readBuf[start], readBuf[start + 1], readBuf[start + 2], readBuf[start + 3]];
      var len := FromBeBytes([readBuf[start], readBuf[start + 1], readBuf[start + 2], readBuf[start + 3]]);
      if len > MAX_FRAME_SIZE {
        return Err(FrameTooLarge(len, MAX_FRAME_SIZE));
      }
      if |readBuf| < start + 4 + len {
        return Ok(None);
      }
      var payload := readBuf[start + 4..start + 4 + len];
      assert payload == readBuf[start..][4..4 + len];
      offset := start + 4 + len;
      r := Ok(Some(payload));
    }
  }

  /** Dispatch every complete message; stop after a terminal one or an error. */
  method DispatchBuffered(frames: AppFrameReader, done: Bytes -> bool)
    returns (dispatched: seq<Bytes>, end: RelayEnd)
    requires frames.Valid()
    modifies frames
    ensures frames.Valid()
    ensures (dispatched, end) == Relayed(DrainFrames(old(frames.Unread())), done)
    ensures end == Detached ==> frames.Unread() == DrainFrames(old(frames.Unread())).rest
  {
    dispatched := [];
    ghost var buf := frames.Unread();
    ghost var all := DrainFrames(buf);
    while true
      invariant frames.Valid() && frames.Unread() == buf
      invariant Relayed(all, done).0 == dispatched + Relayed(DrainFrames(buf), done).0
      invariant Relayed(all, done).1 == Relayed(DrainFrames(buf), done).1
      invariant all.rest == DrainFrames(buf).rest
      decreases |buf|
    {
      RelayStep(buf, done);
      ghost var sofar := dispatched;
      assert sofar + [] == sofar;
      var next := frames.DecodeNext();
      match next {
        case Err(e) =>
          return dispatched, Failed(e);
        case Ok(None) =>
          return dispatched, Detached;
        case Ok(Some(payload)) =>
          buf := frames.Unread();
          dispatched := dispatched + [payload];
          if done(payload) {
            return dispatched, Done;
          }
          Assoc(sofar, [payload], Relayed(DrainFrames(buf), done).0);
      }
    }
  }

  /** What the first `n` reads delivered. */
  function Received(chunks: seq<Bytes>, n: nat): Bytes
    requires n <= |chunks|
  {
    Joined(chunks[..n])
  }

  lemma {:induction false} JoinedAppend(chunks: seq<Bytes>, last: Bytes)
    ensures Joined(chunks + [last]) == Joined(chunks) + last
  {
    if chunks == [] {
      assert [] + [last] == [last] && last + [] == last;
    } else {
      assert (chunks + [last])[1..] == chunks[1..] + [last];
      JoinedAppend(chunks[1..], last);
      Assoc(chunks[0], Joined(chunks[1..]), last);
    }
  }

  lemma ReceivedNext(chunks: seq<Bytes>, n: nat)
    requires n < |chunks|
    ensures Received(chunks, n + 1) == Received(chunks, n) + chunks[n]
  {
    assert chunks[..n + 1] == chunks[..n] + [chunks[n]];
    JoinedAppend(chunks[..n], chunks[n]);
  }

  /** One read into a buffer that holds no complete frame: the overflow guard cannot fire. */
  method FillIncomplete(frames: AppFrameReader, chunk: Bytes)
    requires frames.Valid() && DecodeFrame(frames.Unread()) == Ok(None)
    requires 0 < |chunk| <= READ_BUF_SIZE
    modifies frames
    ensures frames.Valid() && frames.Unread() == old(frames.Unread()) + chunk
  {
    IncompleteIsShort(frames.Unread());
    var filled := frames.FillFrom(chunk);
    if filled.Err? {
      assert false;
    }
  }

  /** The first `n` reads complete no message, and hold no error. */
  predicate Unanswered(chunks: seq<Bytes>, n: nat)
    requires n <= |chunks|
  {
    DrainFrames(Received(chunks, n)) == Drained([], Received(chunks, n), None)
  }

  /** The connection's first message; the reader keeps whatever came with it. */
  method ConnectRetachSession(chunks: seq<Bytes>)
    returns (frames: AppFrameReader, reply: Result<Option<Bytes>, ProtocolError>, used: nat)
    requires forall i :: 0 <= i < |chunks| ==> 0 < |chunks[i]| <= READ_BUF_SIZE
    ensures fresh(frames) && frames.Valid() && used <= |chunks|
    ensures forall n :: 0 <= n < used ==> Unanswered(chunks, n)
    ensures reply.Err? ==>
              DrainFrames(Received(chunks, used)) == Drained([], Received(chunks, used), Some(reply.error))
    ensures reply == Ok(None) ==>
              used == |chunks| && DrainFrames(Received(chunks, used)) == Drained([], Received(chunks, used), None)
    ensures reply.Ok? && reply.value.Some? ==>
              DrainFrames(Received(chunks, used)) == Cons(reply.value.value, DrainFrames(frames.Unread()))
  {
    frames := new AppFrameReader();
    used := 0;
    while used < |chunks|
      invariant 0 <= used <= |chunks| && frames.Valid() && fresh(frames)
      invariant frames.Unread() == Received(chunks, used) && DecodeFrame(frames.Unread()) == Ok(None)
      invariant forall n :: 0 <= n < used ==> Unanswered(chunks, n)
    {
      assert Unanswered(chunks, used);
      ReceivedNext(chunks, used);
      FillIncomplete(frames, chunks[used]);
      used := used + 1;
      ghost var unread := frames.Unread();
      FirstOfStream(unread, []);
      assert unread + [] == unread;
      reply := frames.DecodeNext();
      if reply != Ok(None) {
        assert frames.Unread() + [] == frames.Unread();
        return;
      }
    }
    reply := Ok(None);
  }

  /** The stream after the connection's reply. */
  function AfterReply(d: Drained): Drained
    requires d.payloads != []
  {
    d.(payloads := d.payloads[1..])
  }

  predicate AnyScreen(payloads: seq<Bytes>, screen: Bytes -> bool) {
    exists i :: 0 <= i < |payloads| && screen(payloads[i])
  }

  /** Whether the first `n` reads complete the connection's reply. */
  predicate Replied(chunks: seq<Bytes>, n: nat)
    requires n <= |chunks|
  {
    DrainFrames(Received(chunks, n)).payloads != []
  }

  /** What the first `n` reads give to dispatch after the reply, and how that ends. */
  function Captured(chunks: seq<Bytes>, n: nat, done: Bytes -> bool): (seq<Bytes>, RelayEnd)
    requires n <= |chunks| && Replied(chunks, n)
  {
    Relayed(AfterReply(DrainFrames(Received(chunks, n))), done)
  }

  predicate SameReply(chunks: seq<Bytes>, n: nat, m: nat)
    requires n <= |chunks| && m <= |chunks| && Replied(chunks, n) && Replied(chunks, m)
  {
    DrainFrames(Received(chunks, n)).payloads[0] == DrainFrames(Received(chunks, m)).payloads[0]
  }

  /** After the first `n` reads there is reason to read on: no message yet, or none that ends the capture. */
  predicate ReadsOn(chunks: seq<Bytes>, n: nat, done: Bytes -> bool, screen: Bytes -> bool)
    requires n <= |chunks|
  {
    if Replied(chunks, n) then
      Captured(chunks, n, done).1 == Detached && !AnyScreen(Captured(chunks, n, done).0, screen)
    else DrainFrames(Received(chunks, n)).error.None?
  }

  /** Before each of the first `used` reads there was reason to read on. */
  predicate ReadThrough(chunks: seq<Bytes>, used: nat, done: Bytes -> bool, screen: Bytes -> bool)
    requires used <= |chunks|
  {
    forall n :: 0 <= n < used ==> ReadsOn(chunks, n, done, screen)
  }

  lemma ReadThroughNext(chunks: seq<Bytes>, used: nat, done: Bytes -> bool, screen: Bytes -> bool)
    requires used < |chunks| && ReadThrough(chunks, used, done, screen)
    requires Replied(chunks, used) && Captured(chunks, used, done).1 == Detached
    requires !AnyScreen(Captured(chunks, used, done).0, screen)
    ensures ReadThrough(chunks, used + 1, done, screen)
  {
  }

  lemma UnansweredReadsOn(chunks: seq<Bytes>, used: nat, done: Bytes -> bool, screen: Bytes -> bool)
    requires used <= |chunks| && forall n :: 0 <= n < used ==> Unanswered(chunks, n)
    ensures ReadThrough(chunks, used, done, screen)
  {
    forall n | 0 <= n < used ensures ReadsOn(chunks, n, done, screen) {
      assert Unanswered(chunks, n);
    }
  }

  /** A drain that ended neither by a terminal message nor an error, followed by the next one. */
  lemma FollowedAfterReply(d: Drained, later: Drained, done: Bytes -> bool)
    requires d.payloads != [] && d.error.None? && !AnyDone(d.payloads[1..], done)
    ensures Relayed(AfterReply(Followed(d, later)), done) ==
            (Relayed(AfterReply(d), done).0 + Relayed(later, done).0, Relayed(later, done).1)
  {
    assert (d.payloads + later.payloads)[1..] == d.payloads[1..] + later.payloads;
    NoneDone(d.payloads[1..], later.payloads, done);
  }

  /** The next read of a capture that has neither met a terminal message nor an error. */
  lemma CaptureContinues(chunks: seq<Bytes>, n: nat, done: Bytes -> bool)
    requires n < |chunks| && Replied(chunks, n) && Captured(chunks, n, done).1 == Detached
    ensures var d, e := DrainFrames(Received(chunks, n)), DrainFrames(Received(chunks, n + 1));
            var later := DrainFrames(d.rest + chunks[n]);
            && DecodeFrame(d.rest) == Ok(None)
            && e.rest == later.rest && Replied(chunks, n + 1) && e.payloads[0] == d.payloads[0]
            && Captured(chunks, n + 1, done) ==
                 (Captured(chunks, n, done).0 + Relayed(later, done).0, Relayed(later, done).1)
  {
    var d := DrainFrames(Received(chunks, n));
    var later := DrainFrames(d.rest + chunks[n]);
    ReceivedNext(chunks, n);
    DrainedRestIsIncomplete(Received(chunks, n));
    DrainSplits(Received(chunks, n), chunks[n]);
    FollowedAfterReply(d, later, done);
  }

  /** One read of the capture, and the drain after it. */
  method ReadMore(frames: AppFrameReader, chunks: seq<Bytes>, n: nat, done: Bytes -> bool)
    returns (more: seq<Bytes>, end: RelayEnd)
    requires n < |chunks| && 0 < |chunks[n]| <= READ_BUF_SIZE
    requires Replied(chunks, n) && Captured(chunks, n, done).1 == Detached
    requires frames.Valid() && frames.Unread() == DrainFrames(Received(chunks, n)).rest
    modifies frames
    ensures frames.Valid() && Replied(chunks, n + 1)
    ensures SameReply(chunks, n, n + 1)
    ensures Captured(chunks, n + 1, done) == (Captured(chunks, n, done).0 + more, end)
    ensures end == Detached ==> frames.Unread() == DrainFrames(Received(chunks, n + 1)).rest
  {
    CaptureContinues(chunks, n, done);
    FillIncomplete(frames, chunks[n]);
    more, end := DispatchBuffered(frames, done);
  }

  /** Reading on until a screen was seen, a terminal message or an error came, or the reads are over. */
  method ReadUntilScreen(frames: AppFrameReader, chunks: seq<Bytes>, first: nat, sofar: seq<Bytes>,
                         done: Bytes -> bool, screen: Bytes -> bool)
    returns (dispatched: seq<Bytes>, end: RelayEnd, used: nat)
    requires forall i :: 0 <= i < |chunks| ==> 0 < |chunks[i]| <= READ_BUF_SIZE
    requires first <= |chunks| && Replied(chunks, first) && Captured(chunks, first, done) == (sofar, Detached)
    requires ReadThrough(chunks, first, done, screen)
    requires frames.Valid() && frames.Unread() == DrainFrames(Received(chunks, first)).rest
    modifies frames
    ensures first <= used <= |chunks| && Replied(chunks, used) && SameReply(chunks, first, used)
    ensures (dispatched, end) == Captured(chunks, used, done)
    ensures used == |chunks| || !ReadsOn(chunks, used, done, screen)
    ensures ReadThrough(chunks, used, done, screen)
  {
    dispatched, end, used := sofar, Detached, first;
    var sawScreen := SeesScreen(dispatched, screen);
    while end == Detached && !sawScreen && used < |chunks|
      invariant first <= used <= |chunks| && frames.Valid()
      invariant Replied(chunks, used) && SameReply(chunks, first, used)
      invariant Captured(chunks, used, done) == (dispatched, end)
      invariant end == Detached ==> frames.Unread() == DrainFrames(Received(chunks, used)).rest
      invariant sawScreen == AnyScreen(dispatched, screen)
      invariant ReadThrough(chunks, used, done, screen)
      decreases |chunks| - used
    {
      ReadThroughNext(chunks, used, done, screen);
      var more;
      more, end := ReadMore(frames, chunks, used, done);
      sawScreen := SeesScreen(more, screen);
      AnyScreenConcat(dispatched, more, screen);
      dispatched := dispatched + more;
      used := used + 1;
    }
  }

  /**
    * The capture of a pane, `chunks` being the reads before the deadline: connect, then dispatch what is
    * buffered and read on until a screen was seen. However the stream is cut, it dispatches exactly the
    * messages that the reads made complete, and it reads on exactly until one of them is a screen, a
    * terminal message or an error, or the reads are over.
    */
  method CaptureRetachPane(chunks: seq<Bytes>, done: Bytes -> bool, screen: Bytes -> bool)
    returns (reply: Result<Option<Bytes>, ProtocolError>, dispatched: seq<Bytes>, end: RelayEnd, used: nat)
    requires forall i :: 0 <= i < |chunks| ==> 0 < |chunks[i]| <= READ_BUF_SIZE
    ensures used <= |chunks|
    ensures ReadThrough(chunks, used, done, screen) && (used == |chunks| || !ReadsOn(chunks, used, done, screen))
    ensures reply.Ok? && reply.value.Some? <==> Replied(chunks, used)
    ensures reply.Err? ==> DrainFrames(Received(chunks, used)).error == Some(reply.error)
    ensures Replied(chunks, used) ==>
              && reply.value.value == DrainFrames(Received(chunks, used)).payloads[0]
              && (dispatched, end) == Captured(chunks, used, done)
  {
    var frames;
    frames, reply, used := ConnectRetachSession(chunks);
    dispatched, end := [], Detached;
    UnansweredReadsOn(chunks, used, done, screen);
    if reply.Err? || reply.value.None? { return; }
    ghost var d := DrainFrames(frames.Unread());
    assert Cons(reply.value.value, d).payloads[1..] == d.payloads;
    dispatched, end := DispatchBuffered(frames, done);
    assert Captured(chunks, used, done) == (dispatched, end);
    if end == Detached {
      dispatched, end, used := ReadUntilScreen(frames, chunks, used, dispatched, done, screen);
    }
  }

  lemma PrefixAfterReply(d: Drained, later: Drained, done: Bytes -> bool)
    requires d.payloads != [] && d.error.None?
    ensures var (before, end) := Relayed(AfterReply(d), done);
            var all := Relayed(AfterReply(Followed(d, later)), done);
            before <= all.0 && (end != Detached ==> all == (before, end))
  {
    if AnyDone(d.payloads[1..], done) {
      assert (d.payloads + later.payloads)[1..] == d.payloads[1..] + later.payloads;
      DoneHidesLater(d.payloads[1..], later.payloads, done);
    } else {
      FollowedAfterReply(d, later, done);
    }
  }

  /** Every capture of a stream dispatches a prefix of its messages, and all of them if it sees no screen. */
  lemma CaptureIsPrefix(chunks: seq<Bytes>, n: nat, done: Bytes -> bool)
    requires n <= |chunks| && Replied(chunks, n)
    ensures Replied(chunks, |chunks|)
    ensures Captured(chunks, n, done).0 <= Captured(chunks, |chunks|, done).0
    ensures Captured(chunks, n, done).1 != Detached ==> Captured(chunks, n, done) == Captured(chunks, |chunks|, done)
  {
    var buf, more := Received(chunks, n), Joined(chunks[n..]);
    var d := DrainFrames(buf);
    JoinedSplit(chunks, n);
    assert chunks[..|chunks|] == chunks;
    if d.error.Some? {
      DrainStopsAtError(buf, more);
    } else {
      DrainSplits(buf, more);
      PrefixAfterReply(d, DrainFrames(d.rest + more), done);
    }
  }

  lemma {:induction false} JoinedSplit(chunks: seq<Bytes>, n: nat)
    requires n <= |chunks|
    ensures Received(chunks, n) + Joined(chunks[n..]) == Joined(chunks)
  {
    if n == 0 {
      assert chunks[0..] == chunks && [] + Joined(chunks) == Joined(chunks);
    } else {
      JoinedSplit(chunks, n - 1);
      ReceivedNext(chunks, n - 1);
      assert chunks[n - 1..][1..] == chunks[n..];
      Assoc(Received(chunks, n - 1), chunks[n - 1], Joined(chunks[n..]));
    }
  }

  method SeesScreen(payloads: seq<Bytes>, screen: Bytes -> bool) returns (saw: bool)
    ensures saw == AnyScreen(payloads, screen)
  {
    saw := false;
    for i := 0 to |payloads|
      invariant saw == exists k :: 0 <= k < i && screen(payloads[k])
    {
      if screen(payloads[i]) {
        saw := true;
      }
    }
  }

  lemma AnyScreenConcat(a: seq<Bytes>, b: seq<Bytes>, screen: Bytes -> bool)
    ensures AnyScreen(a + b, screen) <==> AnyScreen(a, screen) || AnyScreen(b, screen)
  {
    if AnyScreen(a, screen) {
      var i :| 0 <= i < |a| && screen(a[i]);
      assert screen((a + b)[i]);
    }
    if AnyScreen(b, screen) {
      var i :| 0 <= i < |b| && screen(b[i]);
      assert screen((a + b)[|a| + i]);
    }
  }
}
