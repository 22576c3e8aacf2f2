/** The length-prefixed frame codec and its two buffered readers. */
module Frames {
  import opened Common

  const MAX_FRAME_SIZE := 16 * 1024 * 1024
  const READ_BUF_SIZE := 65536

  datatype ProtocolError = FrameTooLarge(size: nat, max: nat) | SizeLimit(size: nat)

  function BeBytes(len: u32): (b: Bytes)
    ensures |b| == 4
  {
    var high, low := len / 0x1_0000, len % 0x1_0000;
    [high / 0x100, high % 0x100, low / 0x100, low % 0x100]
  }

  function FromBeBytes(b: Bytes): u32
    requires |b| == 4
  {
    var high := (b[0] as int) * 0x100 + b[1] as int;
    var low := (b[2] as int) * 0x100 + b[3] as int;
    high * 0x1_0000 + low
  }

  lemma BeBytesRoundTrip(len: u32)
    ensures FromBeBytes(BeBytes(len)) == len
  {
  }

  /**
    * A message is its payload bytes, as the serializer would write them. The serializer's own limit refuses
    * an oversized one, so the length of what it does write fits the 32-bit header.
    */
  function Encode(payload: Bytes): Result<Bytes, ProtocolError> {
    if |payload| > MAX_FRAME_SIZE then Err(SizeLimit(|payload|))
    else Ok(BeBytes(|payload|) + payload)
  }

  /** The first frame's payload and how many bytes it took; None while the frame is incomplete. */
  function DecodeFrame(buf: Bytes): Result<Option<(Bytes, nat)>, ProtocolError> {
    if |buf| < 4 then Ok(None)
    else
      var len := FromBeBytes(buf[..4]);
      if len > MAX_FRAME_SIZE then Err(FrameTooLarge(len, MAX_FRAME_SIZE))
      else if |buf| < 4 + len then Ok(None)
      else Ok(Some((buf[4..4 + len], 4 + len)))
  }

  /** A payload is encoded if and only if it is not oversized, and then decoded from any stream it begins. */
  lemma EncodeDecode(payload: Bytes, more: Bytes)
    ensures Encode(payload).Ok? <==> |payload| <= MAX_FRAME_SIZE
    ensures Encode(payload).Ok? ==> DecodeFrame(Encode(payload).value + more) == Ok(Some((payload, 4 + |payload|)))
  {
    if |payload| <= MAX_FRAME_SIZE {
      BeBytesRoundTrip(|payload|);
      var buf := Encode(payload).value + more;
      assert buf[..4] == BeBytes(|payload|);
      assert buf[4..4 + |payload|] == payload;
    }
  }

  /** On the wire: the payload's length in four bytes, the most significant first, then the payload. */
  lemma FrameOnTheWire(payload: Bytes)
    requires |payload| <= 0x100_0000
    ensures var frame := Encode(payload).value;
            && Encode(payload).Ok? && |frame| == 4 + |payload| && frame[4..] == payload
            && frame[0] == |payload| / 0x100_0000 && frame[1] == |payload| / 0x1_0000 % 0x100
            && frame[2] == |payload| / 0x100 % 0x100 && frame[3] == |payload| % 0x100
  {
    BeBytesAreDigits(|payload|);
    HeaderThenRest(BeBytes(|payload|), payload);
  }

  lemma BeBytesAreDigits(len: u32)
    ensures var b := BeBytes(len);
            b[0] == len / 0x100_0000 && b[1] == len / 0x1_0000 % 0x100 && b[2] == len / 0x100 % 0x100 && b[3] == len % 0x100
  {
  }

  lemma HeaderThenRest(header: Bytes, rest: Bytes)
    requires |header| == 4
    ensures var all := header + rest;
            all[4..] == rest && all[0] == header[0] && all[1] == header[1] && all[2] == header[2] && all[3] == header[3]
  {
  }

  /** Off the wire: four bytes, the most significant first, say how many more make the frame, if not too many. */
  lemma HeaderOffTheWire(buf: Bytes)
    ensures |buf| < 4 ==> DecodeFrame(buf) == Ok(None)
    ensures |buf| >= 4 ==>
              var len := (((buf[0] as int) * 0x100 + buf[1] as int) * 0x100 + buf[2] as int) * 0x100 + buf[3] as int;
              DecodeFrame(buf) ==
              if len > 0x100_0000 then Err(FrameTooLarge(len, 0x100_0000))
              else if |buf| - 4 < len then Ok(None)
              else Ok(Some((buf[4..][..len], 4 + len)))
  {
    if |buf| >= 4 {
      var len := (((buf[0] as int) * 0x100 + buf[1] as int) * 0x100 + buf[2] as int) * 0x100 + buf[3] as int;
      assert FromBeBytes(buf[..4]) == len;
      if len <= MAX_FRAME_SIZE && |buf| - 4 >= len {
        assert buf[4..][..len] == buf[4..4 + len];
      }
    }
  }

  /** A header that another sender wrote for an oversized frame is refused, whatever follows. */
  lemma OversizedIsRefused(len: u32, more: Bytes)
    requires len > MAX_FRAME_SIZE
    ensures DecodeFrame(BeBytes(len) + more) == Err(FrameTooLarge(len, MAX_FRAME_SIZE))
  {
    BeBytesRoundTrip(len);
    assert (BeBytes(len) + more)[..4] == BeBytes(len);
  }

  /** Nothing short of a whole frame decodes. */
  lemma PrefixIsIncomplete(payload: Bytes, k: nat)
    requires |payload| <= MAX_FRAME_SIZE && k < 4 + |payload|
    ensures DecodeFrame(Encode(payload).value[..k]) == Ok(None)
  {
    BeBytesRoundTrip(|payload|);
    if k >= 4 {
      assert Encode(payload).value[..k][..4] == BeBytes(|payload|);
    }
  }

  // ----- draining a buffer -----

  /** All complete frames at the front of a buffer, what is left, and the error that stopped it. */
  datatype Drained = Drained(payloads: seq<Bytes>, rest: Bytes, error: Option<ProtocolError>)

  function DrainFrames(buf: Bytes): (d: Drained)
    decreases |buf|
  {
    match DecodeFrame(buf)
    case Err(e) => Drained([], buf, Some(e))
    case Ok(None) => Drained([], buf, None)
    case Ok(Some((payload, consumed))) =>
      Cons(payload, DrainFrames(buf[consumed..]))
  }

  function Cons(payload: Bytes, d: Drained): Drained {
    Drained([payload] + d.payloads, d.rest, d.error)
  }

  lemma {:induction false} DrainedRestIsIncomplete(buf: Bytes)
    ensures var d := DrainFrames(buf);
            match d.error { case Some(e) => DecodeFrame(d.rest) == Err(e) case None => DecodeFrame(d.rest) == Ok(None) }
    ensures DrainFrames(buf).error.None? ==> |DrainFrames(buf).rest| < 4 + MAX_FRAME_SIZE
    decreases |buf|
  {
    match DecodeFrame(buf)
    case Ok(Some((payload, consumed))) => DrainedRestIsIncomplete(buf[consumed..]);
    case _ =>
  }

  lemma DecodeFrameMore(buf: Bytes, more: Bytes)
    ensures DecodeFrame(buf) != Ok(None) ==> DecodeFrame(buf + more) == DecodeFrame(buf)
  {
    if |buf| >= 4 {
      assert (buf + more)[..4] == buf[..4];
      var len := FromBeBytes(buf[..4]);
      if len <= MAX_FRAME_SIZE && |buf| >= 4 + len {
        assert (buf + more)[4..4 + len] == buf[4..4 + len];
      }
    }
  }

  /** What draining `first` and then, if no error stopped it, `second` gives. */
  function Followed(first: Drained, second: Drained): Drained {
    Drained(first.payloads + second.payloads, second.rest, second.error)
  }

  lemma FollowedCons(payload: Bytes, first: Drained, second: Drained)
    ensures Followed(Cons(payload, first), second) == Cons(payload, Followed(first, second))
  {
    assert [payload] + (first.payloads + second.payloads) == ([payload] + first.payloads) + second.payloads;
  }

  /** Draining what arrived first, then the remainder with what arrived later, misses nothing. */
  lemma {:induction false} DrainSplits(buf: Bytes, more: Bytes)
    requires DrainFrames(buf).error.None?
    ensures DrainFrames(buf + more) == Followed(DrainFrames(buf), DrainFrames(DrainFrames(buf).rest + more))
    decreases |buf|
  {
    match DecodeFrame(buf)
    case Ok(None) =>
      assert [] + DrainFrames(buf + more).payloads == DrainFrames(buf + more).payloads;
    case Ok(Some((payload, consumed))) =>
      DecodeFrameMore(buf, more);
      var tail := buf[consumed..];
      assert (buf + more)[consumed..] == tail + more;
      DrainSplits(tail, more);
      FollowedCons(payload, DrainFrames(tail), DrainFrames(DrainFrames(tail).rest + more));
  }

  /** After an error nothing that arrives later is delivered. */
  lemma {:induction false} DrainStopsAtError(buf: Bytes, more: Bytes)
    requires DrainFrames(buf).error.Some?
    ensures DrainFrames(buf + more).payloads == DrainFrames(buf).payloads
    ensures DrainFrames(buf + more).error == DrainFrames(buf).error
    decreases |buf|
  {
    DecodeFrameMore(buf, more);
    match DecodeFrame(buf)
    case Err(_) =>
    case Ok(Some((payload, consumed))) =>
      assert (buf + more)[consumed..] == buf[consumed..] + more;
      DrainStopsAtError(buf[consumed..], more);
  }

  /** The bytes a sender writes for a list of payloads. */
  function Stream(payloads: seq<Bytes>): Bytes
    requires forall i :: 0 <= i < |payloads| ==> |payloads[i]| <= MAX_FRAME_SIZE
  {
    if payloads == [] then [] else Encode(payloads[0]).value + Stream(payloads[1..])
  }

  lemma {:induction false} DrainStream(payloads: seq<Bytes>)
    requires forall i :: 0 <= i < |payloads| ==> |payloads[i]| <= MAX_FRAME_SIZE
    ensures DrainFrames(Stream(payloads)) == Drained(payloads, [], None)
  {
    if payloads != [] {
      EncodeDecode(payloads[0], Stream(payloads[1..]));
      var stream := Stream(payloads);
      assert stream[4 + |payloads[0]|..] == Stream(payloads[1..]);
      DrainStream(payloads[1..]);
      assert [payloads[0]] + payloads[1..] == payloads;
    }
  }

  /** An oversized header after any number of frames: they are delivered, and the stream stops there. */
  lemma OversizedStopsStream(payloads: seq<Bytes>, bad: Bytes)
    requires forall i :: 0 <= i < |payloads| ==> |payloads[i]| <= MAX_FRAME_SIZE
    requires |bad| >= 4
    requires (((bad[0] as int) * 0x100 + bad[1] as int) * 0x100 + bad[2] as int) * 0x100 + bad[3] as int > MAX_FRAME_SIZE
    ensures var len := (((bad[0] as int) * 0x100 + bad[1] as int) * 0x100 + bad[2] as int) * 0x100 + bad[3] as int;
            DrainFrames(Stream(payloads) + bad) == Drained(payloads, bad, Some(FrameTooLarge(len, MAX_FRAME_SIZE)))
  {
    HeaderOffTheWire(bad);
    DrainStream(payloads);
    DrainSplits(Stream(payloads), bad);
    assert [] + bad == bad && payloads + [] == payloads;
  }

  // ----- the readers -----

  /** The reader of the retach protocol crate: decoding only advances an offset, filling compacts. */
  class FrameReader {
    var readBuf: Bytes
    var offset: nat

    ghost predicate Valid()
      reads this
    {
      offset <= |readBuf|
    }

    /** The bytes received and not yet decoded. */
    function Unread(): Bytes
      requires Valid()
      reads this
    {
      readBuf[offset..]
    }

    constructor ()
      ensures Valid() && Unread() == []
    {
      readBuf, offset := [], 0;
    }

    constructor WithLeftover(leftover: Bytes)
      ensures Valid() && Unread() == leftover
    {
      readBuf, offset := leftover, 0;
    }

    /** `read` is what one socket read delivered: nothing at end of stream. */
    method FillFrom(read: Bytes) returns (r: Result<bool, ProtocolError>)
      requires Valid() && |read| <= READ_BUF_SIZE
      modifies this
      ensures Valid() && Unread() == old(Unread()) + read
      ensures |old(Unread())| <= 2 * MAX_FRAME_SIZE + 8 - |read| ==> r == Ok(read != [])
      ensures r.Err? <==> read != [] && |old(Unread())| + |read| > 2 * MAX_FRAME_SIZE + 8
    {
      if offset > 0 {
        readBuf := readBuf[offset..];
        offset := 0;
      }
      if |read| == 0 {
        return Ok(false);
      }
      readBuf := readBuf + read;
      if |readBuf| > MAX_FRAME_SIZE * 2 + 8 {
        return Err(FrameTooLarge(|readBuf|, MAX_FRAME_SIZE));
      }
      r := Ok(true);
    }

    method DecodeNext() returns (r: Result<Option<Bytes>, ProtocolError>)
      requires Valid()
      modifies this
      ensures Valid()
      ensures match DecodeFrame(old(Unread())) {
                case Err(e) => r == Err(e) && Unread() == old(Unread())
                case Ok(None) => r == Ok(None) && Unread() == old(Unread())
                case Ok(Some((payload, consumed))) => r == Ok(Some(payload)) && Unread() == old(Unread())[consumed..]
              }
    {
      match DecodeFrame(readBuf[offset..])
      case Err(e) => r := Err(e);
      case Ok(None) => r := Ok(None);
      case Ok(Some((payload, consumed))) =>
        offset := offset + consumed;
        r := Ok(Some(payload));
    }

    method IntoLeftover() returns (leftover: Bytes)
      requires Valid()
      ensures leftover == Unread()
    {
      leftover := readBuf[offset..];
    }
  }

  // ----- the relay loop over any chopping of the stream -----

  /** How the relay ended: the stream ended, a terminal message was dispatched, or an error was returned. */
  datatype RelayEnd = Detached | Done | Failed(error: ProtocolError)

  /** The messages dispatched up to and including the first terminal one. */
  function UpToDone(payloads: seq<Bytes>, done: Bytes -> bool): seq<Bytes> {
    if payloads == [] then []
    else if done(payloads[0]) then [payloads[0]]
    else [payloads[0]] + UpToDone(payloads[1..], done)
  }

  predicate AnyDone(payloads: seq<Bytes>, done: Bytes -> bool) {
    payloads != [] && (done(payloads[0]) || AnyDone(payloads[1..], done))
  }

  lemma {:induction false} NoneDone(a: seq<Bytes>, b: seq<Bytes>, done: Bytes -> bool)
    requires !AnyDone(a, done)
    ensures UpToDone(a, done) == a
    ensures UpToDone(a + b, done) == a + UpToDone(b, done)
    ensures AnyDone(a + b, done) == AnyDone(b, done)
  {
    if a == [] {
      assert a + b == b;
    } else {
      assert (a + b)[1..] == a[1..] + b;
      NoneDone(a[1..], b, done);
      Assoc([a[0]], a[1..], UpToDone(b, done));
      assert [a[0]] + a[1..] == a;
    }
  }

  lemma {:induction false} DoneHidesLater(a: seq<Bytes>, b: seq<Bytes>, done: Bytes -> bool)
    requires AnyDone(a, done)
    ensures UpToDone(a + b, done) == UpToDone(a, done) && AnyDone(a + b, done)
  {
    if !done(a[0]) {
      assert (a + b)[1..] == a[1..] + b;
      DoneHidesLater(a[1..], b, done);
    }
  }

  /** What the relay dispatches, and how it ends, on a stream that drains as `d`. */
  function Relayed(d: Drained, done: Bytes -> bool): (seq<Bytes>, RelayEnd) {
    (UpToDone(d.payloads, done),
     if AnyDone(d.payloads, done) then Done else if d.error.Some? then Failed(d.error.value) else Detached)
  }

  /** The k-th payload is the first terminal one. */
  predicate IsFirstDone(payloads: seq<Bytes>, done: Bytes -> bool, k: nat) {
    k < |payloads| && done(payloads[k]) && forall i :: 0 <= i < k ==> !done(payloads[i])
  }

  lemma {:induction false} UpToFirstDone(payloads: seq<Bytes>, done: Bytes -> bool, k: nat)
    requires IsFirstDone(payloads, done, k)
    ensures UpToDone(payloads, done) == payloads[..k + 1] && AnyDone(payloads, done)
  {
    var rest := payloads[1..];
    if k > 0 {
      assert forall i :: 0 <= i < |rest| ==> rest[i] == payloads[i + 1];
      UpToFirstDone(rest, done, k - 1);
      assert payloads[..k + 1] == [payloads[0]] + rest[..k];
    }
  }

  lemma {:induction false} UpToNoneDone(payloads: seq<Bytes>, done: Bytes -> bool)
    requires forall i :: 0 <= i < |payloads| ==> !done(payloads[i])
    ensures UpToDone(payloads, done) == payloads && !AnyDone(payloads, done)
  {
    if payloads != [] {
      UpToNoneDone(payloads[1..], done);
      assert [payloads[0]] + payloads[1..] == payloads;
    }
  }

  /**
    * The first terminal message is dispatched and nothing after it, whatever error follows; without one all
    * messages are dispatched, and the relay fails exactly when an error stopped the stream.
    */
  lemma RelayedByIndex(d: Drained, done: Bytes -> bool)
    ensures forall k: nat :: IsFirstDone(d.payloads, done, k) ==> Relayed(d, done) == (d.payloads[..k + 1], Done)
    ensures (forall i :: 0 <= i < |d.payloads| ==> !done(d.payloads[i])) ==>
              Relayed(d, done) == (d.payloads, if d.error.Some? then Failed(d.error.value) else Detached)
  {
    forall k: nat | IsFirstDone(d.payloads, done, k) ensures Relayed(d, done) == (d.payloads[..k + 1], Done) {
      UpToFirstDone(d.payloads, done, k);
    }
    if forall i :: 0 <= i < |d.payloads| ==> !done(d.payloads[i]) {
      UpToNoneDone(d.payloads, done);
    }
  }

  lemma RelayStep(buf: Bytes, done: Bytes -> bool)
    ensures DecodeFrame(buf).Err? ==> Relayed(DrainFrames(buf), done) == ([], Failed(DecodeFrame(buf).error))
    ensures DecodeFrame(buf) == Ok(None) ==> Relayed(DrainFrames(buf), done) == ([], Detached) && DrainFrames(buf).rest == buf
    ensures DecodeFrame(buf).Ok? && DecodeFrame(buf).value.Some? ==>
              var (payload, consumed) := DecodeFrame(buf).value.value;
              var d := DrainFrames(buf[consumed..]);
              && DrainFrames(buf).rest == d.rest
              && Relayed(DrainFrames(buf), done) ==
                   if done(payload) then ([payload], Done) else ([payload] + Relayed(d, done).0, Relayed(d, done).1)
  {
    if DecodeFrame(buf).Ok? && DecodeFrame(buf).value.Some? {
      var d := DrainFrames(buf[DecodeFrame(buf).value.value.1..]);
      assert DrainFrames(buf).payloads[1..] == d.payloads;
    }
  }

  /** One drain of the relay: dispatch every complete message, stop at a terminal one or an error. */
  method DrainAndDispatch(frames: FrameReader, done: Bytes -> bool)
    returns (dispatched: seq<Bytes>, end: RelayEnd)
    requires frames.Valid()
    modifies frames
    ensures frames.Valid()
    ensures (dispatched, end) == Relayed(DrainFrames(old(frames.Unread())), done)
    ensures end == Detached ==> frames.Unread() == DrainFrames(old(frames.Unread())).rest
  {
    dispatched := [];
    ghost var buf := frames.Unread();
    ghost var all := DrainFrames(buf);
    while true
      invariant frames.Valid() && frames.Unread() == buf
      invariant Relayed(all, done).0 == dispatched + Relayed(DrainFrames(buf), done).0
      invariant Relayed(all, done).1 == Relayed(DrainFrames(buf), done).1
      invariant all.rest == DrainFrames(buf).rest
      decreases |buf|
    {
      RelayStep(buf, done);
      ghost var sofar := dispatched;
      assert sofar + [] == sofar;
      var next := frames.DecodeNext();
      match next {
        case Err(e) =>
          return dispatched, Failed(e);
        case Ok(None) =>
          return dispatched, Detached;
        case Ok(Some(payload)) =>
          buf := frames.Unread();
          dispatched := dispatched + [payload];
          if done(payload) {
            return dispatched, Done;
          }
          Assoc(sofar, [payload], Relayed(DrainFrames(buf), done).0);
      }
    }
  }

  /** A drain that neither ended the relay nor failed, followed by whatever comes later. */
  lemma RelayContinues(buf: Bytes, more: Bytes, done: Bytes -> bool)
    ensures var (before, end) := Relayed(DrainFrames(buf), done);
            if end == Detached then
              var (after, final) := Relayed(DrainFrames(DrainFrames(buf).rest + more), done);
              Relayed(DrainFrames(buf + more), done) == (before + after, final)
            else Relayed(DrainFrames(buf + more), done) == (before, end)
  {
    var d := DrainFrames(buf);
    if d.error.None? {
      DrainSplits(buf, more);
      if AnyDone(d.payloads, done) {
        DoneHidesLater(d.payloads, DrainFrames(d.rest + more).payloads, done);
      } else {
        NoneDone(d.payloads, DrainFrames(d.rest + more).payloads, done);
      }
    } else {
      DrainStopsAtError(buf, more);
    }
  }

  /** One read of the relay, and the drain after it; the overflow guard cannot fire here. */
  method FillAndDispatch(frames: FrameReader, chunk: Bytes, done: Bytes -> bool)
    returns (dispatched: seq<Bytes>, end: RelayEnd)
    requires frames.Valid() && DecodeFrame(frames.Unread()) == Ok(None)
    requires 0 < |chunk| <= READ_BUF_SIZE
    modifies frames
    ensures frames.Valid()
    ensures (dispatched, end) == Relayed(DrainFrames(old(frames.Unread()) + chunk), done)
    ensures end == Detached ==> frames.Unread() == DrainFrames(old(frames.Unread()) + chunk).rest
    ensures end == Detached ==> DecodeFrame(frames.Unread()) == Ok(None)
  {
    IncompleteIsShort(frames.Unread());
    DrainedRestIsIncomplete(frames.Unread() + chunk);
    var filled := frames.FillFrom(chunk);
    if filled.Err? {
      assert false;
    }
    dispatched, end := DrainAndDispatch(frames, done);
  }

  lemma IncompleteIsShort(buf: Bytes)
    requires DecodeFrame(buf) == Ok(None)
    ensures |buf| < 4 + MAX_FRAME_SIZE
  {
  }

  /** The socket relay: the handshake's leftover first, then one drain after every read. */
  method RunSocketToStdout(leftover: Bytes, chunks: seq<Bytes>, done: Bytes -> bool)
    returns (dispatched: seq<Bytes>, end: RelayEnd)
    requires forall i :: 0 <= i < |chunks| ==> 0 < |chunks[i]| <= READ_BUF_SIZE
    ensures (dispatched, end) == Relayed(DrainFrames(leftover + Joined(chunks)), done)
  {
    var frames := new FrameReader.WithLeftover(leftover);
    ghost var all := Relayed(DrainFrames(leftover + Joined(chunks)), done);
    dispatched, end := DrainAndDispatch(frames, done);
    RelayContinues(leftover, Joined(chunks), done);
    DrainedRestIsIncomplete(leftover);
    if end != Detached {
      return;
    }
    var i := 0;
    ghost var unread := frames.Unread();
    while i < |chunks|
      invariant 0 <= i <= |chunks| && frames.Valid() && fresh(frames) && frames.Unread() == unread
      invariant DecodeFrame(unread) == Ok(None)
      invariant all.0 == dispatched + Relayed(DrainFrames(unread + Joined(chunks[i..])), done).0
      invariant all.1 == Relayed(DrainFrames(unread + Joined(chunks[i..])), done).1
    {
      JoinedFrom(unread, chunks, i);
      RelayContinues(unread + chunks[i], Joined(chunks[i + 1..]), done);
      var more;
      more, end := FillAndDispatch(frames, chunks[i], done);
      Assoc(dispatched, more, Relayed(DrainFrames(frames.Unread() + Joined(chunks[i + 1..])), done).0);
      dispatched := dispatched + more;
      if end != Detached {
        return;
      }
      unread := frames.Unread();
      i := i + 1;
    }
    assert chunks[i..] == [] && unread + [] == unread;
    assert dispatched + [] == dispatched;
    end := Detached;
  }

  lemma JoinedFrom(unread: Bytes, chunks: seq<Bytes>, i: nat)
    requires i < |chunks|
    ensures unread + Joined(chunks[i..]) == (unread + chunks[i]) + Joined(chunks[i + 1..])
  {
    assert chunks[i..][1..] == chunks[i + 1..];
  }

  datatype Handshake = Closed | Refused(error: ProtocolError) | Reply(payload: Bytes, leftover: Bytes, used: nat)

  lemma FirstOfStream(unread: Bytes, later: Bytes)
    ensures DecodeFrame(unread).Err? ==>
              DrainFrames(unread + later) == Drained([], unread + later, Some(DecodeFrame(unread).error))
    ensures DecodeFrame(unread).Ok? && DecodeFrame(unread).value.Some? ==>
              var (payload, consumed) := DecodeFrame(unread).value.value;
              DrainFrames(unread + later) == Cons(payload, DrainFrames(unread[consumed..] + later))
  {
    DecodeFrameMore(unread, later);
    if DecodeFrame(unread).Ok? && DecodeFrame(unread).value.Some? {
      var consumed := DecodeFrame(unread).value.value.1;
      assert (unread + later)[consumed..] == unread[consumed..] + later;
    }
  }

  /**
    * The handshake: read until one message is complete, and hand the remaining bytes over. The reply is
    * the stream's first payload, and leftover and unread chunks together hold exactly the others.
    */
  method AwaitReply(chunks: seq<Bytes>) returns (h: Handshake)
    requires forall i :: 0 <= i < |chunks| ==> 0 < |chunks[i]| <= READ_BUF_SIZE
    ensures h.Reply? ==>
              && h.used <= |chunks|
              && DrainFrames(Joined(chunks)) == Cons(h.payload, DrainFrames(h.leftover + Joined(chunks[h.used..])))
    ensures h.Closed? ==> DrainFrames(Joined(chunks)) == Drained([], Joined(chunks), None)
    ensures h.Refused? ==> DrainFrames(Joined(chunks)) == Drained([], Joined(chunks), Some(h.error))
  {
    var frames := new FrameReader();
    ghost var unread: Bytes := [];
    var i := 0;
    assert chunks[0..] == chunks;
    while i < |chunks|
      invariant 0 <= i <= |chunks| && frames.Valid() && fresh(frames) && frames.Unread() == unread
      invariant DecodeFrame(unread) == Ok(None)
      invariant unread + Joined(chunks[i..]) == Joined(chunks)
    {
      JoinedFrom(unread, chunks, i);
      IncompleteIsShort(unread);
      var filled := frames.FillFrom(chunks[i]);
      if filled.Err? {
        assert false;
      }
      unread := unread + chunks[i];
      i := i + 1;
      FirstOfStream(unread, Joined(chunks[i..]));
      var next := frames.DecodeNext();
      match next {
        case Err(e) =>
          return Refused(e);
        case Ok(Some(payload)) =>
          var leftover := frames.IntoLeftover();
          return Reply(payload, leftover, i);
        case Ok(None) =>
      }
    }
    assert chunks[i..] == [] && unread + [] == unread;
    h := Closed;
  }

  /** The whole client side of a conversation: handshake, hand-off of the leftover, relay. */
  method Converse(chunks: seq<Bytes>, done: Bytes -> bool)
    returns (h: Handshake, dispatched: seq<Bytes>, end: RelayEnd)
    requires forall i :: 0 <= i < |chunks| ==> 0 < |chunks[i]| <= READ_BUF_SIZE
    ensures h.Reply? <==> DrainFrames(Joined(chunks)).payloads != []
    ensures h.Reply? ==>
              var d := DrainFrames(Joined(chunks));
              && h.payload == d.payloads[0]
              && (dispatched, end) == Relayed(d.(payloads := d.payloads[1..]), done)
  {
    h := AwaitReply(chunks);
    dispatched, end := [], Detached;
    if h.Reply? {
      dispatched, end := RunSocketToStdout(h.leftover, chunks[h.used..], done);
      ghost var rest := DrainFrames(h.leftover + Joined(chunks[h.used..]));
      assert Cons(h.payload, rest).payloads[1..] == rest.payloads;
    }
  }

  /**
    * However the server's frames are chopped into reads, the client delivers exactly the payloads sent,
    * in order, up to the first terminal message.
    */
  method DeliverStream(chunks: seq<Bytes>, done: Bytes -> bool, ghost payloads: seq<Bytes>)
    returns (h: Handshake, dispatched: seq<Bytes>, end: RelayEnd)
    requires forall i :: 0 <= i < |chunks| ==> 0 < |chunks[i]| <= READ_BUF_SIZE
    requires payloads != [] && forall i :: 0 <= i < |payloads| ==> |payloads[i]| <= MAX_FRAME_SIZE
    requires Joined(chunks) == Stream(payloads)
    ensures h.Reply? && h.payload == payloads[0]
    ensures dispatched == UpToDone(payloads[1..], done)
    ensures end == if AnyDone(payloads[1..], done) then Done else Detached
    ensures !AnyDone(payloads[1..], done) ==> [h.payload] + dispatched == payloads
  {
    DrainStream(payloads);
    h, dispatched, end := Converse(chunks, done);
    if !AnyDone(payloads[1..], done) {
      NoneDone(payloads[1..], [], done);
    }
  }
}
