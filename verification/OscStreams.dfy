/** The two byte machines over the terminal's output: the OSC passthrough filter and the notification parser. */
module OscStreams {
  import opened Common

  const OSC_MAX_NOTIFICATION_BYTES := 4096
  const ESC: u8 := 0x1b
  const BEL: u8 := 0x07
  const OSC_OPEN: u8 := 0x5d
  const BACKSLASH: u8 := 0x5c

  datatype ParseState = Ground | Escape | Osc | OscEscape

  // ----- the filter, one byte at a time -----

  datatype FilterState = FilterState(state: ParseState, data: Bytes, sequence: Bytes)

  const FILTER_START := FilterState(Ground, [], [])

  /** `133;` or `633;`. The source tests the lossily decoded text, whose ASCII prefix is the bytes' own. */
  predicate ShouldStrip(data: Bytes) {
    |data| >= 4 && data[0] in {0x31, 0x36} && data[1..4] == [0x33, 0x33, 0x3b]
  }

  /** What leaves the filter, and what happens to it. */
  datatype Piece = Passed(bytes: Bytes) | Stripped(bytes: Bytes) | Dropped(bytes: Bytes)

  datatype FilterStep = FilterStep(next: FilterState, pieces: seq<Piece>)

  function Finish(f: FilterState, sequence: Bytes): FilterStep {
    FilterStep(FILTER_START, [if ShouldStrip(f.data) then Stripped(sequence) else Passed(sequence)])
  }

  function StepFilter(f: FilterState, byte: u8): FilterStep {
    var sequence := f.sequence + [byte];
    match f.state
    case Ground =>
      if byte == ESC then FilterStep(FilterState(Escape, f.data, [byte]), []) else FilterStep(f, [Passed([byte])])
    case Escape =>
      if byte == OSC_OPEN then FilterStep(FilterState(Osc, [], sequence), [])
      else FilterStep(FILTER_START, [Passed(sequence)])
    case Osc =>
      if byte == BEL then Finish(f, sequence)
      else if byte == ESC then FilterStep(FilterState(OscEscape, f.data, sequence), [])
      else if |f.data| >= OSC_MAX_NOTIFICATION_BYTES then FilterStep(FILTER_START, [Passed(f.sequence), Dropped([byte])])
      else FilterStep(FilterState(Osc, f.data + [byte], sequence), [])
    case OscEscape =>
      if byte == BACKSLASH then Finish(f, sequence)
      else if |f.data| + 2 >= OSC_MAX_NOTIFICATION_BYTES then FilterStep(FILTER_START, [Passed(sequence)])
      else FilterStep(FilterState(Osc, f.data + [ESC, byte], sequence), [])
  }

  function PassedBytes(pieces: seq<Piece>): Bytes {
    if pieces == [] then [] else (if pieces[0].Passed? then pieces[0].bytes else []) + PassedBytes(pieces[1..])
  }

  function AllBytes(pieces: seq<Piece>): Bytes {
    if pieces == [] then [] else pieces[0].bytes + AllBytes(pieces[1..])
  }

  class TerminalOscPassthroughFilter {
    var state: ParseState
    var data: Bytes
    var sequence: Bytes

    function State(): FilterState
      reads this
    {
      FilterState(state, data, sequence)
    }

    constructor ()
      ensures State() == FILTER_START
    {
      state, data, sequence := Ground, [], [];
    }

    method Push(bytes: Bytes) returns (output: Bytes)
      modifies this
      ensures State() == FilterFrom(old(State()), bytes).next
      ensures output == PassedBytes(FilterFrom(old(State()), bytes).pieces)
    {
      output := [];
      var i := 0;
      while i < |bytes|
        invariant 0 <= i <= |bytes|
        invariant FilterStep(State(), FilterFrom(old(State()), bytes[..i]).pieces) == FilterFrom(old(State()), bytes[..i])
        invariant output == PassedBytes(FilterFrom(old(State()), bytes[..i]).pieces)
      {
        assert bytes[..i + 1] == bytes[..i] + [bytes[i]];
        FilterSnoc(old(State()), bytes[..i], bytes[i]);
        output := PushByte(bytes[i], output);
        i := i + 1;
      }
      assert bytes[..i] == bytes;
    }

    method PushByte(byte: u8, before: Bytes) returns (output: Bytes)
      modifies this
      ensures State() == StepFilter(old(State()), byte).next
      ensures output == before + PassedBytes(StepFilter(old(State()), byte).pieces)
    {
      output := before;
      PassedShort(StepFilter(State(), byte).pieces);
      match state {
        case Ground =>
          if byte == ESC {
            sequence := [];
            sequence := sequence + [byte];
            state := Escape;
          } else {
            output := output + [byte];
          }
        case Escape =>
          sequence := sequence + [byte];
          if byte == OSC_OPEN {
            data := [];
            state := Osc;
          } else {
            output := output + sequence;
            Reset();
          }
        case Osc =>
          if byte == BEL {
            sequence := sequence + [byte];
            output := FinishSequence(output);
          } else if byte == ESC {
            sequence := sequence + [byte];
            state := OscEscape;
          } else if |data| >= OSC_MAX_NOTIFICATION_BYTES {
            output := output + sequence;
            Reset();
          } else {
            sequence := sequence + [byte];
            data := data + [byte];
          }
        case OscEscape =>
          sequence := sequence + [byte];
          if byte == BACKSLASH {
            output := FinishSequence(output);
          } else if |data| + 2 >= OSC_MAX_NOTIFICATION_BYTES {
            output := output + sequence;
            Reset();
          } else {
            data := data + [ESC];
            data := data + [byte];
            state := Osc;
          }
      }
    }

    method FinishSequence(before: Bytes) returns (output: Bytes)
      modifies this
      ensures State() == FILTER_START
      ensures output == before + if ShouldStrip(old(data)) then [] else old(sequence)
    {
      output := before;
      if !ShouldStrip(data) {
        output := output + sequence;
      }
      Reset();
    }

    method Reset()
      modifies this
      ensures State() == FILTER_START
    {
      state, data, sequence := Ground, [], [];
    }
  }

  lemma PassedShort(pieces: seq<Piece>)
    ensures |pieces| == 1 ==> PassedBytes(pieces) == if pieces[0].Passed? then pieces[0].bytes else []
    ensures |pieces| == 2 && pieces[0].Passed? && !pieces[1].Passed? ==> PassedBytes(pieces) == pieces[0].bytes
  {
    if |pieces| == 2 {
      assert pieces[1..] == [pieces[1]] && pieces[1..][1..] == [];
    }
  }

  // ----- whole streams, however chopped -----

  function FilterFrom(f: FilterState, bytes: Bytes): FilterStep
    decreases |bytes|
  {
    if bytes == [] then FilterStep(f, [])
    else
      var first := StepFilter(f, bytes[0]);
      var rest := FilterFrom(first.next, bytes[1..]);
      FilterStep(rest.next, first.pieces + rest.pieces)
  }

  lemma {:induction false} PassedConcat(a: seq<Piece>, b: seq<Piece>)
    ensures PassedBytes(a + b) == PassedBytes(a) + PassedBytes(b)
  {
    if a == [] {
      assert a + b == b;
    } else {
      TailOfConcat(a, b);
      PassedConcat(a[1..], b);
      Assoc(if a[0].Passed? then a[0].bytes else [], PassedBytes(a[1..]), PassedBytes(b));
    }
  }

  lemma {:induction false} AllConcat(a: seq<Piece>, b: seq<Piece>)
    ensures AllBytes(a + b) == AllBytes(a) + AllBytes(b)
  {
    if a == [] {
      assert a + b == b;
    } else {
      TailOfConcat(a, b);
      AllConcat(a[1..], b);
      Assoc(a[0].bytes, AllBytes(a[1..]), AllBytes(b));
    }
  }

  /** Chopping a stream into pushes changes nothing. */
  lemma {:induction false} FilterIgnoresChopping(f: FilterState, a: Bytes, b: Bytes)
    ensures var first := FilterFrom(f, a);
            var second := FilterFrom(first.next, b);
            FilterFrom(f, a + b) == FilterStep(second.next, first.pieces + second.pieces)
    decreases |a|
  {
    if a == [] {
      assert a + b == b;
    } else {
      var first := StepFilter(f, a[0]);
      TailOfConcat(a, b);
      FilterIgnoresChopping(first.next, a[1..], b);
      var rest := FilterFrom(first.next, a[1..]);
      Assoc(first.pieces, rest.pieces, FilterFrom(rest.next, b).pieces);
    }
  }

  lemma FilterSnoc(f: FilterState, bytes: Bytes, byte: u8)
    ensures var before := FilterFrom(f, bytes);
            var last := StepFilter(before.next, byte);
            && FilterFrom(f, bytes + [byte]) == FilterStep(last.next, before.pieces + last.pieces)
            && PassedBytes(before.pieces + last.pieces) == PassedBytes(before.pieces) + PassedBytes(last.pieces)
  {
    var before := FilterFrom(f, bytes);
    var last := StepFilter(before.next, byte);
    FilterIgnoresChopping(f, bytes, [byte]);
    assert FilterFrom(before.next, [byte]) == FilterStep(last.next, last.pieces + []) by { assert [byte][1..] == []; }
    assert last.pieces + [] == last.pieces;
    PassedConcat(before.pieces, last.pieces);
  }

  /** What the held sequence looks like in each state. */
  ghost predicate Held(f: FilterState) {
    && |f.data| <= OSC_MAX_NOTIFICATION_BYTES
    && match f.state
       case Ground => f.data == [] && f.sequence == []
       case Escape => f.data == [] && f.sequence == [ESC]
       case Osc => f.sequence == [ESC, OSC_OPEN] + f.data
       case OscEscape => f.sequence == [ESC, OSC_OPEN] + f.data + [ESC]
  }

  /** A complete OSC string: opened by ESC ], closed by BEL or ST (sections 8.3.89 and 8.3.143 of ECMA-48). */
  predicate IsOsc(bytes: Bytes, data: Bytes) {
    bytes == [ESC, OSC_OPEN] + data + [BEL] || bytes == [ESC, OSC_OPEN] + data + [ESC, BACKSLASH]
  }

  /** Only complete shell-integration sequences are stripped, and only single bytes are dropped. */
  ghost predicate PieceAllowed(piece: Piece) {
    match piece
    case Passed(_) => true
    case Stripped(bytes) => exists data :: IsOsc(bytes, data) && ShouldStrip(data)
    case Dropped(bytes) => |bytes| == 1
  }

  /** The one way to lose a byte: a plain byte when the OSC payload has reached the cap. */
  predicate Trips(f: FilterState, byte: u8) {
    f.state == Osc && |f.data| >= OSC_MAX_NOTIFICATION_BYTES && byte != BEL && byte != ESC
  }

  lemma AllShort(pieces: seq<Piece>)
    ensures |pieces| == 1 ==> AllBytes(pieces) == pieces[0].bytes
    ensures |pieces| == 2 ==> AllBytes(pieces) == pieces[0].bytes + pieces[1].bytes
  {
    if |pieces| == 2 {
      assert pieces[1..] == [pieces[1]] && pieces[1..][1..] == [];
    }
  }

  lemma StepAccounts(f: FilterState, byte: u8)
    requires Held(f)
    ensures var step := StepFilter(f, byte);
            && Held(step.next)
            && AllBytes(step.pieces) + step.next.sequence == f.sequence + [byte]
            && (forall i :: 0 <= i < |step.pieces| ==> PieceAllowed(step.pieces[i]))
            && ((exists i :: 0 <= i < |step.pieces| && step.pieces[i].Dropped?) <==> Trips(f, byte))
  {
    var step := StepFilter(f, byte);
    AllShort(step.pieces);
    if f.state == Osc && byte == BEL {
      assert IsOsc(f.sequence + [byte], f.data);
    } else if f.state == OscEscape && byte == BACKSLASH {
      assert f.sequence + [byte] == [ESC, OSC_OPEN] + f.data + [ESC, BACKSLASH];
      assert IsOsc(f.sequence + [byte], f.data);
    }
  }

  /** No byte of the stream trips the cap. */
  predicate NeverTrips(f: FilterState, bytes: Bytes)
    decreases |bytes|
  {
    bytes == [] || (!Trips(f, bytes[0]) && NeverTrips(StepFilter(f, bytes[0]).next, bytes[1..]))
  }

  /**
    * Conservation: what passed, what was stripped and what was dropped, in order, followed by what is
    * held, is what came in; and a byte is dropped if and only if one trips the cap.
    */
  lemma {:induction false} FilterAccounts(f: FilterState, bytes: Bytes)
    requires Held(f)
    ensures var run := FilterFrom(f, bytes);
            && Held(run.next)
            && AllBytes(run.pieces) + run.next.sequence == f.sequence + bytes
            && (forall i :: 0 <= i < |run.pieces| ==> PieceAllowed(run.pieces[i]))
            && ((forall i :: 0 <= i < |run.pieces| ==> !run.pieces[i].Dropped?) <==> NeverTrips(f, bytes))
    decreases |bytes|
  {
    if bytes == [] {
      assert [] + f.sequence == f.sequence + bytes;
    } else {
      var first := StepFilter(f, bytes[0]);
      var rest := FilterFrom(first.next, bytes[1..]);
      StepAccounts(f, bytes[0]);
      FilterAccounts(first.next, bytes[1..]);
      AccountsCompose(f.sequence, bytes, first, rest);
      AllowedConcat(first.pieces, rest.pieces);
      DroppedConcat(first.pieces, rest.pieces);
    }
  }

  lemma AllowedConcat(a: seq<Piece>, b: seq<Piece>)
    requires forall i :: 0 <= i < |a| ==> PieceAllowed(a[i])
    requires forall i :: 0 <= i < |b| ==> PieceAllowed(b[i])
    ensures forall i :: 0 <= i < |a + b| ==> PieceAllowed((a + b)[i])
  {
  }

  lemma DroppedConcat(a: seq<Piece>, b: seq<Piece>)
    ensures (forall i :: 0 <= i < |a + b| ==> !(a + b)[i].Dropped?) <==>
            (forall i :: 0 <= i < |a| ==> !a[i].Dropped?) && (forall i :: 0 <= i < |b| ==> !b[i].Dropped?)
  {
    assert forall i :: 0 <= i < |a| ==> (a + b)[i] == a[i];
    assert forall i :: 0 <= i < |b| ==> (a + b)[|a| + i] == b[i];
  }

  lemma AccountsCompose(held: Bytes, bytes: Bytes, first: FilterStep, rest: FilterStep)
    requires bytes != []
    requires AllBytes(first.pieces) + first.next.sequence == held + [bytes[0]]
    requires AllBytes(rest.pieces) + rest.next.sequence == first.next.sequence + bytes[1..]
    ensures AllBytes(first.pieces + rest.pieces) + rest.next.sequence == held + bytes
  {
    AllConcat(first.pieces, rest.pieces);
    Assoc(AllBytes(first.pieces), AllBytes(rest.pieces), rest.next.sequence);
    Assoc(AllBytes(first.pieces), first.next.sequence, bytes[1..]);
    Assoc(held, [bytes[0]], bytes[1..]);
    assert [bytes[0]] + bytes[1..] == bytes;
  }

  /** A sequence that a byte completes, with its payload. */
  function ClosedBy(f: FilterState, byte: u8): seq<(Bytes, Bytes)> {
    if Completed(f.state, f.data, byte) == [] then [] else [(f.data, f.sequence + [byte])]
  }

  /** All sequences that a stream completes, in order. */
  function Closed(f: FilterState, bytes: Bytes): seq<(Bytes, Bytes)>
    decreases |bytes|
  {
    if bytes == [] then [] else ClosedBy(f, bytes[0]) + Closed(StepFilter(f, bytes[0]).next, bytes[1..])
  }

  /** Those of them that are to be stripped. */
  function ToStrip(closed: seq<(Bytes, Bytes)>): seq<Bytes> {
    if closed == [] then [] else (if ShouldStrip(closed[0].0) then [closed[0].1] else []) + ToStrip(closed[1..])
  }

  function StrippedOf(pieces: seq<Piece>): seq<Bytes> {
    if pieces == [] then [] else (if pieces[0].Stripped? then [pieces[0].bytes] else []) + StrippedOf(pieces[1..])
  }

  lemma {:induction false} StrippedConcat(a: seq<Piece>, b: seq<Piece>)
    ensures StrippedOf(a + b) == StrippedOf(a) + StrippedOf(b)
  {
    if a == [] {
      assert a + b == b;
    } else {
      TailOfConcat(a, b);
      StrippedConcat(a[1..], b);
      Assoc(if a[0].Stripped? then [a[0].bytes] else [], StrippedOf(a[1..]), StrippedOf(b));
    }
  }

  lemma {:induction false} NoneStripped(pieces: seq<Piece>)
    requires forall i :: 0 <= i < |pieces| ==> !pieces[i].Stripped?
    ensures StrippedOf(pieces) == []
  {
    if pieces != [] { NoneStripped(pieces[1..]); }
  }

  lemma StepStrips(f: FilterState, byte: u8, later: seq<(Bytes, Bytes)>)
    requires Held(f)
    ensures ToStrip(ClosedBy(f, byte) + later) == StrippedOf(StepFilter(f, byte).pieces) + ToStrip(later)
    ensures forall c :: c in ClosedBy(f, byte) ==> IsOsc(c.1, c.0)
  {
    var pieces := StepFilter(f, byte).pieces;
    var closed := ClosedBy(f, byte);
    if closed == [] {
      NoneStripped(pieces);
      assert closed + later == later && [] + ToStrip(later) == ToStrip(later);
    } else {
      assert (closed + later)[1..] == later && pieces[1..] == [];
      assert f.sequence + [byte] == [ESC, OSC_OPEN] + f.data + if byte == BEL then [BEL] else [ESC, BACKSLASH];
    }
  }

  /** What is stripped is exactly the completed sequences with a shell-integration payload, in order. */
  lemma {:induction false} StripsExactly(f: FilterState, bytes: Bytes)
    requires Held(f)
    ensures StrippedOf(FilterFrom(f, bytes).pieces) == ToStrip(Closed(f, bytes))
    ensures forall c :: c in Closed(f, bytes) ==> IsOsc(c.1, c.0)
    decreases |bytes|
  {
    if bytes != [] {
      var first := StepFilter(f, bytes[0]);
      StepAccounts(f, bytes[0]);
      StripsExactly(first.next, bytes[1..]);
      StepStrips(f, bytes[0], Closed(first.next, bytes[1..]));
      StrippedConcat(first.pieces, FilterFrom(first.next, bytes[1..]).pieces);
    }
  }

  function Fill(n: nat): Bytes {
    seq(n, _ => 0x61)
  }

  lemma {:induction false} FillHolds(n: nat)
    requires n <= OSC_MAX_NOTIFICATION_BYTES
    ensures FilterFrom(FILTER_START, [ESC, OSC_OPEN] + Fill(n)).next == FilterState(Osc, Fill(n), [ESC, OSC_OPEN] + Fill(n))
  {
    var start := [ESC, OSC_OPEN];
    if n == 0 {
      assert start + Fill(0) == [ESC] + [OSC_OPEN];
      assert [] + [ESC] == [ESC];
      FilterSnoc(FILTER_START, [], ESC);
      FilterSnoc(FILTER_START, [ESC], OSC_OPEN);
    } else {
      FillHolds(n - 1);
      assert Fill(n) == Fill(n - 1) + [0x61];
      Assoc(start, Fill(n - 1), [0x61]);
      FilterSnoc(FILTER_START, start + Fill(n - 1), 0x61);
    }
  }

  /** An unterminated payload one byte over the cap: its last byte is lost. */
  lemma LongPayloadLosesAByte()
    ensures !NeverTrips(FILTER_START, [ESC, OSC_OPEN] + Fill(OSC_MAX_NOTIFICATION_BYTES + 1))
    ensures PassedBytes(FilterFrom(FILTER_START, [ESC, OSC_OPEN] + Fill(OSC_MAX_NOTIFICATION_BYTES + 1)).pieces) ==
            [ESC, OSC_OPEN] + Fill(OSC_MAX_NOTIFICATION_BYTES)
  {
    var full := [ESC, OSC_OPEN] + Fill(OSC_MAX_NOTIFICATION_BYTES);
    FillHolds(OSC_MAX_NOTIFICATION_BYTES);
    assert Fill(OSC_MAX_NOTIFICATION_BYTES + 1) == Fill(OSC_MAX_NOTIFICATION_BYTES) + [0x61];
    Assoc([ESC, OSC_OPEN], Fill(OSC_MAX_NOTIFICATION_BYTES), [0x61]);
    FilterSnoc(FILTER_START, full, 0x61);
    var before := FilterFrom(FILTER_START, full);
    var last := StepFilter(before.next, 0x61);
    var pieces := before.pieces + last.pieces;
    assert pieces[|before.pieces| + 1] == Dropped([0x61]);
    FilterAccounts(FILTER_START, full + [0x61]);
    FilterAccounts(FILTER_START, full);
    PassedShort(last.pieces);
    NothingLeft(before, full);
  }

  lemma NothingLeft(run: FilterStep, bytes: Bytes)
    requires AllBytes(run.pieces) + run.next.sequence == bytes && run.next.sequence == bytes
    ensures AllBytes(run.pieces) == [] && PassedBytes(run.pieces) == []
  {
    assert |AllBytes(run.pieces)| == 0;
    PassedWithinAll(run.pieces);
  }

  lemma {:induction false} PassedWithinAll(pieces: seq<Piece>)
    ensures |PassedBytes(pieces)| <= |AllBytes(pieces)|
  {
    if pieces != [] { PassedWithinAll(pieces[1..]); }
  }

  // ----- the notification parser -----

  datatype ParserState = ParserState(state: ParseState, data: Bytes)

  const PARSER_START := ParserState(Ground, [])

  function PushOscByte(p: ParserState, byte: u8): ParserState {
    if |p.data| >= OSC_MAX_NOTIFICATION_BYTES then PARSER_START else p.(data := p.data + [byte])
  }

  function StepParser(p: ParserState, byte: u8): ParserState {
    match p.state
    case Ground => if byte == ESC then p.(state := Escape) else p
    case Escape =>
      if byte == OSC_OPEN then ParserState(Osc, [])
      else if byte != ESC then p.(state := Ground)
      else p
    case Osc =>
      if byte == BEL then PARSER_START
      else if byte == ESC then p.(state := OscEscape)
      else PushOscByte(p, byte)
    case OscEscape =>
      if byte == BACKSLASH then PARSER_START
      else
        var q := PushOscByte(p, ESC);
        if byte == ESC then q.(state := OscEscape)
        else PushOscByte(q, byte).(state := Osc)
  }

  /** The payload that `byte` completes; both machines complete a payload in the same situations. */
  function Completed(state: ParseState, data: Bytes, byte: u8): seq<Bytes> {
    if (state == Osc && byte == BEL) || (state == OscEscape && byte == BACKSLASH) then [data] else []
  }

  class TerminalOscNotificationParser {
    var state: ParseState
    var data: Bytes

    function State(): ParserState
      reads this
    {
      ParserState(state, data)
    }

    constructor ()
      ensures State() == PARSER_START
    {
      state, data := Ground, [];
    }

    /** The payloads completed by `bytes`; turning a payload into a notification's text is not modelled. */
    method Push(bytes: Bytes) returns (payloads: seq<Bytes>)
      modifies this
      ensures State() == ParserAfter(old(State()), bytes)
      ensures payloads == ParserPayloads(old(State()), bytes)
    {
      payloads := [];
      var i := 0;
      while i < |bytes|
        invariant 0 <= i <= |bytes|
        invariant State() == ParserAfter(old(State()), bytes[..i])
        invariant payloads == ParserPayloads(old(State()), bytes[..i])
      {
        assert bytes[..i + 1][..i] == bytes[..i];
        var payload := PushByte(bytes[i]);
        if payload.Some? {
          payloads := payloads + [payload.value];
        }
        i := i + 1;
      }
      assert bytes[..i] == bytes;
    }

    method PushByte(byte: u8) returns (payload: Option<Bytes>)
      modifies this
      ensures State() == StepParser(old(State()), byte)
      ensures Completed(old(state), old(data), byte) == if payload.Some? then [payload.value] else []
    {
      match state {
        case Ground =>
          if byte == ESC {
            state := Escape;
          }
        case Escape =>
          if byte == OSC_OPEN {
            data := [];
            state := Osc;
          } else if byte != ESC {
            state := Ground;
          }
        case Osc =>
          if byte == BEL {
            payload := FinishSequence();
            return;
          } else if byte == ESC {
            state := OscEscape;
          } else {
            PushData(byte);
          }
        case OscEscape =>
          if byte == BACKSLASH {
            payload := FinishSequence();
            return;
          }
          PushData(ESC);
          if byte == ESC {
            state := OscEscape;
          } else {
            PushData(byte);
            state := Osc;
          }
      }
      payload := None;
    }

    method PushData(byte: u8)
      modifies this
      ensures State() == PushOscByte(old(State()), byte)
    {
      if |data| >= OSC_MAX_NOTIFICATION_BYTES {
        state, data := Ground, [];
        return;
      }
      data := data + [byte];
    }

    method FinishSequence() returns (payload: Option<Bytes>)
      modifies this
      ensures State() == PARSER_START && payload == Some(old(data))
    {
      payload := Some(data);
      state, data := Ground, [];
    }
  }

  function ParserAfter(p: ParserState, bytes: Bytes): ParserState {
    if bytes == [] then p
    else StepParser(ParserAfter(p, bytes[..|bytes| - 1]), bytes[|bytes| - 1])
  }

  function ParserPayloads(p: ParserState, bytes: Bytes): seq<Bytes> {
    if bytes == [] then []
    else
      var init := bytes[..|bytes| - 1];
      var before := ParserAfter(p, init);
      ParserPayloads(p, init) + Completed(before.state, before.data, bytes[|bytes| - 1])
  }

  /** Chopping a stream into pushes changes nothing for the parser either. */
  lemma {:induction false} ParserIgnoresChopping(p: ParserState, a: Bytes, b: Bytes)
    ensures ParserAfter(p, a + b) == ParserAfter(ParserAfter(p, a), b)
    ensures ParserPayloads(p, a + b) == ParserPayloads(p, a) + ParserPayloads(ParserAfter(p, a), b)
    decreases |b|
  {
    if b == [] {
      assert a + b == a;
      assert ParserPayloads(p, a) + [] == ParserPayloads(p, a);
    } else {
      var init, last := b[..|b| - 1], b[|b| - 1];
      assert (a + b)[..|a + b| - 1] == a + init;
      ParserIgnoresChopping(p, a, init);
      var middle := ParserAfter(p, a);
      var at := ParserAfter(middle, init);
      Assoc(ParserPayloads(p, a), ParserPayloads(middle, init), Completed(at.state, at.data, last));
    }
  }

  // ----- the two machines on one stream -----

  function FilterAfter(bytes: Bytes): FilterState {
    FilterFrom(FILTER_START, bytes).next
  }

  lemma FilterAfterSnoc(bytes: Bytes)
    requires bytes != []
    ensures FilterAfter(bytes) == StepFilter(FilterAfter(bytes[..|bytes| - 1]), bytes[|bytes| - 1]).next
    ensures Held(FilterAfter(bytes[..|bytes| - 1]))
  {
    var init := bytes[..|bytes| - 1];
    FilterSnoc(FILTER_START, init, bytes[|bytes| - 1]);
    assert init + [bytes[|bytes| - 1]] == bytes;
    FilterAccounts(FILTER_START, init);
  }

  function FilterPayloads(bytes: Bytes): seq<Bytes> {
    if bytes == [] then []
    else
      var init := bytes[..|bytes| - 1];
      var before := FilterAfter(init);
      FilterPayloads(init) + Completed(before.state, before.data, bytes[|bytes| - 1])
  }

  predicate Agree(f: FilterState, p: ParserState) {
    f.state == p.state && f.data == p.data
  }

  /** The bytes on which the machines part: a doubled ESC, or a bare ESC in a payload two short of the cap. */
  predicate Diverges(f: FilterState, byte: u8) {
    || (byte == ESC && (f.state == Escape || f.state == OscEscape))
    || (f.state == OscEscape && byte != BACKSLASH && |f.data| + 2 >= OSC_MAX_NOTIFICATION_BYTES)
  }

  lemma AgreeStep(f: FilterState, p: ParserState, byte: u8)
    requires Held(f) && Agree(f, p)
    ensures Agree(StepFilter(f, byte).next, StepParser(p, byte)) <==> !Diverges(f, byte)
  {
  }

  /** The machines are in the same state with the same payload after every prefix of the stream. */
  ghost predicate AgreeThroughout(bytes: Bytes) {
    forall k :: 0 <= k <= |bytes| ==> AgreeAfter(bytes[..k])
  }

  predicate AgreeAfter(bytes: Bytes) {
    Agree(FilterAfter(bytes), ParserAfter(PARSER_START, bytes))
  }

  ghost predicate NeverDiverges(bytes: Bytes) {
    forall k :: 0 <= k < |bytes| ==> !Diverges(FilterAfter(bytes[..k]), bytes[k])
  }

  lemma AgreeThroughoutSnoc(bytes: Bytes)
    requires bytes != []
    ensures AgreeThroughout(bytes) <==> AgreeThroughout(bytes[..|bytes| - 1]) && AgreeAfter(bytes)
  {
    var n := |bytes| - 1;
    assert bytes[..n + 1] == bytes;
    assert forall k :: 0 <= k <= n ==> bytes[..n][..k] == bytes[..k];
    if AgreeThroughout(bytes[..n]) && AgreeAfter(bytes) {
      forall k | 0 <= k <= |bytes| ensures AgreeAfter(bytes[..k]) {
        if k <= n { assert AgreeAfter(bytes[..n][..k]); }
      }
    }
    if AgreeThroughout(bytes) {
      forall k | 0 <= k <= n ensures AgreeAfter(bytes[..n][..k]) {
        assert AgreeAfter(bytes[..k]);
      }
      assert AgreeAfter(bytes[..n + 1]);
    }
  }

  lemma NeverDivergesSnoc(bytes: Bytes)
    requires bytes != []
    ensures NeverDiverges(bytes) <==>
            NeverDiverges(bytes[..|bytes| - 1]) && !Diverges(FilterAfter(bytes[..|bytes| - 1]), bytes[|bytes| - 1])
  {
    var init := bytes[..|bytes| - 1];
    assert forall k :: 0 <= k < |init| ==> init[..k] == bytes[..k] && init[k] == bytes[k];
  }

  /** They agree throughout if and only if no byte of the stream makes them part. */
  lemma {:induction false} AgreePrefixes(bytes: Bytes)
    ensures AgreeThroughout(bytes) <==> NeverDiverges(bytes)
    decreases |bytes|
  {
    if bytes == [] {
      assert forall k :: 0 <= k <= |bytes| ==> bytes[..k] == [];
    } else {
      var init := bytes[..|bytes| - 1];
      AgreePrefixes(init);
      AgreeThroughoutSnoc(bytes);
      NeverDivergesSnoc(bytes);
      FilterAfterSnoc(bytes);
      if AgreeThroughout(init) {
        assert init[..|init|] == init;
        AgreeStep(FilterAfter(init), ParserAfter(PARSER_START, init), bytes[|bytes| - 1]);
      }
    }
  }

  /** On such streams both machines recognise exactly the same OSC payloads. */
  lemma {:induction false} AgreePayloads(bytes: Bytes)
    requires NeverDiverges(bytes)
    ensures FilterPayloads(bytes) == ParserPayloads(PARSER_START, bytes)
    decreases |bytes|
  {
    if bytes != [] {
      var n := |bytes| - 1;
      var init := bytes[..n];
      assert forall k :: 0 <= k <= n ==> init[..k] == bytes[..k];
      AgreePrefixes(init);
      AgreePayloads(init);
      assert init[..n] == init && AgreeAfter(init[..n]);
    }
  }

  predicate NoDoubledEscape(bytes: Bytes) {
    forall k :: 0 < k < |bytes| ==> !(bytes[k - 1] == ESC && bytes[k] == ESC)
  }

  ghost predicate ShortPayloads(bytes: Bytes) {
    forall k :: 0 <= k <= |bytes| ==> |FilterAfter(bytes[..k]).data| + 2 < OSC_MAX_NOTIFICATION_BYTES
  }

  lemma EscapeStatesFollowEscape(bytes: Bytes)
    ensures FilterAfter(bytes).state in {Escape, OscEscape} ==> bytes != [] && bytes[|bytes| - 1] == ESC
  {
    if bytes != [] {
      FilterAfterSnoc(bytes);
    }
  }

  /** Without doubled escapes, and with payloads clear of the cap, the machines never part. */
  lemma PlainStreamsAgree(bytes: Bytes)
    requires NoDoubledEscape(bytes) && ShortPayloads(bytes)
    ensures AgreeThroughout(bytes)
    ensures FilterPayloads(bytes) == ParserPayloads(PARSER_START, bytes)
  {
    forall k | 0 <= k < |bytes| ensures !Diverges(FilterAfter(bytes[..k]), bytes[k]) {
      EscapeStatesFollowEscape(bytes[..k]);
      assert |FilterAfter(bytes[..k]).data| + 2 < OSC_MAX_NOTIFICATION_BYTES;
      if k > 0 { assert bytes[..k][k - 1] == bytes[k - 1]; }
    }
    AgreePrefixes(bytes);
    AgreePayloads(bytes);
  }

  /** The shortest stream on which they part. */
  lemma DoubledEscapeParts()
    ensures !AgreeThroughout([ESC, ESC])
  {
    var bytes: Bytes := [ESC, ESC];
    AgreePrefixes(bytes);
    assert bytes[..1] == [] + [ESC];
    FilterSnoc(FILTER_START, [], ESC);
    assert FilterAfter(bytes[..1]).state == Escape;
    assert Diverges(FilterAfter(bytes[..1]), bytes[1]);
  }

  // ----- which byte strings the machines take for an OSC sequence -----

  /** In a payload every ESC is followed by a byte that is neither ESC nor `\`, and every BEL follows an ESC. */
  predicate IsPayload(data: Bytes) {
    && (forall i :: 0 <= i < |data| && data[i] == ESC ==> i + 1 < |data| && data[i + 1] != ESC && data[i + 1] != BACKSLASH)
    && (forall i :: 0 <= i < |data| && data[i] == BEL ==> i > 0 && data[i - 1] == ESC)
  }

  predicate EscapedAt(data: Bytes, k: nat) {
    0 < k <= |data| && data[k - 1] == ESC
  }

  /** Both machines part-way through a payload. */
  function Within(data: Bytes, k: nat): FilterState
    requires k <= |data|
  {
    if EscapedAt(data, k) then FilterState(OscEscape, data[..k - 1], [ESC, OSC_OPEN] + data[..k])
    else FilterState(Osc, data[..k], [ESC, OSC_OPEN] + data[..k])
  }

  lemma WithinStep(data: Bytes, k: nat)
    requires IsPayload(data) && |data| < OSC_MAX_NOTIFICATION_BYTES && k < |data|
    ensures var at := Within(data, k);
            && StepFilter(at, data[k]) == FilterStep(Within(data, k + 1), [])
            && StepParser(ParserState(at.state, at.data), data[k]) ==
               ParserState(Within(data, k + 1).state, Within(data, k + 1).data)
            && Completed(at.state, at.data, data[k]) == []
  {
    assert data[..k + 1] == data[..k] + [data[k]];
    Assoc([ESC, OSC_OPEN], data[..k], [data[k]]);
    if EscapedAt(data, k) {
      assert data[k - 1] == ESC && data[k] != BACKSLASH && data[k] != ESC;
      assert data[..k] == data[..k - 1] + [ESC];
      Assoc(data[..k - 1], [ESC], [data[k]]);
      assert [ESC] + [data[k]] == [ESC, data[k]];
    }
  }

  /** The machines are at `f` after `bytes`, with nothing let through and no payload completed on the way. */
  predicate Reached(bytes: Bytes, f: FilterState) {
    && FilterFrom(FILTER_START, bytes) == FilterStep(f, [])
    && ParserAfter(PARSER_START, bytes) == ParserState(f.state, f.data)
    && ParserPayloads(PARSER_START, bytes) == []
  }

  lemma ParserSnoc(p: ParserState, bytes: Bytes, byte: u8)
    ensures var before := ParserAfter(p, bytes);
            && ParserAfter(p, bytes + [byte]) == StepParser(before, byte)
            && ParserPayloads(p, bytes + [byte]) == ParserPayloads(p, bytes) + Completed(before.state, before.data, byte)
  {
    assert (bytes + [byte])[..|bytes|] == bytes;
  }

  lemma ReachedSnoc(bytes: Bytes, f: FilterState, byte: u8, g: FilterState)
    requires Reached(bytes, f) && StepFilter(f, byte) == FilterStep(g, [])
    requires StepParser(ParserState(f.state, f.data), byte) == ParserState(g.state, g.data)
    requires Completed(f.state, f.data, byte) == []
    ensures Reached(bytes + [byte], g)
  {
    FilterSnoc(FILTER_START, bytes, byte);
    ParserSnoc(PARSER_START, bytes, byte);
  }

  lemma {:induction false} WithinReached(data: Bytes, k: nat)
    requires IsPayload(data) && |data| < OSC_MAX_NOTIFICATION_BYTES && k <= |data|
    ensures Reached([ESC, OSC_OPEN] + data[..k], Within(data, k))
  {
    if k == 0 {
      OpeningReached();
      assert data[..0] == [] && [ESC, OSC_OPEN] + [] == [ESC, OSC_OPEN];
    } else {
      var before, byte := [ESC, OSC_OPEN] + data[..k - 1], data[k - 1];
      assert Reached(before + [byte], Within(data, k)) by {
        WithinReached(data, k - 1);
        WithinStep(data, k - 1);
        ReachedSnoc(before, Within(data, k - 1), byte, Within(data, k));
      }
      assert [ESC, OSC_OPEN] + data[..k] == before + [byte] by {
        assert data[..k] == data[..k - 1] + [byte];
        Assoc([ESC, OSC_OPEN], data[..k - 1], [byte]);
      }
    }
  }

  lemma OpeningReached()
    ensures Reached([ESC, OSC_OPEN], FilterState(Osc, [], [ESC, OSC_OPEN]))
  {
    assert [] + [ESC] == [ESC] && [ESC] + [OSC_OPEN] == [ESC, OSC_OPEN];
    ReachedSnoc([], FILTER_START, ESC, FilterState(Escape, [], [ESC]));
    ReachedSnoc([ESC], FilterState(Escape, [], [ESC]), OSC_OPEN, FilterState(Osc, [], [ESC, OSC_OPEN]));
  }

  predicate StartsWith(data: Bytes, prefix: Bytes) {
    |prefix| <= |data| && data[..|prefix|] == prefix
  }

  /** The payload starts with `133;` or `633;`. */
  predicate IsShellIntegration(data: Bytes) {
    StartsWith(data, [0x31, 0x33, 0x33, 0x3b]) || StartsWith(data, [0x36, 0x33, 0x33, 0x3b])
  }

  lemma StripsShellIntegration(data: Bytes)
    ensures ShouldStrip(data) <==> IsShellIntegration(data)
  {
    if |data| >= 4 {
      assert data[..4] == [data[0]] + data[1..4];
      assert data[1..4] == data[..4][1..];
      assert [0x31] + [0x33, 0x33, 0x3b] == [0x31, 0x33, 0x33, 0x3b];
      assert [0x36] + [0x33, 0x33, 0x3b] == [0x36, 0x33, 0x33, 0x3b];
    }
  }

  /**
    * A whole OSC sequence below the cap, ended either way: the parser completes its payload and nothing else;
    * the filter lets it through as it is, or nothing of it if the payload is shell integration.
    */
  lemma OscIsRecognised(data: Bytes, bytes: Bytes)
    requires IsPayload(data) && |data| < 4096 && IsOsc(bytes, data)
    ensures ParserPayloads(PARSER_START, bytes) == [data] && ParserAfter(PARSER_START, bytes) == PARSER_START
    ensures var run := FilterFrom(FILTER_START, bytes);
            run.next == FILTER_START && PassedBytes(run.pieces) == if IsShellIntegration(data) then [] else bytes
  {
    var front := [ESC, OSC_OPEN] + data;
    WithinReached(data, |data|);
    assert data[..|data|] == data;
    var at := FilterState(Osc, data, front);
    assert Reached(front, at);
    if bytes == front + [BEL] {
      OscEnds(data, front, at, BEL);
    } else {
      var held := FilterState(OscEscape, data, front + [ESC]);
      ReachedSnoc(front, at, ESC, held);
      assert front + [ESC] + [BACKSLASH] == bytes;
      OscEnds(data, front + [ESC], held, BACKSLASH);
    }
  }

  lemma OscEnds(data: Bytes, bytes: Bytes, f: FilterState, byte: u8)
    requires Reached(bytes, f) && f.data == data && f.sequence == bytes
    requires (f.state == Osc && byte == BEL) || (f.state == OscEscape && byte == BACKSLASH)
    ensures ParserPayloads(PARSER_START, bytes + [byte]) == [data]
    ensures ParserAfter(PARSER_START, bytes + [byte]) == PARSER_START
    ensures var run := FilterFrom(FILTER_START, bytes + [byte]);
            run.next == FILTER_START && PassedBytes(run.pieces) == if IsShellIntegration(data) then [] else bytes + [byte]
  {
    FilterSnoc(FILTER_START, bytes, byte);
    ParserSnoc(PARSER_START, bytes, byte);
    StripsShellIntegration(data);
    PassedShort(StepFilter(f, byte).pieces);
  }

  predicate HasNoEscape(bytes: Bytes) {
    forall i :: 0 <= i < |bytes| ==> bytes[i] != ESC
  }

  /** Text outside an OSC sequence goes through the filter and means nothing to the parser. */
  lemma {:induction false} TextPasses(text: Bytes)
    requires HasNoEscape(text)
    ensures FilterFrom(FILTER_START, text).next == FILTER_START && PassedBytes(FilterFrom(FILTER_START, text).pieces) == text
    ensures ParserAfter(PARSER_START, text) == PARSER_START && ParserPayloads(PARSER_START, text) == []
  {
    if text != [] {
      var n := |text| - 1;
      TextPasses(text[..n]);
      assert text[..n] + [text[n]] == text;
      FilterSnoc(FILTER_START, text[..n], text[n]);
      ParserSnoc(PARSER_START, text[..n], text[n]);
      PassedShort([Passed([text[n]])]);
    }
  }

  lemma FilterConcat(a: Bytes, b: Bytes)
    requires FilterFrom(FILTER_START, a).next == FILTER_START
    ensures PassedBytes(FilterFrom(FILTER_START, a + b).pieces) ==
            PassedBytes(FilterFrom(FILTER_START, a).pieces) + PassedBytes(FilterFrom(FILTER_START, b).pieces)
    ensures FilterFrom(FILTER_START, a + b).next == FilterFrom(FILTER_START, b).next
  {
    FilterIgnoresChopping(FILTER_START, a, b);
    PassedConcat(FilterFrom(FILTER_START, a).pieces, FilterFrom(FILTER_START, b).pieces);
  }

  /** In a stream: the text before is kept, the sequence is kept or stripped, and the rest is filtered afresh. */
  lemma OscInStream(text: Bytes, data: Bytes, bytes: Bytes, rest: Bytes)
    requires HasNoEscape(text) && IsPayload(data) && |data| < 4096 && IsOsc(bytes, data)
    ensures PassedBytes(FilterFrom(FILTER_START, text + (bytes + rest)).pieces) ==
            text + ((if IsShellIntegration(data) then [] else bytes) + PassedBytes(FilterFrom(FILTER_START, rest).pieces))
    ensures ParserPayloads(PARSER_START, text + (bytes + rest)) == [data] + ParserPayloads(PARSER_START, rest)
  {
    TextPasses(text);
    OscIsRecognised(data, bytes);
    FilterConcat(bytes, rest);
    FilterConcat(text, bytes + rest);
    ParserIgnoresChopping(PARSER_START, bytes, rest);
    ParserIgnoresChopping(PARSER_START, text, bytes + rest);
    assert [] + ([data] + ParserPayloads(PARSER_START, rest)) == [data] + ParserPayloads(PARSER_START, rest);
  }

  /**
    * After a doubled ESC the parser takes `]` for the start of a payload and completes it, while the filter
    * lets all of it through, shell integration or not.
    */
  lemma DoubledEscapeOpens(data: Bytes)
    requires IsPayload(data) && HasNoEscape(data) && |data| < OSC_MAX_NOTIFICATION_BYTES
    ensures var bytes := [ESC] + ([ESC, OSC_OPEN] + data + [BEL]);
            && ParserPayloads(PARSER_START, bytes) == [data]
            && PassedBytes(FilterFrom(FILTER_START, bytes).pieces) == bytes
  {
    var osc := [ESC, OSC_OPEN] + data + [BEL];
    var text := [OSC_OPEN] + data + [BEL];
    assert osc == [ESC] + text && HasNoEscape(text) by { TextAfterEscape(data); }
    assert [ESC] + osc == [ESC, ESC] + text by {
      Assoc([ESC], [ESC], text);
      assert [ESC] + [ESC] == [ESC, ESC];
    }
    AfterTwoEscapes(data, text);
    TextPasses(text);
    TwoEscapes();
    FilterConcat([ESC, ESC], text);
  }

  lemma TextAfterEscape(data: Bytes)
    requires HasNoEscape(data)
    ensures [ESC, OSC_OPEN] + data + [BEL] == [ESC] + ([OSC_OPEN] + data + [BEL])
    ensures HasNoEscape([OSC_OPEN] + data + [BEL])
  {
  }

  lemma AfterTwoEscapes(data: Bytes, text: Bytes)
    requires IsPayload(data) && |data| < OSC_MAX_NOTIFICATION_BYTES && IsOsc([ESC] + text, data)
    ensures ParserPayloads(PARSER_START, [ESC, ESC] + text) == [data]
  {
    TwoEscapes();
    OscIsRecognised(data, [ESC] + text);
    ParserIgnoresChopping(PARSER_START, [ESC], text);
    ParserIgnoresChopping(PARSER_START, [ESC, ESC], text);
  }

  lemma TwoEscapes()
    ensures ParserAfter(PARSER_START, [ESC]) == ParserAfter(PARSER_START, [ESC, ESC])
    ensures ParserPayloads(PARSER_START, [ESC]) == ParserPayloads(PARSER_START, [ESC, ESC]) == []
    ensures FilterFrom(FILTER_START, [ESC, ESC]).next == FILTER_START
    ensures PassedBytes(FilterFrom(FILTER_START, [ESC, ESC]).pieces) == [ESC, ESC]
  {
    assert [] + [ESC] == [ESC] && [ESC] + [ESC] == [ESC, ESC];
    FilterSnoc(FILTER_START, [], ESC);
    FilterSnoc(FILTER_START, [ESC], ESC);
    ParserSnoc(PARSER_START, [], ESC);
    ParserSnoc(PARSER_START, [ESC], ESC);
    PassedShort([Passed([ESC, ESC])]);
  }

  /** Within a payload a doubled ESC before `\` ends it for the parser, and not for the filter. */
  lemma DoubledEscapeEnds(data: Bytes)
    requires IsPayload(data) && |data| + 2 < OSC_MAX_NOTIFICATION_BYTES
    ensures var bytes := [ESC, OSC_OPEN] + data + [ESC] + [ESC] + [BACKSLASH];
            && ParserPayloads(PARSER_START, bytes) == [data + [ESC]]
            && FilterFrom(FILTER_START, bytes) == FilterStep(FilterState(Osc, data + [ESC, ESC] + [BACKSLASH], bytes), [])
  {
    var front := [ESC, OSC_OPEN] + data;
    WithinReached(data, |data|);
    assert data[..|data|] == data;
    TwoEscapesWithin(data, front);
  }

  lemma TwoEscapesWithin(data: Bytes, front: Bytes)
    requires Reached(front, FilterState(Osc, data, front)) && |data| + 2 < OSC_MAX_NOTIFICATION_BYTES
    ensures var bytes := front + [ESC] + [ESC] + [BACKSLASH];
            && ParserPayloads(PARSER_START, bytes) == [data + [ESC]]
            && FilterFrom(FILTER_START, bytes) == FilterStep(FilterState(Osc, data + [ESC, ESC] + [BACKSLASH], bytes), [])
  {
    var once, twice := front + [ESC], front + [ESC] + [ESC];
    assert Reached(once, FilterState(OscEscape, data, once)) by {
      ReachedSnoc(front, FilterState(Osc, data, front), ESC, FilterState(OscEscape, data, once));
    }
    assert FilterFrom(FILTER_START, twice) == FilterStep(FilterState(Osc, data + [ESC, ESC], twice), []) by {
      FilterSnoc(FILTER_START, once, ESC);
    }
    assert ParserAfter(PARSER_START, twice) == ParserState(OscEscape, data + [ESC]) && ParserPayloads(PARSER_START, twice) == [] by {
      ParserSnoc(PARSER_START, once, ESC);
    }
    assert ParserPayloads(PARSER_START, twice + [BACKSLASH]) == [data + [ESC]] by {
      ParserSnoc(PARSER_START, twice, BACKSLASH);
    }
    assert FilterFrom(FILTER_START, twice + [BACKSLASH]) ==
           FilterStep(FilterState(Osc, data + [ESC, ESC] + [BACKSLASH], twice + [BACKSLASH]), []) by {
      FilterSnoc(FILTER_START, twice, BACKSLASH);
    }
  }
}
