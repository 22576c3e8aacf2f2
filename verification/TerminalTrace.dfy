/** The trace recorder and the parser that replays its event log. */
module TerminalTrace {
  import opened Common
  import opened TraceText

  // ----- what a run of the recorder does -----

  /**
    * One call of the recorder, with the clock's reading and, for output, how many bytes reached the file:
    * all of them when the write succeeds, fewer when it fails on the way.
    */
  datatype Call =
    | RecordOutput(micros: nat, bytes: Bytes, written: nat)
    | RecordInput(micros: nat, source: string, bytes: Bytes)
    | RecordResize(micros: nat, cols: u16, rows: u16, pixelWidth: u16, pixelHeight: u16)
    | RecordOther(micros: nat, kind: string, detail: string)

  /** The two files and the output offset. */
  datatype Recorder = Recorder(output: Bytes, events: string, outputOffset: u64)

  function EventLine(micros: nat, kind: string, detail: string): string {
    Decimal(micros) + " kind=" + kind + " " + detail
  }

  function StartDetail(session: string, cols: u16, rows: u16, path: string): string {
    JoinedBySpace(["session=" + session, "cols=" + Decimal(cols), "rows=" + Decimal(rows), "output=" + path])
  }

  function HexDigits(bytes: Bytes): string {
    if bytes == [] then ""
    else HexDigits(bytes[..|bytes| - 1]) + ["0123456789abcdef"[bytes[|bytes| - 1] / 16], "0123456789abcdef"[bytes[|bytes| - 1] % 16]]
  }

  function HexPrefix(bytes: Bytes, max: nat): string {
    HexDigits(bytes[..Min(|bytes|, max)]) + if |bytes| > max then "..." else ""
  }

  function OutputDetail(offset: u64, bytes: Bytes): string {
    JoinedBySpace(["offset=" + Decimal(offset), "len=" + Decimal(|bytes|), "hex=" + HexPrefix(bytes, 48)])
  }

  function InputDetail(source: string, bytes: Bytes): string {
    JoinedBySpace(["source=" + source, "len=" + Decimal(|bytes|), "hex=" + HexPrefix(bytes, 48)])
  }

  function ResizeDetail(cols: u16, rows: u16, pixelWidth: u16, pixelHeight: u16): string {
    JoinedBySpace(["cols=" + Decimal(cols), "rows=" + Decimal(rows),
                   "pixel_width=" + Decimal(pixelWidth), "pixel_height=" + Decimal(pixelHeight)])
  }

  function SaturatingAdd(a: u64, b: nat): u64 {
    if a + b <= U64_MAX then a + b else U64_MAX
  }

  function CallLine(offset: u64, call: Call): string {
    match call
    case RecordOutput(micros, bytes, _) => EventLine(micros, "output", OutputDetail(offset, bytes))
    case RecordInput(micros, source, bytes) => EventLine(micros, "input", InputDetail(source, bytes))
    case RecordResize(micros, cols, rows, pixelWidth, pixelHeight) =>
      EventLine(micros, "resize", ResizeDetail(cols, rows, pixelWidth, pixelHeight))
    case RecordOther(micros, kind, detail) => EventLine(micros, kind, detail)
  }

  /** The bytes of an output that reached the file. */
  function Reached(bytes: Bytes, written: nat): Bytes {
    if written < |bytes| then bytes[..written] else bytes
  }

  predicate Succeeds(call: Call) {
    call.RecordOutput? && call.written >= |call.bytes|
  }

  function Recorded(r: Recorder, call: Call): Recorder {
    var events := r.events + CallLine(r.outputOffset, call) + "\n";
    if call.RecordOutput? then
      Recorder(r.output + Reached(call.bytes, call.written), events,
               if Succeeds(call) then SaturatingAdd(r.outputOffset, |call.bytes|) else r.outputOffset)
    else r.(events := events)
  }

  class TerminalTraceRecorder {
    var output: Bytes
    var events: string
    var outputOffset: u64

    function State(): Recorder
      reads this
    {
      Recorder(output, events, outputOffset)
    }

    constructor (micros: nat, session: string, cols: u16, rows: u16, path: string)
      ensures State() == Recorder([], EventLine(micros, "start", StartDetail(session, cols, rows, path)) + "\n", 0)
    {
      output := [];
      outputOffset := 0;
      events := "" + EventLine(micros, "start", StartDetail(session, cols, rows, path)) + "\n";
    }

    method RecordEvent(micros: nat, kind: string, detail: string)
      modifies this`events
      ensures events == old(events) + EventLine(micros, kind, detail) + "\n"
    {
      events := events + EventLine(micros, kind, detail) + "\n";
    }

    /** `written` says how many of `bytes` reach the output file. */
    method RecordOutput(micros: nat, bytes: Bytes, written: nat)
      modifies this
      ensures State() == Recorded(old(State()), Call.RecordOutput(micros, bytes, written))
    {
      var offset := outputOffset;
      output := output + Reached(bytes, written);
      if written >= |bytes| {
        outputOffset := SaturatingAdd(outputOffset, |bytes|);
      }
      var hex := TerminalTraceHexPrefix(bytes, 48);
      RecordEvent(micros, "output", JoinedBySpace(["offset=" + Decimal(offset), "len=" + Decimal(|bytes|), "hex=" + hex]));
    }

    method RecordInput(micros: nat, source: string, bytes: Bytes)
      modifies this
      ensures State() == Recorded(old(State()), Call.RecordInput(micros, source, bytes))
    {
      var hex := TerminalTraceHexPrefix(bytes, 48);
      RecordEvent(micros, "input", JoinedBySpace(["source=" + source, "len=" + Decimal(|bytes|), "hex=" + hex]));
    }

    method RecordResize(micros: nat, cols: u16, rows: u16, pixelWidth: u16, pixelHeight: u16)
      modifies this
      ensures State() == Recorded(old(State()), Call.RecordResize(micros, cols, rows, pixelWidth, pixelHeight))
    {
      RecordEvent(micros, "resize", JoinedBySpace(["cols=" + Decimal(cols), "rows=" + Decimal(rows),
                                                   "pixel_width=" + Decimal(pixelWidth),
                                                   "pixel_height=" + Decimal(pixelHeight)]));
    }
  }

  method TerminalTraceHexPrefix(bytes: Bytes, max: nat) returns (encoded: string)
    ensures encoded == HexPrefix(bytes, max)
  {
    var HEX := "0123456789abcdef";
    var n := Min(|bytes|, max);
    encoded := "";
    var i := 0;
    while i < n
      invariant 0 <= i <= n
      invariant encoded == HexDigits(bytes[..i])
    {
      assert bytes[..i + 1][..i] == bytes[..i];
      encoded := encoded + [HEX[bytes[i] / 16]];
      encoded := encoded + [HEX[bytes[i] % 16]];
      i := i + 1;
    }
    if |bytes| > max {
      encoded := encoded + "...";
    }
  }

  /** A whole recording: start, then the calls in order. */
  function RunFrom(r: Recorder, calls: seq<Call>): Recorder
    decreases |calls|
  {
    if calls == [] then r else RunFrom(Recorded(r, calls[0]), calls[1..])
  }

  function StartLine(micros: nat, session: string, cols: u16, rows: u16, path: string): string {
    EventLine(micros, "start", StartDetail(session, cols, rows, path))
  }

  function Recording(micros: nat, session: string, cols: u16, rows: u16, path: string, calls: seq<Call>): Recorder {
    RunFrom(Recorder([], StartLine(micros, session, cols, rows, path) + "\n", 0), calls)
  }

  // ----- the replay parser -----

  datatype Step = OutputStep(offset: u64, len: u64) | ResizeStep(cols: u16, rows: u16)

  datatype Plan = Plan(outputPath: string, cols: u16, rows: u16, steps: seq<Step>)

  datatype ParseError = Missing(event: string, field: string)

  /** The plan read so far. */
  datatype Partial = Partial(outputPath: Option<string>, cols: Option<u16>, rows: Option<u16>, steps: seq<Step>)

  const NOTHING_READ := Partial(None, None, None, [])

  function Number(line: string, key: string, max: nat): (r: Option<nat>)
    ensures r.Some? ==> r.value <= max
  {
    var text := TraceValue(line, key);
    if text.None? then None
    else
      var n := ParseUnsigned(text.value, max);
      if n.Some? then Some(n.value) else None
  }

  function ParseLine(p: Partial, line: string): Result<Partial, ParseError> {
    var kind := TraceValue(line, "kind");
    if kind == Some("start") then
      var path, cols, rows := TraceValue(line, "output"), Number(line, "cols", 0xFFFF), Number(line, "rows", 0xFFFF);
      if path.None? then Err(Missing("start", "output path"))
      else if cols.None? then Err(Missing("start", "cols"))
      else if rows.None? then Err(Missing("start", "rows"))
      else Ok(Partial(path, Some(cols.value), Some(rows.value), p.steps))
    else if kind == Some("resize") then
      var cols, rows := Number(line, "cols", 0xFFFF), Number(line, "rows", 0xFFFF);
      if cols.None? then Err(Missing("resize", "cols"))
      else if rows.None? then Err(Missing("resize", "rows"))
      else Ok(p.(steps := p.steps + [ResizeStep(cols.value, rows.value)]))
    else if kind == Some("output") then
      var offset, len := Number(line, "offset", U64_MAX), Number(line, "len", U64_MAX);
      if offset.None? then Err(Missing("output", "offset"))
      else if len.None? then Err(Missing("output", "len"))
      else Ok(p.(steps := p.steps + [OutputStep(offset.value, len.value)]))
    else Ok(p)
  }

  function ParseLines(p: Partial, lines: seq<string>): Result<Partial, ParseError>
    decreases |lines|
  {
    if lines == [] then Ok(p)
    else
      var q := ParseLine(p, lines[0]);
      if q.Err? then q else ParseLines(q.value, lines[1..])
  }

  function Complete(p: Partial): Result<Plan, ParseError> {
    if p.outputPath.None? then Err(Missing("", "start event"))
    else if p.cols.None? then Err(Missing("", "start cols"))
    else if p.rows.None? then Err(Missing("", "start rows"))
    else Ok(Plan(p.outputPath.value, p.cols.value, p.rows.value, p.steps))
  }

  function Parsed(events: string): Result<Plan, ParseError> {
    var p := ParseLines(NOTHING_READ, Lines(events, ""));
    if p.Err? then Err(p.error) else Complete(p.value)
  }

  method ParseTerminalReplayEvents(events: string) returns (r: Result<Plan, ParseError>)
    ensures r == Parsed(events)
  {
    var lines := Lines(events, "");
    var outputPath: Option<string>, initialCols: Option<u16>, initialRows: Option<u16> := None, None, None;
    var steps: seq<Step> := [];
    var i := 0;
    while i < |lines|
      invariant 0 <= i <= |lines|
      invariant ParseLines(NOTHING_READ, lines) ==
                ParseLines(Partial(outputPath, initialCols, initialRows, steps), lines[i..])
    {
      var line := lines[i];
      assert lines[i..][0] == line && lines[i..][1..] == lines[i + 1..];
      var kind := TraceValue(line, "kind");
      if kind == Some("start") {
        var path := TraceValue(line, "output");
        if path.None? { return Err(Missing("start", "output path")); }
        var cols := Number(line, "cols", 0xFFFF);
        if cols.None? { return Err(Missing("start", "cols")); }
        var rows := Number(line, "rows", 0xFFFF);
        if rows.None? { return Err(Missing("start", "rows")); }
        outputPath, initialCols, initialRows := path, Some(cols.value), Some(rows.value);
      } else if kind == Some("resize") {
        var cols := Number(line, "cols", 0xFFFF);
        if cols.None? { return Err(Missing("resize", "cols")); }
        var rows := Number(line, "rows", 0xFFFF);
        if rows.None? { return Err(Missing("resize", "rows")); }
        steps := steps + [ResizeStep(cols.value, rows.value)];
      } else if kind == Some("output") {
        var offset := Number(line, "offset", U64_MAX);
        if offset.None? { return Err(Missing("output", "offset")); }
        var len := Number(line, "len", U64_MAX);
        if len.None? { return Err(Missing("output", "len")); }
        steps := steps + [OutputStep(offset.value, len.value)];
      }
      i := i + 1;
    }
    r := Complete(Partial(outputPath, initialCols, initialRows, steps));
  }

  // ----- reading back what was written -----

  ghost predicate ValidCall(call: Call) {
    match call
    case RecordOutput(_, bytes, _) => |bytes| <= U64_MAX
    case RecordInput(_, source, _) => IsPlain(source)
    case RecordResize(_, _, _, _, _) => true
    case RecordOther(_, kind, detail) => IsField(kind) && kind !in {"start", "output", "resize"} && IsPlain(detail)
  }

  ghost predicate ValidCalls(calls: seq<Call>) {
    forall i :: 0 <= i < |calls| ==> ValidCall(calls[i])
  }

  function OffsetAfter(offset: u64, call: Call): u64 {
    if Succeeds(call) then SaturatingAdd(offset, |call.bytes|) else offset
  }

  function CallLines(offset: u64, calls: seq<Call>): seq<string>
    decreases |calls|
  {
    if calls == [] then [] else [CallLine(offset, calls[0])] + CallLines(OffsetAfter(offset, calls[0]), calls[1..])
  }

  /** The steps a recording should be replayed as. */
  function StepsOf(offset: u64, calls: seq<Call>): seq<Step>
    requires ValidCalls(calls)
    decreases |calls|
  {
    if calls == [] then []
    else
      assert ValidCall(calls[0]);
      (match calls[0]
       case RecordOutput(_, bytes, _) => [OutputStep(offset, |bytes|)]
       case RecordResize(_, cols, rows, _, _) => [ResizeStep(cols, rows)]
       case _ => []) + StepsOf(OffsetAfter(offset, calls[0]), calls[1..])
  }

  lemma DecimalIsField(n: nat)
    ensures IsField(Decimal(n)) && IsDigit(Decimal(n)[0])
  {
    DecimalValue(n);
    forall i | 0 <= i < |Decimal(n)| ensures !IsWhitespace(Decimal(n)[i]) { assert IsDigit(Decimal(n)[i]); }
  }

  lemma KeyedIsField(key: string, value: string)
    requires IsField(key) && NoWhitespace(value)
    ensures IsField(key + value)
  {
  }

  lemma {:induction false} HexHasNoWhitespace(bytes: Bytes)
    ensures NoWhitespace(HexDigits(bytes))
  {
    if bytes != [] {
      HexHasNoWhitespace(bytes[..|bytes| - 1]);
      HexDigitIsNoWhitespace(bytes[|bytes| - 1] / 16);
      HexDigitIsNoWhitespace(bytes[|bytes| - 1] % 16);
    }
  }

  lemma HexDigitIsNoWhitespace(d: nat)
    requires d < 16
    ensures !IsWhitespace("0123456789abcdef"[d])
  {
  }

  lemma HexPrefixHasNoWhitespace(bytes: Bytes, max: nat)
    ensures NoWhitespace(HexPrefix(bytes, max))
  {
    HexHasNoWhitespace(bytes[..Min(|bytes|, max)]);
  }

  lemma EventFields(micros: nat, kind: string, detail: string)
    requires IsField(kind)
    ensures SplitWhitespace(EventLine(micros, kind, detail), "") ==
            [Decimal(micros)] + (["kind=" + kind] + SplitWhitespace(detail, ""))
  {
    DecimalIsField(micros);
    KeyedIsField("kind=", kind);
    SplitFirst(Decimal(micros), "kind=" + kind + " " + detail);
    SplitFirst("kind=" + kind, detail);
    assert EventLine(micros, kind, detail) == Decimal(micros) + " " + ("kind=" + kind + " " + detail);
  }

  /** The event's kind, and any other field, looked up in the event's line. */
  lemma EventValues(micros: nat, kind: string, detail: string, key: string)
    requires IsField(kind) && key != "" && key[0] != 'k' && !IsDigit(key[0])
    ensures TraceValue(EventLine(micros, kind, detail), "kind") == Some(kind)
    ensures TraceValue(EventLine(micros, kind, detail), key) == FindValue(SplitWhitespace(detail, ""), key + "=")
  {
    var fields := SplitWhitespace(EventLine(micros, kind, detail), "");
    var rest := SplitWhitespace(detail, "");
    EventFields(micros, kind, detail);
    DecimalIsField(micros);
    assert fields[1..] == ["kind=" + kind] + rest && fields[1..][1..] == rest;
    FindSkips(fields, "kind=");
    FindHits(fields[1..], "kind=", kind);
    FindSkips(fields, key + "=");
    FindSkips(fields[1..], key + "=");
    assert "kind" + "=" == "kind=";
  }

  lemma KeyedDecimal(key: string, n: nat)
    requires IsField(key)
    ensures IsField(key + Decimal(n))
  {
    DecimalIsField(n);
    KeyedIsField(key, Decimal(n));
  }

  lemma StartDetailValues(session: string, cols: u16, rows: u16, path: string)
    requires NoWhitespace(session) && NoWhitespace(path)
    ensures var fields := SplitWhitespace(StartDetail(session, cols, rows, path), "");
            && FindValue(fields, "cols=") == Some(Decimal(cols))
            && FindValue(fields, "rows=") == Some(Decimal(rows))
            && FindValue(fields, "output=") == Some(path)
  {
    var fields := ["session=" + session, "cols=" + Decimal(cols), "rows=" + Decimal(rows), "output=" + path];
    KeyedIsField("session=", session);
    KeyedDecimal("cols=", cols);
    KeyedDecimal("rows=", rows);
    KeyedIsField("output=", path);
    SplitJoined(fields);
    var f1, f2, f3 := fields[1..], fields[1..][1..], fields[1..][1..][1..];
    FindSkips(fields, "cols=");
    FindHits(f1, "cols=", Decimal(cols));
    FindSkips(fields, "rows=");
    FindSkips(f1, "rows=");
    FindHits(f2, "rows=", Decimal(rows));
    FindSkips(fields, "output=");
    FindSkips(f1, "output=");
    FindSkips(f2, "output=");
    FindHits(f3, "output=", path);
  }

  lemma ParsesStart(p: Partial, micros: nat, session: string, cols: u16, rows: u16, path: string)
    requires NoWhitespace(session) && NoWhitespace(path)
    ensures ParseLine(p, StartLine(micros, session, cols, rows, path)) ==
            Ok(Partial(Some(path), Some(cols), Some(rows), p.steps))
  {
    var detail := StartDetail(session, cols, rows, path);
    StartDetailValues(session, cols, rows, path);
    EventValues(micros, "start", detail, "cols");
    EventValues(micros, "start", detail, "rows");
    EventValues(micros, "start", detail, "output");
    DecimalRoundTrip(cols, 0xFFFF);
    DecimalRoundTrip(rows, 0xFFFF);
    assert "cols" + "=" == "cols=" && "rows" + "=" == "rows=" && "output" + "=" == "output=";
  }

  lemma ResizeDetailValues(cols: u16, rows: u16, pixelWidth: u16, pixelHeight: u16)
    ensures var fields := SplitWhitespace(ResizeDetail(cols, rows, pixelWidth, pixelHeight), "");
            && FindValue(fields, "cols=") == Some(Decimal(cols))
            && FindValue(fields, "rows=") == Some(Decimal(rows))
  {
    var fields := ["cols=" + Decimal(cols), "rows=" + Decimal(rows),
                   "pixel_width=" + Decimal(pixelWidth), "pixel_height=" + Decimal(pixelHeight)];
    KeyedDecimal("cols=", cols);
    KeyedDecimal("rows=", rows);
    KeyedDecimal("pixel_width=", pixelWidth);
    KeyedDecimal("pixel_height=", pixelHeight);
    SplitJoined(fields);
    FindHits(fields, "cols=", Decimal(cols));
    FindSkips(fields, "rows=");
    FindHits(fields[1..], "rows=", Decimal(rows));
  }

  lemma ParsesResize(p: Partial, micros: nat, cols: u16, rows: u16, pixelWidth: u16, pixelHeight: u16)
    ensures ParseLine(p, EventLine(micros, "resize", ResizeDetail(cols, rows, pixelWidth, pixelHeight))) ==
            Ok(p.(steps := p.steps + [ResizeStep(cols, rows)]))
  {
    var detail := ResizeDetail(cols, rows, pixelWidth, pixelHeight);
    ResizeDetailValues(cols, rows, pixelWidth, pixelHeight);
    EventValues(micros, "resize", detail, "cols");
    EventValues(micros, "resize", detail, "rows");
    DecimalRoundTrip(cols, 0xFFFF);
    DecimalRoundTrip(rows, 0xFFFF);
    assert "cols" + "=" == "cols=" && "rows" + "=" == "rows=";
  }

  lemma OutputDetailValues(offset: u64, bytes: Bytes)
    ensures var fields := SplitWhitespace(OutputDetail(offset, bytes), "");
            && FindValue(fields, "offset=") == Some(Decimal(offset))
            && FindValue(fields, "len=") == Some(Decimal(|bytes|))
  {
    var fields := ["offset=" + Decimal(offset), "len=" + Decimal(|bytes|), "hex=" + HexPrefix(bytes, 48)];
    KeyedDecimal("offset=", offset);
    KeyedDecimal("len=", |bytes|);
    HexPrefixHasNoWhitespace(bytes, 48);
    KeyedIsField("hex=", HexPrefix(bytes, 48));
    SplitJoined(fields);
    FindHits(fields, "offset=", Decimal(offset));
    FindSkips(fields, "len=");
    FindHits(fields[1..], "len=", Decimal(|bytes|));
  }

  lemma ParsesOutput(p: Partial, micros: nat, offset: u64, bytes: Bytes)
    requires |bytes| <= U64_MAX
    ensures ParseLine(p, EventLine(micros, "output", OutputDetail(offset, bytes))) ==
            Ok(p.(steps := p.steps + [OutputStep(offset, |bytes|)]))
  {
    var detail := OutputDetail(offset, bytes);
    OutputDetailValues(offset, bytes);
    EventValues(micros, "output", detail, "offset");
    EventValues(micros, "output", detail, "len");
    DecimalRoundTrip(offset, U64_MAX);
    DecimalRoundTrip(|bytes|, U64_MAX);
    assert "offset" + "=" == "offset=" && "len" + "=" == "len=";
  }

  /** Every other event is skipped, whatever its detail. */
  lemma SkipsOthers(p: Partial, micros: nat, kind: string, detail: string)
    requires IsField(kind) && kind !in {"start", "output", "resize"}
    ensures ParseLine(p, EventLine(micros, kind, detail)) == Ok(p)
  {
    EventValues(micros, kind, detail, "x");
  }

  lemma {:induction false} ParsesCalls(p: Partial, offset: u64, calls: seq<Call>)
    requires ValidCalls(calls)
    ensures ParseLines(p, CallLines(offset, calls)) == Ok(p.(steps := p.steps + StepsOf(offset, calls)))
    decreases |calls|
  {
    if calls == [] {
      assert p.steps + [] == p.steps;
    } else {
      assert ValidCall(calls[0]);
      var next := OffsetAfter(offset, calls[0]);
      match calls[0] {
        case RecordOutput(micros, bytes, _) => ParsesOutput(p, micros, offset, bytes);
        case RecordInput(micros, source, bytes) => SkipsOthers(p, micros, "input", InputDetail(source, bytes));
        case RecordResize(micros, cols, rows, pixelWidth, pixelHeight) =>
          ParsesResize(p, micros, cols, rows, pixelWidth, pixelHeight);
        case RecordOther(micros, kind, detail) => SkipsOthers(p, micros, kind, detail);
      }
      var q := ParseLine(p, CallLine(offset, calls[0])).value;
      var first := StepsOf(offset, calls)[..|StepsOf(offset, calls)| - |StepsOf(next, calls[1..])|];
      assert q == p.(steps := p.steps + first);
      ParsesCalls(q, next, calls[1..]);
      assert CallLines(offset, calls)[1..] == CallLines(next, calls[1..]);
      Assoc(p.steps, first, StepsOf(next, calls[1..]));
    }
  }

  lemma RecordedEvents(r: Recorder, call: Call)
    ensures Recorded(r, call).events == r.events + (CallLine(r.outputOffset, call) + "\n")
    ensures Recorded(r, call).outputOffset == OffsetAfter(r.outputOffset, call)
  {
    Assoc(r.events, CallLine(r.outputOffset, call), "\n");
  }

  lemma UnlinesFirst(line: string, rest: seq<string>)
    ensures Unlines([line] + rest) == (line + "\n") + Unlines(rest)
  {
    assert ([line] + rest)[1..] == rest;
  }

  lemma {:induction false} EventsAreLines(r: Recorder, calls: seq<Call>)
    ensures RunFrom(r, calls).events == r.events + Unlines(CallLines(r.outputOffset, calls))
    decreases |calls|
  {
    if calls == [] {
      assert r.events + "" == r.events;
    } else {
      var line := CallLine(r.outputOffset, calls[0]);
      var next := Recorded(r, calls[0]);
      var rest := CallLines(next.outputOffset, calls[1..]);
      RecordedEvents(r, calls[0]);
      EventsAreLines(next, calls[1..]);
      UnlinesFirst(line, rest);
      Assoc(r.events, line + "\n", Unlines(rest));
    }
  }

  lemma PlainKeyed(key: string, value: string)
    requires IsField(key) && NoWhitespace(value)
    ensures IsPlain(key + value)
  {
    KeyedIsField(key, value);
    NoWhitespaceIsPlain(key + value);
  }

  lemma PlainNumber(key: string, n: nat)
    requires IsField(key)
    ensures IsPlain(key + Decimal(n))
  {
    DecimalIsField(n);
    PlainKeyed(key, Decimal(n));
  }

  lemma PlainEvent(micros: nat, kind: string, detail: string)
    requires IsPlain(kind) && IsPlain(detail)
    ensures IsLine(EventLine(micros, kind, detail))
  {
    DecimalIsField(micros);
    NoWhitespaceIsPlain(Decimal(micros));
    PlainIsLine(EventLine(micros, kind, detail));
  }

  lemma OutputLineIsLine(micros: nat, offset: u64, bytes: Bytes)
    ensures IsLine(EventLine(micros, "output", OutputDetail(offset, bytes)))
  {
    PlainNumber("offset=", offset);
    PlainNumber("len=", |bytes|);
    HexPrefixHasNoWhitespace(bytes, 48);
    PlainKeyed("hex=", HexPrefix(bytes, 48));
    JoinedIsPlain(["offset=" + Decimal(offset), "len=" + Decimal(|bytes|), "hex=" + HexPrefix(bytes, 48)]);
    PlainEvent(micros, "output", OutputDetail(offset, bytes));
  }

  lemma InputLineIsLine(micros: nat, source: string, bytes: Bytes)
    requires IsPlain(source)
    ensures IsLine(EventLine(micros, "input", InputDetail(source, bytes)))
  {
    PlainNumber("len=", |bytes|);
    HexPrefixHasNoWhitespace(bytes, 48);
    PlainKeyed("hex=", HexPrefix(bytes, 48));
    JoinedIsPlain(["source=" + source, "len=" + Decimal(|bytes|), "hex=" + HexPrefix(bytes, 48)]);
    PlainEvent(micros, "input", InputDetail(source, bytes));
  }

  lemma ResizeLineIsLine(micros: nat, cols: u16, rows: u16, pixelWidth: u16, pixelHeight: u16)
    ensures IsLine(EventLine(micros, "resize", ResizeDetail(cols, rows, pixelWidth, pixelHeight)))
  {
    PlainNumber("cols=", cols);
    PlainNumber("rows=", rows);
    PlainNumber("pixel_width=", pixelWidth);
    PlainNumber("pixel_height=", pixelHeight);
    JoinedIsPlain(["cols=" + Decimal(cols), "rows=" + Decimal(rows),
                   "pixel_width=" + Decimal(pixelWidth), "pixel_height=" + Decimal(pixelHeight)]);
    PlainEvent(micros, "resize", ResizeDetail(cols, rows, pixelWidth, pixelHeight));
  }

  lemma CallLineIsLine(offset: u64, call: Call)
    requires ValidCall(call)
    ensures IsLine(CallLine(offset, call))
  {
    match call
    case RecordOutput(micros, bytes, _) => OutputLineIsLine(micros, offset, bytes);
    case RecordInput(micros, source, bytes) => InputLineIsLine(micros, source, bytes);
    case RecordResize(micros, cols, rows, pixelWidth, pixelHeight) =>
      ResizeLineIsLine(micros, cols, rows, pixelWidth, pixelHeight);
    case RecordOther(micros, kind, detail) =>
      NoWhitespaceIsPlain(kind);
      PlainEvent(micros, kind, detail);
  }

  lemma {:induction false} CallLinesAreLines(offset: u64, calls: seq<Call>)
    requires ValidCalls(calls)
    ensures forall i :: 0 <= i < |CallLines(offset, calls)| ==> IsLine(CallLines(offset, calls)[i])
    decreases |calls|
  {
    if calls != [] {
      assert ValidCall(calls[0]);
      CallLineIsLine(offset, calls[0]);
      CallLinesAreLines(OffsetAfter(offset, calls[0]), calls[1..]);
    }
  }

  /**
    * Parsing a recording's event log gives back the path, the initial size and exactly the resize and
    * output steps in order, for every list of calls, when session and path hold no whitespace.
    */
  lemma RecordingParses(micros: nat, session: string, cols: u16, rows: u16, path: string, calls: seq<Call>)
    requires NoWhitespace(session) && NoWhitespace(path) && ValidCalls(calls)
    ensures Parsed(Recording(micros, session, cols, rows, path, calls).events) ==
            Ok(Plan(path, cols, rows, StepsOf(0, calls)))
  {
    var start := StartLine(micros, session, cols, rows, path);
    var r := Recorder([], start + "\n", 0);
    var lines := [start] + CallLines(0, calls);
    EventsAreLines(r, calls);
    assert lines[1..] == CallLines(0, calls);
    assert Recording(micros, session, cols, rows, path, calls).events == Unlines(lines);
    StartIsLine(micros, session, cols, rows, path);
    CallLinesAreLines(0, calls);
    LinesOfUnlines(lines);
    ParsesStart(NOTHING_READ, micros, session, cols, rows, path);
    var p := Partial(Some(path), Some(cols), Some(rows), []);
    ParsesCalls(p, 0, calls);
    assert [] + StepsOf(0, calls) == StepsOf(0, calls);
    assert ParseLines(NOTHING_READ, lines) == ParseLines(p, CallLines(0, calls));
  }

  lemma StartIsLine(micros: nat, session: string, cols: u16, rows: u16, path: string)
    requires NoWhitespace(session) && NoWhitespace(path)
    ensures IsLine(StartLine(micros, session, cols, rows, path))
  {
    PlainNumber("cols=", cols);
    PlainNumber("rows=", rows);
    PlainKeyed("session=", session);
    PlainKeyed("output=", path);
    JoinedIsPlain(["session=" + session, "cols=" + Decimal(cols), "rows=" + Decimal(rows), "output=" + path]);
    PlainEvent(micros, "start", StartDetail(session, cols, rows, path));
  }

  /** No parsed path contains whitespace, so the path comes back if and only if it has none. */
  lemma PathRoundTripExactly(micros: nat, session: string, cols: u16, rows: u16, path: string, calls: seq<Call>)
    requires NoWhitespace(session) && ValidCalls(calls)
    ensures var plan := Parsed(Recording(micros, session, cols, rows, path, calls).events);
            plan.Ok? && plan.value.outputPath == path <==> NoWhitespace(path)
  {
    if NoWhitespace(path) {
      RecordingParses(micros, session, cols, rows, path, calls);
    }
    ParsedPathHasNoWhitespace(NOTHING_READ, Lines(Recording(micros, session, cols, rows, path, calls).events, ""));
  }

  lemma {:induction false} ParsedPathHasNoWhitespace(p: Partial, lines: seq<string>)
    requires p.outputPath.Some? ==> NoWhitespace(p.outputPath.value)
    ensures var q := ParseLines(p, lines);
            q.Ok? && q.value.outputPath.Some? ==> NoWhitespace(q.value.outputPath.value)
    decreases |lines|
  {
    if lines != [] {
      SplitGivesFields(lines[0], "");
      FoundValueHasNoWhitespace(SplitWhitespace(lines[0], ""), "output" + "=");
      var q := ParseLine(p, lines[0]);
      if q.Ok? {
        ParsedPathHasNoWhitespace(q.value, lines[1..]);
      }
    }
  }

  // ----- the replayed chunks -----

  /** The output chunks that the replay cuts out of the output file; None when one lies outside it. */
  function ReplayChunks(steps: seq<Step>, file: Bytes): Option<seq<Bytes>> {
    if steps == [] then Some([])
    else
      var rest := ReplayChunks(steps[1..], file);
      match steps[0]
      case ResizeStep(_, _) => rest
      case OutputStep(offset, len) =>
        if offset + len > U64_MAX || offset + len > |file| || rest.None? then None
        else Some([file[offset..offset + len]] + rest.value)
  }

  /** Every output recorded, and what reached the file of them. */
  function Outputs(calls: seq<Call>): seq<Bytes> {
    if calls == [] then []
    else if calls[0].RecordOutput? then [calls[0].bytes] + Outputs(calls[1..])
    else Outputs(calls[1..])
  }

  function Written(calls: seq<Call>): Bytes {
    if calls == [] then []
    else if calls[0].RecordOutput? then Reached(calls[0].bytes, calls[0].written) + Written(calls[1..])
    else Written(calls[1..])
  }

  /** Every output was written whole. */
  predicate NothingUnwritten(calls: seq<Call>) {
    calls == [] || ((calls[0].RecordOutput? ==> Succeeds(calls[0])) && NothingUnwritten(calls[1..]))
  }

  lemma RecordedOutput(r: Recorder, call: Call)
    ensures Recorded(r, call).output ==
            if call.RecordOutput? then r.output + Reached(call.bytes, call.written) else r.output
  {
  }

  /** The output file holds what reached it of every output, in order. */
  lemma {:induction false} RecordingFile(r: Recorder, calls: seq<Call>)
    ensures RunFrom(r, calls).output == r.output + Written(calls)
    decreases |calls|
  {
    if calls == [] {
      assert r.output + [] == r.output;
    } else {
      var next := Recorded(r, calls[0]);
      RecordedOutput(r, calls[0]);
      RecordingFile(next, calls[1..]);
      if calls[0].RecordOutput? {
        Assoc(r.output, Reached(calls[0].bytes, calls[0].written), Written(calls[1..]));
      }
    }
  }

  lemma StepsOfOutput(offset: u64, calls: seq<Call>)
    requires ValidCalls(calls) && calls != [] && calls[0].RecordOutput? && ValidCall(calls[0])
    ensures StepsOf(offset, calls) ==
            [OutputStep(offset, |calls[0].bytes|)] + StepsOf(OffsetAfter(offset, calls[0]), calls[1..])
  {
  }

  /** A call that is no output adds no output chunk. */
  lemma StepsOfOther(offset: u64, calls: seq<Call>, file: Bytes)
    requires ValidCalls(calls) && calls != [] && !calls[0].RecordOutput?
    ensures ReplayChunks(StepsOf(offset, calls), file) == ReplayChunks(StepsOf(offset, calls[1..]), file)
  {
    assert ValidCall(calls[0]);
    var rest := StepsOf(offset, calls[1..]);
    assert [] + rest == rest;
    if calls[0].RecordResize? {
      assert StepsOf(offset, calls)[1..] == rest;
    }
  }

  lemma ReplayFirst(offset: u64, len: u64, rest: seq<Step>, file: Bytes)
    ensures ReplayChunks([OutputStep(offset, len)] + rest, file) ==
            if offset + len > U64_MAX || offset + len > |file| || ReplayChunks(rest, file).None? then None
            else Some([file[offset..offset + len]] + ReplayChunks(rest, file).value)
  {
    assert ([OutputStep(offset, len)] + rest)[1..] == rest;
  }

  lemma JoinedFirst(first: Bytes, rest: seq<Bytes>)
    ensures Joined([first] + rest) == first + Joined(rest)
  {
    assert ([first] + rest)[1..] == rest;
  }

  /** When nothing went unwritten the chunks tile the file: each is the output recorded there. */
  lemma {:induction false} ChunksTile(before: Bytes, calls: seq<Call>, file: Bytes)
    requires ValidCalls(calls) && NothingUnwritten(calls)
    requires file == before + Written(calls) && |file| <= U64_MAX
    ensures ReplayChunks(StepsOf(|before|, calls), file) == Some(Outputs(calls))
    ensures Joined(Outputs(calls)) == Written(calls)
    decreases |calls|
  {
    if calls != [] {
      assert ValidCall(calls[0]);
      var rest := calls[1..];
      if calls[0].RecordOutput? {
        var bytes := calls[0].bytes;
        assert Written(calls) == bytes + Written(rest);
        Assoc(before, bytes, Written(rest));
        ChunksTile(before + bytes, rest, file);
        assert file[|before|..|before| + |bytes|] == bytes;
        StepsOfOutput(|before|, calls);
        ReplayFirst(|before|, |bytes|, StepsOf(|before + bytes|, rest), file);
        JoinedFirst(bytes, Outputs(rest));
      } else {
        ChunksTile(before, rest, file);
        StepsOfOther(|before|, calls, file);
      }
    }
  }

  lemma {:induction false} ChunkLengths(offset: u64, calls: seq<Call>, file: Bytes)
    requires ValidCalls(calls)
    ensures var chunks := ReplayChunks(StepsOf(offset, calls), file);
            chunks.Some? ==> |Joined(chunks.value)| == |Joined(Outputs(calls))|
    decreases |calls|
  {
    if calls != [] {
      assert ValidCall(calls[0]);
      var next := OffsetAfter(offset, calls[0]);
      ChunkLengths(next, calls[1..], file);
      if calls[0].RecordOutput? {
        var bytes := calls[0].bytes;
        StepsOfOutput(offset, calls);
        ReplayFirst(offset, |bytes|, StepsOf(next, calls[1..]), file);
        JoinedFirst(bytes, Outputs(calls[1..]));
        var rest := ReplayChunks(StepsOf(next, calls[1..]), file);
        if ReplayChunks(StepsOf(offset, calls), file).Some? {
          JoinedFirst(file[offset..offset + |bytes|], rest.value);
        }
      } else {
        StepsOfOther(offset, calls, file);
      }
    }
  }

  lemma {:induction false} UnwrittenMeansShorter(calls: seq<Call>)
    ensures |Written(calls)| <= |Joined(Outputs(calls))|
    ensures |Written(calls)| == |Joined(Outputs(calls))| <==> NothingUnwritten(calls)
  {
    if calls != [] {
      UnwrittenMeansShorter(calls[1..]);
      if calls[0].RecordOutput? {
        JoinedFirst(calls[0].bytes, Outputs(calls[1..]));
      }
    }
  }

  /** Replay sees exactly the recorded bytes if and only if every output was written whole. */
  lemma ReplaySeesRecordedBytesExactly(micros: nat, session: string, cols: u16, rows: u16, path: string, calls: seq<Call>)
    requires NoWhitespace(session) && NoWhitespace(path) && ValidCalls(calls)
    requires |Written(calls)| <= U64_MAX
    ensures var r := Recording(micros, session, cols, rows, path, calls);
            var plan := Parsed(r.events);
            && r.output == Written(calls)
            && plan.Ok?
            && var chunks := ReplayChunks(plan.value.steps, r.output);
            && (chunks.Some? && Joined(chunks.value) == r.output <==> NothingUnwritten(calls))
            && (NothingUnwritten(calls) ==> chunks == Some(Outputs(calls)))
  {
    RecordingParses(micros, session, cols, rows, path, calls);
    RecordingFile(Recorder([], StartLine(micros, session, cols, rows, path) + "\n", 0), calls);
    assert [] + Written(calls) == Written(calls);
    UnwrittenMeansShorter(calls);
    ChunkLengths(0, calls, Written(calls));
    if NothingUnwritten(calls) {
      ChunksTile([], calls, Written(calls));
    }
  }

  // ----- what the text of an event says -----

  /** The value of a lower-case hexadecimal digit. */
  function HexValue(c: char): int {
    if '0' <= c <= '9' then c as int - '0' as int
    else if 'a' <= c <= 'f' then c as int - 'a' as int + 10
    else -1
  }

  lemma HexDigitHasValue(d: nat)
    requires d < 16
    ensures HexValue("0123456789abcdef"[d]) == d
  {
  }

  /** The i-th pair of digits is `byte` in hexadecimal. */
  predicate IsHexAt(hex: string, i: nat, byte: u8) {
    && 2 * i + 1 < |hex|
    && HexValue(hex[2 * i]) >= 0 && HexValue(hex[2 * i + 1]) >= 0
    && HexValue(hex[2 * i]) * 16 + HexValue(hex[2 * i + 1]) == byte
  }

  lemma {:induction false} HexDigitsRead(bytes: Bytes, i: nat)
    ensures |HexDigits(bytes)| == 2 * |bytes|
    ensures i < |bytes| ==> IsHexAt(HexDigits(bytes), i, bytes[i])
  {
    if bytes != [] {
      var n := |bytes| - 1;
      var front := HexDigits(bytes[..n]);
      HexDigitsRead(bytes[..n], i);
      if i < n {
        assert bytes[..n][i] == bytes[i];
        assert HexDigits(bytes)[2 * i] == front[2 * i] && HexDigits(bytes)[2 * i + 1] == front[2 * i + 1];
      } else if i == n {
        HexDigitHasValue(bytes[n] / 16);
        HexDigitHasValue(bytes[n] % 16);
      }
    }
  }

  /** The hex of an event: two digits for each of the first 48 bytes, and three dots when there are more. */
  lemma HexReadsBack(bytes: Bytes)
    ensures var hex, n := HexPrefix(bytes, 48), if |bytes| <= 48 then |bytes| else 48;
            && |hex| == 2 * n + (if |bytes| <= 48 then 0 else 3)
            && (|bytes| > 48 ==> hex[96..] == "...")
            && forall i :: 0 <= i < n ==> IsHexAt(hex, i, bytes[i])
  {
    var n := Min(|bytes|, 48);
    HexDigitsRead(bytes[..n], 0);
    forall i | 0 <= i < n ensures IsHexAt(HexPrefix(bytes, 48), i, bytes[i]) {
      HexDigitsRead(bytes[..n], i);
    }
  }

  /** `prefix` is `key` and an equals sign; the key is a field that starts with neither `k` nor a digit. */
  predicate IsKey(key: string, prefix: string) {
    IsField(key) && key[0] != 'k' && !IsDigit(key[0]) && prefix == key + "="
  }

  /** An event with three keyed values. */
  lemma ThreeValues(micros: nat, kind: string, k1: string, p1: string, v1: string, k2: string, p2: string, v2: string,
                    k3: string, p3: string, v3: string)
    requires IsField(kind) && IsKey(k1, p1) && IsKey(k2, p2) && IsKey(k3, p3)
    requires NoWhitespace(v1) && NoWhitespace(v2) && NoWhitespace(v3)
    requires k1[0] != k2[0] && k1[0] != k3[0] && k2[0] != k3[0]
    ensures var line := EventLine(micros, kind, JoinedBySpace([p1 + v1, p2 + v2, p3 + v3]));
            && TraceValue(line, "kind") == Some(kind) && TraceValue(line, k1) == Some(v1)
            && TraceValue(line, k2) == Some(v2) && TraceValue(line, k3) == Some(v3)
  {
    var fields := [p1 + v1, p2 + v2, p3 + v3];
    KeyedIsField(p1, v1);
    KeyedIsField(p2, v2);
    KeyedIsField(p3, v3);
    SplitJoined(fields);
    EventValues(micros, kind, JoinedBySpace(fields), k1);
    EventValues(micros, kind, JoinedBySpace(fields), k2);
    EventValues(micros, kind, JoinedBySpace(fields), k3);
    var f1, f2 := fields[1..], fields[1..][1..];
    FindHits(fields, p1, v1);
    FindSkips(fields, p2);
    FindHits(f1, p2, v2);
    FindSkips(fields, p3);
    FindSkips(f1, p3);
    FindHits(f2, p3, v3);
  }

  lemma InputKeys()
    ensures IsField("input") && IsKey("source", "source=") && IsKey("len", "len=") && IsKey("hex", "hex=")
  {
    assert "source" + "=" == "source=" && "len" + "=" == "len=" && "hex" + "=" == "hex=";
  }

  /** An input is logged with its source, its length and its first bytes. */
  lemma InputIsLogged(micros: nat, source: string, bytes: Bytes)
    requires NoWhitespace(source)
    ensures var line := EventLine(micros, "input", InputDetail(source, bytes));
            && TraceValue(line, "kind") == Some("input") && TraceValue(line, "source") == Some(source)
            && TraceValue(line, "len") == Some(Decimal(|bytes|)) && TraceValue(line, "hex") == Some(HexPrefix(bytes, 48))
  {
    DecimalIsField(|bytes|);
    HexPrefixHasNoWhitespace(bytes, 48);
    InputKeys();
    ThreeValues(micros, "input", "source", "source=", source, "len", "len=", Decimal(|bytes|), "hex", "hex=", HexPrefix(bytes, 48));
  }

  /** An output is logged with its first bytes too. */
  lemma OutputIsLogged(micros: nat, offset: u64, bytes: Bytes)
    ensures TraceValue(EventLine(micros, "output", OutputDetail(offset, bytes)), "hex") == Some(HexPrefix(bytes, 48))
  {
    DecimalIsField(offset);
    DecimalIsField(|bytes|);
    HexPrefixHasNoWhitespace(bytes, 48);
    ThreeValues(micros, "output", "offset", "offset=", Decimal(offset), "len", "len=", Decimal(|bytes|), "hex", "hex=", HexPrefix(bytes, 48));
  }

  // ----- which texts are read as which events -----

  lemma LineValue(words: seq<string>, key: string)
    requires AreFields(words)
    ensures TraceValue(JoinedBySpace(words), key) == FindValue(words, key + "=")
  {
    SplitJoined(words);
  }

  /** A line of four fields: a time, a kind and two keyed values. */
  lemma TwoValues(time: string, kind: string, kindField: string, k1: string, p1: string, v1: string,
                  k2: string, p2: string, v2: string)
    requires IsField(time) && IsDigit(time[0]) && IsField(kind) && kindField == "kind=" + kind
    requires IsKey(k1, p1) && IsKey(k2, p2) && k1[0] != k2[0] && NoWhitespace(v1) && NoWhitespace(v2)
    ensures var line := JoinedBySpace([time, kindField, p1 + v1, p2 + v2]);
            && TraceValue(line, "kind") == Some(kind)
            && TraceValue(line, k1) == Some(v1) && TraceValue(line, k2) == Some(v2)
  {
    var words := [time, kindField, p1 + v1, p2 + v2];
    KeyedIsField("kind=", kind);
    KeyedIsField(p1, v1);
    KeyedIsField(p2, v2);
    LineValue(words, "kind");
    LineValue(words, k1);
    LineValue(words, k2);
    var f1, f2, f3 := words[1..], words[1..][1..], words[1..][1..][1..];
    assert "kind" + "=" == "kind=";
    FindSkips(words, "kind=");
    FindHits(f1, "kind=", kind);
    FindSkips(words, p1);
    FindSkips(f1, p1);
    FindHits(f2, p1, v1);
    FindSkips(words, p2);
    FindSkips(f1, p2);
    FindSkips(f2, p2);
    FindHits(f3, p2, v2);
  }

  /** A resize event gives its step if both sizes are 16-bit numbers, and names the first that is not. */
  lemma ResizeIsRead(p: Partial, time: string, cols: string, rows: string)
    requires IsField(time) && IsDigit(time[0]) && NoWhitespace(cols) && NoWhitespace(rows)
    ensures var c, r := ParseUnsigned(cols, 65535), ParseUnsigned(rows, 65535);
            ParseLine(p, JoinedBySpace([time, "kind=resize", "cols=" + cols, "rows=" + rows])) ==
            if c.None? then Err(Missing("resize", "cols"))
            else if r.None? then Err(Missing("resize", "rows"))
            else Ok(p.(steps := p.steps + [ResizeStep(c.value, r.value)]))
  {
    TwoValues(time, "resize", "kind=resize", "cols", "cols=", cols, "rows", "rows=", rows);
  }

  /** An output event likewise, with 64-bit numbers. */
  lemma OutputIsRead(p: Partial, time: string, offset: string, len: string)
    requires IsField(time) && IsDigit(time[0]) && NoWhitespace(offset) && NoWhitespace(len)
    ensures var o, n := ParseUnsigned(offset, 18446744073709551615), ParseUnsigned(len, 18446744073709551615);
            ParseLine(p, JoinedBySpace([time, "kind=output", "offset=" + offset, "len=" + len])) ==
            if o.None? then Err(Missing("output", "offset"))
            else if n.None? then Err(Missing("output", "len"))
            else Ok(p.(steps := p.steps + [OutputStep(o.value, n.value)]))
  {
    TwoValues(time, "output", "kind=output", "offset", "offset=", offset, "len", "len=", len);
  }

  /** A log without a start event has no plan, whatever else it holds. */
  lemma {:induction false} StartIsNeeded(p: Partial, lines: seq<string>)
    requires p.outputPath.None? && forall i :: 0 <= i < |lines| ==> TraceValue(lines[i], "kind") != Some("start")
    ensures ParseLines(p, lines).Ok? ==> Complete(ParseLines(p, lines).value) == Err(Missing("", "start event"))
    decreases |lines|
  {
    if lines != [] {
      var q := ParseLine(p, lines[0]);
      if q.Ok? { StartIsNeeded(q.value, lines[1..]); }
    }
  }
}
