/** The client's stdin filter: detach key, focus events, and escape sequences split across reads. */
module InputFilters {
  import opened Common

  const DETACH_KEY: u8 := 0x1c
  const ESC: u8 := 0x1b
  const BRACKET: u8 := 0x5b
  const FOCUS_IN: u8 := 0x49
  const FOCUS_OUT: u8 := 0x4f

  datatype Action = Forward(bytes: Bytes) | Detach | FocusIn

  // ----- what the bytes mean, independently of how they are read -----

  datatype Token = Plain(b: u8) | FocusGained | FocusLost | Detached

  datatype Scanned = Scanned(tokens: seq<Token>, carry: Bytes)

  function Prepend(front: seq<Token>, s: Scanned): Scanned {
    Scanned(front + s.tokens, s.carry)
  }

  /** The tokens that `raw` begins with and how many bytes they take: none while they are undecided. */
  function Lex(raw: Bytes): (r: (seq<Token>, nat))
    ensures r.1 <= |raw|
  {
    if raw == [] then ([], 0)
    else if raw[0] != ESC then ([Plain(raw[0])], 1)
    else if |raw| < 2 then ([], 0)
    else if raw[1] != BRACKET then ([Plain(raw[0]), Plain(raw[1])], 2)
    else if |raw| < 3 then ([], 0)
    else if raw[2] == FOCUS_IN then ([FocusGained], 3)
    else if raw[2] == FOCUS_OUT then ([FocusLost], 3)
    else ([Plain(raw[0])], 1)
  }

  /** Reads `raw` left to right; an escape sequence that may still become a focus event is carried over. */
  function Scan(raw: Bytes): Scanned {
    var (front, n) := Lex(raw);
    if n == 0 then Scanned([], raw) else Prepend(front, Scan(raw[n..]))
  }

  function TokenBytes(t: Token): Bytes {
    match t
    case Plain(b) => [b]
    case FocusGained => [ESC, BRACKET, FOCUS_IN]
    case FocusLost => [ESC, BRACKET, FOCUS_OUT]
    case Detached => [DETACH_KEY]
  }

  /** The input that the tokens stand for, focus events and the detach key written out again. */
  function Expand(tokens: seq<Token>): Bytes {
    if tokens == [] then [] else TokenBytes(tokens[0]) + Expand(tokens[1..])
  }

  function Plains(bytes: Bytes): seq<Token> {
    seq(|bytes|, i requires 0 <= i < |bytes| => Plain(bytes[i]))
  }

  /** The tokens the server gets to see: lost focus is dropped. */
  function Visible(tokens: seq<Token>): seq<Token> {
    if tokens == [] then []
    else (if tokens[0] == FocusLost then [] else [tokens[0]]) + Visible(tokens[1..])
  }

  lemma {:induction false} ExpandConcat(a: seq<Token>, b: seq<Token>)
    ensures Expand(a + b) == Expand(a) + Expand(b)
  {
    if a == [] {
      assert a + b == b;
    } else {
      TailOfConcat(a, b);
      ExpandConcat(a[1..], b);
      Assoc(TokenBytes(a[0]), Expand(a[1..]), Expand(b));
    }
  }

  lemma {:induction false} VisibleConcat(a: seq<Token>, b: seq<Token>)
    ensures Visible(a + b) == Visible(a) + Visible(b)
  {
    if a == [] {
      assert a + b == b;
    } else {
      TailOfConcat(a, b);
      VisibleConcat(a[1..], b);
      Assoc(if a[0] == FocusLost then [] else [a[0]], Visible(a[1..]), Visible(b));
    }
  }

  lemma {:induction false} ExpandPlains(bytes: Bytes)
    ensures Expand(Plains(bytes)) == bytes
  {
    if bytes != [] {
      assert Plains(bytes)[1..] == Plains(bytes[1..]);
      ExpandPlains(bytes[1..]);
    }
  }

  lemma {:induction false} VisiblePlains(bytes: Bytes)
    ensures Visible(Plains(bytes)) == Plains(bytes)
  {
    if bytes != [] {
      assert Plains(bytes)[1..] == Plains(bytes[1..]);
      VisiblePlains(bytes[1..]);
    }
  }

  predicate IsCarry(carry: Bytes) {
    carry == [] || carry == [ESC] || carry == [ESC, BRACKET]
  }

  lemma LexConserves(raw: Bytes)
    ensures Expand(Lex(raw).0) == raw[..Lex(raw).1]
    ensures Lex(raw).1 == 0 ==> IsCarry(raw)
    ensures NoneDetached(Lex(raw).0)
  {
    var (front, n) := Lex(raw);
    if |front| == 1 {
      ExpandOne(front[0]);
      assert front == [front[0]];
    } else if |front| == 2 {
      ExpandOne(front[0]);
      ExpandOne(front[1]);
      ExpandConcat([front[0]], [front[1]]);
      assert front == [front[0]] + [front[1]];
      assert raw[..n] == [raw[0]] + [raw[1]];
      assert front[1..] == [front[1]];
    }
  }

  lemma ExpandOne(t: Token)
    ensures Expand([t]) == TokenBytes(t)
    ensures NoneDetached([t]) == !t.Detached?
  {
    assert [t][1..] == [];
  }

  /** No token is a detach. */
  predicate NoneDetached(tokens: seq<Token>) {
    tokens == [] || (!tokens[0].Detached? && NoneDetached(tokens[1..]))
  }

  lemma {:induction false} NoneDetachedConcat(a: seq<Token>, b: seq<Token>)
    requires NoneDetached(a) && NoneDetached(b)
    ensures NoneDetached(a + b)
  {
    if a == [] {
      assert a + b == b;
    } else {
      TailOfConcat(a, b);
      NoneDetachedConcat(a[1..], b);
    }
  }

  lemma LexMore(a: Bytes, b: Bytes)
    requires Lex(a).1 > 0
    ensures Lex(a + b) == Lex(a)
  {
  }

  lemma ConservesStep(raw: Bytes, n: nat, front: seq<Token>, rest: Scanned)
    requires n <= |raw| && Expand(front) == raw[..n] && Expand(rest.tokens) + rest.carry == raw[n..]
    ensures Expand(front + rest.tokens) + rest.carry == raw
  {
    ExpandConcat(front, rest.tokens);
    Assoc(Expand(front), Expand(rest.tokens), rest.carry);
    assert raw[..n] + raw[n..] == raw;
  }

  /** Nothing is lost: focus events written out, followed by the carry, give back the input. */
  lemma {:induction false} ScanConserves(raw: Bytes)
    ensures Expand(Scan(raw).tokens) + Scan(raw).carry == raw
    ensures IsCarry(Scan(raw).carry)
    ensures NoneDetached(Scan(raw).tokens)
  {
    var (front, n) := Lex(raw);
    LexConserves(raw);
    if n > 0 {
      ScanConserves(raw[n..]);
      NoneDetachedConcat(front, Scan(raw[n..]).tokens);
      ConservesStep(raw, n, front, Scan(raw[n..]));
    } else {
      assert [] + raw == raw;
    }
  }

  lemma PrependAll(front: seq<Token>, s: seq<Token>, t: Scanned)
    ensures Prepend(front, Prepend(s, t)) == Prepend(front + s, t)
  {
    assert front + (s + t.tokens) == (front + s) + t.tokens;
  }

  /** Scanning in two pieces, carrying the undecided end of the first over, is scanning at once. */
  lemma {:induction false} ScanSplits(a: Bytes, b: Bytes)
    ensures Scan(a + b) == Prepend(Scan(a).tokens, Scan(Scan(a).carry + b))
  {
    var (front, n) := Lex(a);
    if n > 0 {
      LexMore(a, b);
      assert (a + b)[n..] == a[n..] + b;
      ScanSplits(a[n..], b);
      PrependAll(front, Scan(a[n..]).tokens, Scan(Scan(a[n..]).carry + b));
    }
  }

  // ----- one read -----

  function Flush(filtered: Bytes): seq<Action> {
    if filtered == [] then [] else [Forward(filtered)]
  }

  /** Adjacent plain bytes travel in one Forward; a lost focus does not split it. */
  function Group(tokens: seq<Token>, filtered: Bytes): seq<Action> {
    if tokens == [] then Flush(filtered)
    else match tokens[0]
      case Plain(b) => Group(tokens[1..], filtered + [b])
      case FocusGained => Flush(filtered) + [FocusIn] + Group(tokens[1..], [])
      case FocusLost => Group(tokens[1..], filtered)
      case Detached => Flush(filtered) + [Detach] + Group(tokens[1..], [])
  }

  function ActionTokens(a: Action): seq<Token> {
    match a
    case Forward(bytes) => Plains(bytes)
    case FocusIn => [FocusGained]
    case Detach => [Detached]
  }

  /** Actions, up to merging adjacent Forwards. */
  function Flatten(actions: seq<Action>): seq<Token> {
    if actions == [] then [] else ActionTokens(actions[0]) + Flatten(actions[1..])
  }

  lemma {:induction false} FlattenConcat(a: seq<Action>, b: seq<Action>)
    ensures Flatten(a + b) == Flatten(a) + Flatten(b)
  {
    if a == [] {
      assert a + b == b;
    } else {
      TailOfConcat(a, b);
      FlattenConcat(a[1..], b);
      Assoc(ActionTokens(a[0]), Flatten(a[1..]), Flatten(b));
    }
  }

  lemma FlattenFlush(filtered: Bytes)
    ensures Flatten(Flush(filtered)) == Plains(filtered)
  {
    if filtered != [] {
      assert Flush(filtered)[1..] == [];
    }
  }

  lemma FlattenCut(filtered: Bytes, cut: Action, rest: seq<Action>)
    ensures Flatten(Flush(filtered) + [cut] + rest) == Plains(filtered) + (ActionTokens(cut) + Flatten(rest))
  {
    FlattenConcat(Flush(filtered) + [cut], rest);
    FlattenConcat(Flush(filtered), [cut]);
    FlattenFlush(filtered);
    assert [cut][1..] == [];
    Assoc(Plains(filtered), ActionTokens(cut), Flatten(rest));
  }

  lemma PlainsConcat(a: Bytes, b: Bytes)
    ensures Plains(a + b) == Plains(a) + Plains(b)
  {
  }

  lemma {:induction false} FlattenGroup(tokens: seq<Token>, filtered: Bytes)
    ensures Flatten(Group(tokens, filtered)) == Plains(filtered) + Visible(tokens)
    decreases |tokens|
  {
    if tokens == [] {
      FlattenFlush(filtered);
      assert Plains(filtered) + [] == Plains(filtered);
    } else {
      var t, later := tokens[0], tokens[1..];
      match t {
        case Plain(b) =>
          FlattenGroup(later, filtered + [b]);
          PlainsConcat(filtered, [b]);
          assert Plains([b]) == [t];
          Assoc(Plains(filtered), [t], Visible(later));
        case FocusLost =>
          FlattenGroup(later, filtered);
          assert [] + Visible(later) == Visible(later);
        case _ =>
          var cut := if t.Detached? then Detach else FocusIn;
          FlattenGroup(later, []);
          assert Plains([]) + Visible(later) == Visible(later);
          FlattenCut(filtered, cut, Group(later, []));
          assert Group(tokens, filtered) == Flush(filtered) + [cut] + Group(later, []);
      }
    }
  }

  /** No empty Forward, and no two in a row. */
  predicate Merged(actions: seq<Action>) {
    && (forall i :: 0 <= i < |actions| ==> actions[i] != Forward([]))
    && (forall i :: 0 <= i < |actions| - 1 ==> !(actions[i].Forward? && actions[i + 1].Forward?))
  }

  lemma {:induction false} GroupMerges(tokens: seq<Token>, filtered: Bytes)
    ensures Merged(Group(tokens, filtered))
    decreases |tokens|
  {
    if tokens != [] {
      match tokens[0]
      case Plain(b) => GroupMerges(tokens[1..], filtered + [b]);
      case FocusLost => GroupMerges(tokens[1..], filtered);
      case _ => GroupMerges(tokens[1..], []);
    }
  }

  function FirstDetach(raw: Bytes): (pos: nat)
    ensures pos <= |raw|
    ensures pos < |raw| ==> raw[pos] == DETACH_KEY
    ensures forall k :: 0 <= k < pos ==> raw[k] != DETACH_KEY
  {
    if raw == [] || raw[0] == DETACH_KEY then 0 else 1 + FirstDetach(raw[1..])
  }

  predicate Detaches(raw: Bytes) {
    FirstDetach(raw) < |raw|
  }

  lemma {:induction false} FirstDetachConcat(a: Bytes, b: Bytes)
    ensures FirstDetach(a + b) == if Detaches(a) then FirstDetach(a) else |a| + FirstDetach(b)
  {
    if a == [] {
      assert a + b == b;
    } else if a[0] != DETACH_KEY {
      assert (a + b)[1..] == a[1..] + b;
      FirstDetachConcat(a[1..], b);
    }
  }

  datatype Processed = Processed(actions: seq<Action>, carry: Bytes)

  /** One call of the filter. With a detach byte in the buffer, the bytes before it are not filtered. */
  function ProcessRaw(raw: Bytes): Processed {
    if Detaches(raw) then Processed(Flush(raw[..FirstDetach(raw)]) + [Detach], [])
    else Processed(Group(Scan(raw).tokens, []), Scan(raw).carry)
  }

  class InputFilter {
    var carry: Bytes

    constructor ()
      ensures carry == []
    {
      carry := [];
    }

    method Process(input: Bytes) returns (actions: seq<Action>)
      modifies this
      ensures Processed(actions, carry) == ProcessRaw(old(carry) + input)
      ensures IsCarry(carry)
    {
      var raw := input;
      if carry != [] {
        raw := carry + input;
        carry := [];
      }
      assert raw == old(carry) + input;
      var pos := FirstDetach(raw);
      if pos < |raw| {
        actions := [];
        if pos > 0 {
          actions := actions + [Forward(raw[..pos])];
        }
        actions := actions + [Detach];
        return;
      }
      actions, carry := FilterFocusEvents(raw);
      ScanConserves(raw);
    }

    method FlushCarry() returns (actions: seq<Action>)
      modifies this
      ensures carry == [] && actions == Flush(old(carry))
    {
      actions := Flush(carry);
      carry := [];
    }
  }

  /** The filtering loop over one buffer without the detach key. */
  method FilterFocusEvents(raw: Bytes) returns (actions: seq<Action>, carry: Bytes)
    ensures actions == Group(Scan(raw).tokens, []) && carry == Scan(raw).carry
  {
    actions := [];
    var filtered: Bytes := [];
    var i := 0;
    assert raw[0..] == raw && [] + Pending(raw, 0, []).0 == Pending(raw, 0, []).0;
    while i < |raw|
      invariant 0 <= i <= |raw|
      invariant Pending(raw, 0, []) == (actions + Pending(raw, i, filtered).0, Pending(raw, i, filtered).1)
    {
      PendingTurn(raw, i, filtered);
      if raw[i] != ESC {
        filtered := filtered + [raw[i]];
        i := i + 1;
        continue;
      }
      var remaining := |raw| - i;
      if remaining < 2 {
        actions := actions + Flush(filtered);
        return actions, raw[i..];
      }
      if raw[i + 1] != BRACKET {
        filtered := filtered + [raw[i], raw[i + 1]];
        i := i + 2;
        continue;
      }
      if remaining < 3 {
        actions := actions + Flush(filtered);
        return actions, raw[i..];
      }
      if raw[i + 2] == FOCUS_IN {
        Assoc(actions, Flush(filtered) + [FocusIn], Pending(raw, i + 3, []).0);
        actions := actions + (Flush(filtered) + [FocusIn]);
        filtered := [];
        i := i + 3;
        continue;
      }
      if raw[i + 2] == FOCUS_OUT {
        i := i + 3;
        continue;
      }
      filtered := filtered + [raw[i]];
      i := i + 1;
    }
    actions := actions + Flush(filtered);
    carry := [];
  }

  lemma GroupOne(t: Token, later: seq<Token>, filtered: Bytes)
    ensures Group([t] + later, filtered) ==
            match t {
              case Plain(b) => Group(later, filtered + [b])
              case FocusGained => Flush(filtered) + [FocusIn] + Group(later, [])
              case FocusLost => Group(later, filtered)
              case Detached => Flush(filtered) + [Detach] + Group(later, [])
            }
  {
    assert ([t] + later)[1..] == later;
  }

  lemma GroupTwo(a: u8, b: u8, later: seq<Token>, filtered: Bytes)
    ensures Group([Plain(a), Plain(b)] + later, filtered) == Group(later, filtered + [a, b])
  {
    assert [Plain(a), Plain(b)] + later == [Plain(a)] + ([Plain(b)] + later);
    GroupOne(Plain(a), [Plain(b)] + later, filtered);
    GroupOne(Plain(b), later, filtered + [a]);
    assert filtered + [a] + [b] == filtered + [a, b];
  }

  /** How grouping proceeds by one step of the scan. */
  lemma GroupStep(rest: Bytes, filtered: Bytes)
    ensures var (front, n) := Lex(rest);
            var g, later := Group(Scan(rest).tokens, filtered), Scan(rest[n..]).tokens;
            if n == 0 then g == Flush(filtered)
            else if front[0] == FocusGained then g == Flush(filtered) + [FocusIn] + Group(later, [])
            else if front[0] == FocusLost then g == Group(later, filtered)
            else if n == 1 then g == Group(later, filtered + [rest[0]])
            else g == Group(later, filtered + [rest[0], rest[1]])
  {
    var (front, n) := Lex(rest);
    if n == 1 || n == 3 {
      GroupOne(front[0], Scan(rest[n..]).tokens, filtered);
    } else if n == 2 {
      GroupTwo(rest[0], rest[1], Scan(rest[n..]).tokens, filtered);
    }
  }

  /** What is left to send and to carry from position `i` on, with `filtered` not flushed yet. */
  function Pending(raw: Bytes, i: nat, filtered: Bytes): (seq<Action>, Bytes)
    requires i <= |raw|
  {
    (Group(Scan(raw[i..]).tokens, filtered), Scan(raw[i..]).carry)
  }

  /** One turn of the filtering loop, at position `i` of the buffer. */
  lemma PendingTurn(raw: Bytes, i: nat, filtered: Bytes)
    requires i < |raw|
    ensures var left := |raw| - i;
            Pending(raw, i, filtered) ==
            if raw[i] != ESC then Pending(raw, i + 1, filtered + [raw[i]])
            else if left < 2 then (Flush(filtered), raw[i..])
            else if raw[i + 1] != BRACKET then Pending(raw, i + 2, filtered + [raw[i], raw[i + 1]])
            else if left < 3 then (Flush(filtered), raw[i..])
            else if raw[i + 2] == FOCUS_IN then
              (Flush(filtered) + [FocusIn] + Pending(raw, i + 3, []).0, Pending(raw, i + 3, []).1)
            else if raw[i + 2] == FOCUS_OUT then Pending(raw, i + 3, filtered)
            else Pending(raw, i + 1, filtered + [raw[i]])
  {
    var rest := raw[i..];
    var n := Lex(rest).1;
    GroupStep(rest, filtered);
    assert rest[n..] == raw[i + n..];
  }

  // ----- a whole session of reads -----

  /** Everything sent for a list of reads: up to the detach, or to the end of input and the final flush. */
  function Session(carry: Bytes, chunks: seq<Bytes>): seq<Action>
    decreases |chunks|
  {
    if chunks == [] then Flush(carry)
    else
      var p := ProcessRaw(carry + chunks[0]);
      if Detaches(carry + chunks[0]) then p.actions else p.actions + Session(p.carry, chunks[1..])
  }

  lemma SessionRead(carry: Bytes, chunks: seq<Bytes>, i: nat, p: Processed)
    requires i < |chunks| && p == ProcessRaw(carry + chunks[i])
    ensures Session(carry, chunks[i..]) ==
            if Detaches(carry + chunks[i]) then p.actions else p.actions + Session(p.carry, chunks[i + 1..])
  {
    assert chunks[i..][1..] == chunks[i + 1..];
  }

  method RunStdinToSocket(chunks: seq<Bytes>) returns (sent: seq<Action>)
    ensures sent == Session([], chunks)
  {
    var filter := new InputFilter();
    sent := [];
    var i := 0;
    while i < |chunks|
      invariant 0 <= i <= |chunks|
      invariant Session([], chunks) == sent + Session(filter.carry, chunks[i..])
    {
      ghost var carry, before := filter.carry, sent;
      DetachIsLast(carry + chunks[i]);
      var actions := filter.Process(chunks[i]);
      SessionRead(carry, chunks, i, Processed(actions, filter.carry));
      sent := sent + actions;
      if actions != [] && actions[|actions| - 1] == Detach {
        return;
      }
      Assoc(before, actions, Session(filter.carry, chunks[i + 1..]));
      i := i + 1;
    }
    var rest := filter.FlushCarry();
    sent := sent + rest;
  }

  /** The filter says Detach exactly when the key is in the buffer, and then says nothing after it. */
  lemma DetachIsLast(raw: Bytes)
    ensures var actions := ProcessRaw(raw).actions;
            && (Detaches(raw) ==> actions != [] && actions[|actions| - 1] == Detach)
            && (forall i :: 0 <= i < |actions| && actions[i] == Detach ==> Detaches(raw) && i == |actions| - 1)
  {
    if !Detaches(raw) {
      ScanConserves(raw);
      NoDetachGrouped(Scan(raw).tokens, []);
    }
  }

  lemma {:induction false} NoDetachGrouped(tokens: seq<Token>, filtered: Bytes)
    requires NoneDetached(tokens)
    ensures forall i :: 0 <= i < |Group(tokens, filtered)| ==> Group(tokens, filtered)[i] != Detach
    decreases |tokens|
  {
    if tokens != [] {
      NoDetachGrouped(tokens[1..], if tokens[0].Plain? then filtered + [tokens[0].b] else if tokens[0].FocusLost? then filtered else []);
    }
  }

  /** What each read was taken to mean, lost focus included. */
  function ReadTokens(raw: Bytes): seq<Token> {
    if Detaches(raw) then Plains(raw[..FirstDetach(raw)]) + [Detached] else Scan(raw).tokens
  }

  function SessionTokens(carry: Bytes, chunks: seq<Bytes>): seq<Token>
    decreases |chunks|
  {
    if chunks == [] then Plains(carry)
    else if Detaches(carry + chunks[0]) then ReadTokens(carry + chunks[0])
    else ReadTokens(carry + chunks[0]) + SessionTokens(Scan(carry + chunks[0]).carry, chunks[1..])
  }

  lemma ReadSends(raw: Bytes)
    ensures Flatten(ProcessRaw(raw).actions) == Visible(ReadTokens(raw))
  {
    if Detaches(raw) {
      var front := raw[..FirstDetach(raw)];
      FlattenCut(front, Detach, []);
      assert Flush(front) + [Detach] + [] == Flush(front) + [Detach];
      VisibleConcat(Plains(front), [Detached]);
      VisiblePlains(front);
      assert [Detached][1..] == [];
    } else {
      FlattenGroup(Scan(raw).tokens, []);
    }
  }

  /** What is sent is what the reads were taken to mean, except lost focus. */
  lemma {:induction false} SessionSends(carry: Bytes, chunks: seq<Bytes>)
    ensures Flatten(Session(carry, chunks)) == Visible(SessionTokens(carry, chunks))
    decreases |chunks|
  {
    if chunks == [] {
      FlattenFlush(carry);
      VisiblePlains(carry);
    } else {
      var p := ProcessRaw(carry + chunks[0]);
      ReadSends(carry + chunks[0]);
      if !Detaches(carry + chunks[0]) {
        SessionSends(p.carry, chunks[1..]);
        FlattenConcat(p.actions, Session(p.carry, chunks[1..]));
        VisibleConcat(ReadTokens(carry + chunks[0]), SessionTokens(p.carry, chunks[1..]));
      }
    }
  }

  lemma NoDetachAfterSplit(raw: Bytes, later: Bytes)
    requires !Detaches(raw + later)
    ensures !Detaches(raw) && !Detaches(Scan(raw).carry + later)
  {
    var s := Scan(raw);
    ScanConserves(raw);
    FirstDetachConcat(raw, later);
    Assoc(Expand(s.tokens), s.carry, later);
    FirstDetachConcat(Expand(s.tokens), s.carry + later);
  }

  /** Without the detach key, chopping the input does not change what the bytes are taken to mean. */
  lemma {:induction false} TokensIgnoreChopping(carry: Bytes, chunks: seq<Bytes>)
    requires IsCarry(carry) && !Detaches(carry + Joined(chunks))
    ensures var s := Scan(carry + Joined(chunks)); SessionTokens(carry, chunks) == s.tokens + Plains(s.carry)
    decreases |chunks|
  {
    if chunks == [] {
      assert carry + [] == carry;
      CarryScansToItself(carry);
    } else {
      var raw, later := carry + chunks[0], Joined(chunks[1..]);
      Assoc(carry, chunks[0], later);
      NoDetachAfterSplit(raw, later);
      ScanConserves(raw);
      ScanSplits(raw, later);
      var s, t := Scan(raw), Scan(Scan(raw).carry + later);
      TokensIgnoreChopping(s.carry, chunks[1..]);
      Assoc(s.tokens, t.tokens, Plains(t.carry));
    }
  }

  lemma CarryScansToItself(carry: Bytes)
    requires IsCarry(carry)
    ensures Scan(carry) == Scanned([], carry)
  {
  }

  /**
    * Without the detach key, what is sent, the final flush included, depends on the bytes only: it is
    * what one call on the whole input and the flush would send, up to merging adjacent Forwards.
    */
  lemma SessionIgnoresChopping(chunks: seq<Bytes>)
    requires !Detaches(Joined(chunks))
    ensures Flatten(Session([], chunks)) == Flatten(Session([], [Joined(chunks)]))
  {
    var one: seq<Bytes> := [Joined(chunks)];
    assert one[1..] == [];
    assert Joined(one) == Joined(chunks);
    assert [] + Joined(chunks) == Joined(chunks);
    TokensIgnoreChopping([], chunks);
    TokensIgnoreChopping([], one);
    SessionSends([], chunks);
    SessionSends([], one);
  }

  /** The input up to and including the first detach key; all of it when there is none. */
  function UpToDetach(input: Bytes): Bytes {
    if Detaches(input) then input[..FirstDetach(input) + 1] else input
  }

  lemma UpToDetachConcat(a: Bytes, b: Bytes)
    ensures UpToDetach(a + b) == if Detaches(a) then UpToDetach(a) else a + UpToDetach(b)
  {
    FirstDetachConcat(a, b);
    if Detaches(a) {
      assert (a + b)[..FirstDetach(a) + 1] == a[..FirstDetach(a) + 1];
    } else if Detaches(b) {
      assert (a + b)[..|a| + FirstDetach(b) + 1] == a + b[..FirstDetach(b) + 1];
    }
  }

  lemma UpToDetachAfterScan(raw: Bytes, later: Bytes)
    requires !Detaches(raw)
    ensures UpToDetach(raw + later) == Expand(Scan(raw).tokens) + UpToDetach(Scan(raw).carry + later)
  {
    var s := Scan(raw);
    ScanConserves(raw);
    CarryHasNoDetach(s.carry);
    UpToDetachConcat(raw, later);
    UpToDetachConcat(s.carry, later);
    Assoc(Expand(s.tokens), s.carry, UpToDetach(later));
  }

  /**
    * Conservation over every stream and every chopping: what the reads were taken to mean, focus events
    * written out, is the input up to the first detach key.
    */
  lemma {:induction false} SessionConserves(carry: Bytes, chunks: seq<Bytes>)
    requires IsCarry(carry)
    ensures Expand(SessionTokens(carry, chunks)) == UpToDetach(carry + Joined(chunks))
    decreases |chunks|
  {
    if chunks == [] {
      assert carry + [] == carry;
      ExpandPlains(carry);
      CarryHasNoDetach(carry);
    } else {
      var raw, later := carry + chunks[0], Joined(chunks[1..]);
      Assoc(carry, chunks[0], later);
      if Detaches(raw) {
        UpToDetachConcat(raw, later);
        ReadConserves(raw);
      } else {
        ScanConserves(raw);
        UpToDetachAfterScan(raw, later);
        SessionConserves(Scan(raw).carry, chunks[1..]);
        ExpandConcat(Scan(raw).tokens, SessionTokens(Scan(raw).carry, chunks[1..]));
      }
    }
  }

  /**
    * Both halves of a session at once: some reading of the input is all that was sent, save lost focus, and
    * written out it is the input up to the first detach key.
    */
  lemma SessionAccounts(chunks: seq<Bytes>) returns (tokens: seq<Token>)
    ensures Visible(tokens) == Flatten(Session([], chunks))
    ensures Expand(tokens) == UpToDetach(Joined(chunks))
  {
    tokens := SessionTokens([], chunks);
    SessionSends([], chunks);
    SessionConserves([], chunks);
    assert [] + Joined(chunks) == Joined(chunks);
  }

  lemma CarryHasNoDetach(carry: Bytes)
    requires IsCarry(carry)
    ensures !Detaches(carry)
  {
  }

  lemma ReadConserves(raw: Bytes)
    requires Detaches(raw)
    ensures Expand(ReadTokens(raw)) == UpToDetach(raw)
  {
    var pos := FirstDetach(raw);
    ExpandConcat(Plains(raw[..pos]), [Detached]);
    ExpandPlains(raw[..pos]);
    ExpandOne(Detached);
    assert raw[..pos] + [DETACH_KEY] == raw[..pos + 1];
  }

  // ----- when the detach key shares a buffer with focus events -----

  predicate HasFocusEvent(tokens: seq<Token>) {
    tokens != [] && (tokens[0].FocusGained? || tokens[0].FocusLost? || HasFocusEvent(tokens[1..]))
  }

  lemma {:induction false} FocusEventsShorten(tokens: seq<Token>)
    ensures |Visible(tokens)| <= |Expand(tokens)|
    ensures HasFocusEvent(tokens) ==> |Visible(tokens)| < |Expand(tokens)|
    ensures !HasFocusEvent(tokens) && NoneDetached(tokens) ==> Visible(tokens) == Plains(Expand(tokens))
  {
    if tokens != [] {
      FocusEventsShorten(tokens[1..]);
      if tokens[0].Plain? {
        assert Plains([tokens[0].b] + Expand(tokens[1..])) == [tokens[0]] + Plains(Expand(tokens[1..]));
      }
    }
  }

  /** What the server would see had the bytes before the detach key been filtered. */
  function FilteredThenDetached(front: Bytes): seq<Token> {
    Visible(Scan(front).tokens) + Plains(Scan(front).carry) + [Detached]
  }

  /**
    * A buffer holding the detach key is sent as filtering the bytes before the key would send them if
    * and only if the scan finds no focus event in those bytes.
    */
  lemma DetachBufferIsFilteredExactly(raw: Bytes)
    requires Detaches(raw)
    ensures var front := raw[..FirstDetach(raw)];
            Flatten(ProcessRaw(raw).actions) == FilteredThenDetached(front) <==> !HasFocusEvent(Scan(front).tokens)
  {
    var front := raw[..FirstDetach(raw)];
    ReadSends(raw);
    VisibleConcat(Plains(front), [Detached]);
    VisiblePlains(front);
    assert Visible([Detached]) == [Detached] by { assert [Detached][1..] == []; }
    FilteringShortens(front);
    if !HasFocusEvent(Scan(front).tokens) {
      assert FilteredThenDetached(front) == Plains(front) + [Detached];
    }
  }

  lemma FilteringShortens(front: Bytes)
    ensures var s := Scan(front);
            if HasFocusEvent(s.tokens) then |Visible(s.tokens) + Plains(s.carry)| < |front|
            else Visible(s.tokens) + Plains(s.carry) == Plains(front)
  {
    var s := Scan(front);
    ScanConserves(front);
    FocusEventsShorten(s.tokens);
    PlainsConcat(Expand(s.tokens), s.carry);
  }

  /** A focus event in one buffer with the detach key is sent as it came. */
  lemma FocusBeforeDetachIsSentRaw()
    ensures var raw := [ESC, BRACKET, FOCUS_IN, DETACH_KEY];
            && Flatten(ProcessRaw(raw).actions) == Plains([ESC, BRACKET, FOCUS_IN]) + [Detached]
            && FilteredThenDetached(raw[..FirstDetach(raw)]) == [FocusGained, Detached]
  {
    var raw := [ESC, BRACKET, FOCUS_IN, DETACH_KEY];
    var front := [ESC, BRACKET, FOCUS_IN];
    assert raw == front + [DETACH_KEY];
    FirstDetachConcat(front, [DETACH_KEY]);
    assert raw[..3] == front;
    ReadSends(raw);
    VisibleConcat(Plains(front), [Detached]);
    VisiblePlains(front);
    assert [Detached][1..] == [] && front[3..] == [];
    assert Scan(front) == Scanned([FocusGained], []);
    assert Visible([FocusGained]) == [FocusGained] by { assert [FocusGained][1..] == []; }
    assert Plains([]) == [];
  }

  // ----- which bytes are read as focus events -----

  predicate HasNoEscape(bytes: Bytes) {
    forall i :: 0 <= i < |bytes| ==> bytes[i] != ESC
  }

  lemma {:induction false} TextScans(text: Bytes, more: Bytes)
    requires HasNoEscape(text)
    ensures Scan(text + more) == Prepend(Plains(text), Scan(more))
  {
    if text == [] {
      assert text + more == more;
      assert [] + Scan(more).tokens == Scan(more).tokens;
    } else {
      TailOfConcat(text, more);
      TextScans(text[1..], more);
      PrependAll([Plain(text[0])], Plains(text[1..]), Scan(more));
      assert [Plain(text[0])] + Plains(text[1..]) == Plains(text);
    }
  }

  /** A focus event is ESC [ I or ESC [ O. */
  lemma FocusScans(more: Bytes)
    ensures Scan([ESC, BRACKET, 0x49] + more) == Prepend([FocusGained], Scan(more))
    ensures Scan([ESC, BRACKET, 0x4f] + more) == Prepend([FocusLost], Scan(more))
  {
    var gained, lost := [ESC, BRACKET, 0x49] + more, [ESC, BRACKET, 0x4f] + more;
    assert gained[3..] == more && lost[3..] == more;
  }

  /** Any other byte after an ESC, a second ESC included, is taken together with it. */
  lemma OtherEscapeScans(next: u8, more: Bytes)
    requires next != BRACKET
    ensures Scan([ESC, next] + more) == Prepend([Plain(ESC), Plain(next)], Scan(more))
  {
    var raw := [ESC, next] + more;
    assert raw[2..] == more;
  }

  /** Any other control sequence is plain up to its bracket. */
  lemma OtherControlScans(last: u8, more: Bytes)
    requires last != 0x49 && last != 0x4f
    ensures Scan([ESC] + ([BRACKET] + ([last] + more))) == Prepend([Plain(ESC), Plain(BRACKET)], Scan([last] + more))
  {
    var rest := [last] + more;
    var raw := [ESC] + ([BRACKET] + rest);
    TailOfConcat([ESC], [BRACKET] + rest);
    TailOfConcat([BRACKET], rest);
    assert [] + rest == rest && [] + ([BRACKET] + rest) == [BRACKET] + rest;
    assert raw[1] == BRACKET && raw[2] == last;
    PrependAll([Plain(ESC)], [Plain(BRACKET)], Scan(rest));
    assert [Plain(ESC)] + [Plain(BRACKET)] == [Plain(ESC), Plain(BRACKET)];
  }

  /** A focus event, with text on either side, in one read. */
  lemma FocusIsRecognised(text: Bytes, more: Bytes)
    requires HasNoEscape(text) && HasNoEscape(more)
    ensures Scan(text + ([ESC, BRACKET, 0x49] + more)) == Scanned(Plains(text) + ([FocusGained] + Plains(more)), [])
    ensures Scan(text + ([ESC, BRACKET, 0x4f] + more)) == Scanned(Plains(text) + ([FocusLost] + Plains(more)), [])
  {
    TextScans(more, []);
    assert more + [] == more && Plains(more) + [] == Plains(more);
    FocusScans(more);
    TextScans(text, [ESC, BRACKET, 0x49] + more);
    TextScans(text, [ESC, BRACKET, 0x4f] + more);
  }

  lemma {:induction false} GroupPlains(bytes: Bytes, later: seq<Token>, filtered: Bytes)
    ensures Group(Plains(bytes) + later, filtered) == Group(later, filtered + bytes)
    decreases |bytes|
  {
    if bytes == [] {
      assert Plains(bytes) + later == later && filtered + bytes == filtered;
    } else {
      TailOfConcat(Plains(bytes), later);
      assert Plains(bytes)[1..] == Plains(bytes[1..]);
      GroupPlains(bytes[1..], later, filtered + [bytes[0]]);
      Assoc(filtered, [bytes[0]], bytes[1..]);
      assert [bytes[0]] + bytes[1..] == bytes;
    }
  }

  /** Gaining the focus is announced between the text before and after; losing it is dropped without a trace. */
  lemma FocusIsAnnounced(text: Bytes, more: Bytes)
    requires HasNoEscape(text) && HasNoEscape(more) && !Detaches(text) && !Detaches(more)
    ensures ProcessRaw(text + ([ESC, BRACKET, 0x49] + more)) == Processed(Flush(text) + [FocusIn] + Flush(more), [])
    ensures ProcessRaw(text + ([ESC, BRACKET, 0x4f] + more)) == Processed(Flush(text + more), [])
  {
    FocusIsRecognised(text, more);
    NoDetachAround(text, [ESC, BRACKET, 0x49], more);
    NoDetachAround(text, [ESC, BRACKET, 0x4f], more);
    GroupAroundGained(text, more);
    GroupAroundLost(text, more);
  }

  lemma GroupAroundGained(text: Bytes, more: Bytes)
    ensures Group(Plains(text) + ([FocusGained] + Plains(more)), []) == Flush(text) + [FocusIn] + Flush(more)
  {
    var later := [FocusGained] + Plains(more);
    GroupPlains(text, later, []);
    GroupEnds(more, []);
    assert [] + more == more && [] + text == text && later[1..] == Plains(more);
  }

  lemma GroupAroundLost(text: Bytes, more: Bytes)
    ensures Group(Plains(text) + ([FocusLost] + Plains(more)), []) == Flush(text + more)
  {
    var later := [FocusLost] + Plains(more);
    GroupPlains(text, later, []);
    GroupEnds(more, text);
    assert [] + text == text && later[1..] == Plains(more);
  }

  lemma GroupEnds(bytes: Bytes, filtered: Bytes)
    ensures Group(Plains(bytes), filtered) == Flush(filtered + bytes)
  {
    GroupPlains(bytes, [], filtered);
    assert Plains(bytes) + [] == Plains(bytes);
  }

  lemma NoDetachAround(text: Bytes, sequence: Bytes, more: Bytes)
    requires !Detaches(text) && !Detaches(more) && |sequence| == 3
    requires sequence[0] != DETACH_KEY && sequence[1] != DETACH_KEY && sequence[2] != DETACH_KEY
    ensures !Detaches(text + (sequence + more))
  {
    var pos := FirstDetach(text + (sequence + more));
    FirstDetachConcat(text, sequence + more);
    FirstDetachConcat(sequence, more);
  }
}
