/** Language Server Protocol framing: messages written with a header, and the loop that reads them back. */
module Framing {
  import opened Options
  import opened ByteText
  import opened Json
  import JsonParser
  import JsonPrinter
  import JsonRoundTrip

  /** "Content-Length: " */
  const CONTENT_LENGTH: Bytes :=
    [0x43, 0x6F, 0x6E, 0x74, 0x65, 0x6E, 0x74, 0x2D, 0x4C, 0x65, 0x6E, 0x67, 0x74, 0x68, 0x3A, 0x20]
  const HASH: Byte := 0x23
  const ULL := 0x1_0000_0000_0000_0000
  const LIMIT := 0x4000_0000

  // ---------------------------------------------------------------- numbers and lines

  function Decimal(n: nat): Bytes {
    (if n < 10 then [] else Decimal(n / 10)) + [0x30 + n % 10]
  }

  predicate IsTrimmed(c: Byte) { c == SPACE || 0x09 <= c <= 0x0D }

  function TrimFront(s: Bytes): Bytes {
    if s != [] && IsTrimmed(s[0]) then TrimFront(s[1..]) else s
  }

  function TrimBack(s: Bytes): Bytes {
    if s != [] && IsTrimmed(s[|s| - 1]) then TrimBack(s[..|s| - 1]) else s
  }

  function Trim(s: Bytes): Bytes { TrimBack(TrimFront(s)) }

  function DigitValue(c: Byte): Option<nat> {
    if 0x30 <= c <= 0x39 then Some(c as nat - 0x30)
    else if 0x61 <= c <= 0x7A then Some(c as nat - 0x61 + 10)
    else if 0x41 <= c <= 0x5A then Some(c as nat - 0x41 + 10)
    else None
  }

  /** The accumulator after the digits at the front of s; multiplication wraps, and stops where that is noticed. */
  function Digits(s: Bytes, radix: nat, acc: nat): nat
    requires radix > 0
    decreases |s|
  {
    if s == [] then acc
    else
      match DigitValue(s[0])
      case None => acc
      case Some(v) =>
        if v >= radix then acc
        else
          var w := (acc * radix + v) % ULL;
          if w / radix < acc then w else Digits(s[1..], radix, w)
  }

  /** The radix a prefix asks for, and what is left to read. */
  function AutoSense(s: Bytes): (r: (nat, Bytes))
    ensures r.0 > 0
  {
    if |s| >= 2 && s[0] == 0x30 && (s[1] == 0x78 || s[1] == 0x58) then (16, s[2..])
    else if |s| >= 2 && s[0] == 0x30 && (s[1] == 0x62 || s[1] == 0x42) then (2, s[2..])
    else if |s| >= 2 && s[0] == 0x30 && s[1] == 0x6F then (8, s[2..])
    else if |s| >= 2 && s[0] == 0x30 && 0x30 <= s[1] <= 0x39 then (8, s[1..])
    else (10, s)
  }

  /** What getAsUnsignedInteger leaves in its result: the old value for no text, and otherwise what it read before any
      error, which the loop does not look at. */
  function ReadUnsigned(s: Bytes, before: nat): nat {
    var (radix, digits) := AutoSense(s);
    if digits == [] then before else Digits(digits, radix, 0)
  }

  /** Where the first newline is, or the end. */
  function LineEnd(s: Bytes): (n: nat)
    ensures n <= |s| && (n < |s| ==> s[n] == NEWLINE) && forall i :: 0 <= i < n ==> s[i] != NEWLINE
  {
    if s == [] || s[0] == NEWLINE then 0 else 1 + LineEnd(s[1..])
  }

  // ---------------------------------------------------------------- reading, as a function of what is left

  /** What a header line does. */
  datatype Header = Skip | Length(text: Bytes) | End

  function HeaderOf(line: Bytes): Header {
    if line != [] && line[0] == HASH then Skip
    else if CONTENT_LENGTH <= line then Length(Trim(line[|CONTENT_LENGTH|..]))
    else if Trim(line) != [] then Skip
    else End
  }

  /** The stream after the headers, and the content length; `good` is false at the end of input. */
  datatype Headers = Headers(length: nat, rest: Bytes, good: bool)

  function ReadHeaders(s: Bytes, length: nat): (h: Headers)
    ensures |h.rest| <= |s| && (h.good ==> |h.rest| < |s|) && (!h.good ==> h.rest == [])
    decreases |s|
  {
    var n := LineEnd(s);
    var header := HeaderOf(s[..n]);
    var longer := if header.Length? then ReadUnsigned(header.text, length) else length;
    if n == |s| then Headers(longer, [], false)
    else if header.End? then Headers(longer, s[n + 1..], true)
    else ReadHeaders(s[n + 1..], longer)
  }

  /** istream::ignore takes a signed count. */
  function Ignored(length: nat, rest: Bytes): (n: nat)
    ensures n <= |rest|
  {
    if length >= ULL / 2 then 0 else if length <= |rest| then length else |rest|
  }

  /** A message that was dispatched, or text that is not JSON. */
  datatype Event = Call(message: Expr) | Unparsed(payload: Bytes)

  function EventOf(x: Numerals, payload: Bytes): Event {
    match Json.Parse(x, payload)
    case Success(e, _) => Call(e)
    case Failure(_, _) => Unparsed(payload)
  }

  /** The events of a session: `isDone` says after which of them the server is done. */
  function Serve(x: Numerals, isDone: seq<Event> -> bool, s: Bytes, events: seq<Event>): seq<Event>
    decreases |s|
  {
    var h := ReadHeaders(s, 0);
    if h.length > LIMIT then
      if !h.good || (h.length < ULL / 2 && h.length > |h.rest|) then events
      else Serve(x, isDone, h.rest[Ignored(h.length, h.rest)..], events)
    else if h.length > 0 then
      if h.length > |h.rest| then events
      else
        var more := events + [EventOf(x, h.rest[..h.length])];
        if isDone(more) then more else Serve(x, isDone, h.rest[h.length..], more)
    else if h.good then Serve(x, isDone, h.rest, events)
    else events
  }

  // ---------------------------------------------------------------- the stream and the loop

  class InputStream {
    const data: Bytes
    var pos: nat
    var eof: bool
    var fail: bool

    constructor (data: Bytes)
      ensures this.data == data && pos == 0 && !eof && !fail
    {
      this.data := data;
      pos, eof, fail := 0, false, false;
    }

    ghost predicate Valid()
      reads this
    {
      pos <= |data|
    }

    predicate Good()
      reads this
    {
      !eof && !fail
    }

    function Rest(): Bytes
      requires Valid()
      reads this
    {
      data[pos..]
    }

    /** std::getline: up to a newline, which is consumed, or to the end. */
    method GetLine() returns (line: Bytes)
      requires Valid() && Good()
      modifies this
      ensures Valid() && line == old(Rest())[..LineEnd(old(Rest()))]
      ensures Good() <==> LineEnd(old(Rest())) < |old(Rest())|
      ensures Good() ==> Rest() == old(Rest())[LineEnd(old(Rest())) + 1..]
      ensures !Good() ==> Rest() == []
    {
      var start := pos;
      while pos < |data| && data[pos] != NEWLINE
        invariant start <= pos <= |data| && Good()
        invariant LineEnd(data[start..]) == pos - start + LineEnd(data[pos..])
      {
        assert data[pos..][1..] == data[pos + 1..];
        pos := pos + 1;
      }
      line := data[start..pos];
      assert line == data[start..][..pos - start];
      if pos == |data| {
        eof := true;
        fail := line == [];
      } else {
        assert data[start..][pos - start + 1..] == data[pos + 1..];
        pos := pos + 1;
      }
    }

    method Ignore(count: nat)
      requires Valid()
      modifies this
      ensures Valid()
      ensures old(Good()) ==> Rest() == old(Rest())[Ignored(count, old(Rest()))..]
      ensures Good() <==> old(Good()) && (count >= ULL / 2 || count <= |old(Rest())|)
    {
      if !Good() {
        fail := true;
        return;
      }
      var n := Ignored(count, Rest());
      assert data[pos + n..] == data[pos..][n..];
      if count < ULL / 2 && count > |data| - pos { eof := true; }
      pos := pos + n;
    }

    /** Exactly `count` characters, or the stream fails. */
    method Read(count: nat) returns (buffer: Bytes)
      requires Valid()
      modifies this
      ensures Valid()
      ensures fail <==> !old(Good()) || count > |old(Rest())|
      ensures !fail ==> buffer == old(Rest())[..count] && Rest() == old(Rest())[count..] && Good()
    {
      if !Good() {
        buffer, fail := [], true;
        return;
      }
      if count > |data| - pos {
        buffer := data[pos..];
        pos, eof, fail := |data|, true, true;
        return;
      }
      buffer := data[pos..pos + count];
      assert buffer == data[pos..][..count] && data[pos + count..] == data[pos..][count..];
      pos := pos + count;
    }
  }

  lemma HeadersStep(s: Bytes, length: nat)
    ensures var n := LineEnd(s);
      var header := HeaderOf(s[..n]);
      var longer := if header.Length? then ReadUnsigned(header.text, length) else length;
      ReadHeaders(s, length) ==
        (if n == |s| then Headers(longer, [], false)
         else if header.End? then Headers(longer, s[n + 1..], true)
         else ReadHeaders(s[n + 1..], longer))
  {
  }

  method ReadHeaderBlock(input: InputStream) returns (contentLength: nat)
    requires input.Valid() && input.Good()
    modifies input
    ensures input.Valid()
    ensures Headers(contentLength, input.Rest(), input.Good()) == ReadHeaders(old(input.Rest()), 0)
  {
    hide ReadHeaders, Trim, ReadUnsigned;
    contentLength := 0;
    while input.Good()
      invariant input.Valid()
      invariant input.Good() ==> ReadHeaders(input.Rest(), contentLength) == ReadHeaders(old(input.Rest()), 0)
      invariant !input.Good() ==> Headers(contentLength, [], false) == ReadHeaders(old(input.Rest()), 0) && input.Rest() == []
      decreases input.Good(), |input.Rest()|
    {
      HeadersStep(input.Rest(), contentLength);
      var line := input.GetLine();
      if line != [] && line[0] == HASH {
        continue;
      }
      if CONTENT_LENGTH <= line {
        contentLength := ReadUnsigned(Trim(line[|CONTENT_LENGTH|..]), contentLength);
        continue;
      } else if Trim(line) != [] {
        continue;
      } else {
        break;
      }
    }
  }

  method RunLanguageServerLoop(x: Numerals, input: InputStream, isDone: seq<Event> -> bool) returns (events: seq<Event>)
    requires input.Valid()
    modifies input
    ensures events == if old(input.Good()) then Serve(x, isDone, old(input.Rest()), []) else []
  {
    events := [];
    while input.Good()
      invariant input.Valid()
      invariant input.Good() ==> old(input.Good())
      invariant input.Good() ==> Serve(x, isDone, input.Rest(), events) == Serve(x, isDone, old(input.Rest()), [])
      invariant !input.Good() ==> events == if old(input.Good()) then Serve(x, isDone, old(input.Rest()), []) else []
      decreases input.Good(), |input.Rest()|
    {
      var contentLength := ReadHeaderBlock(input);
      if contentLength > LIMIT {
        input.Ignore(contentLength);
        continue;
      }
      if contentLength > 0 {
        var json := input.Read(contentLength);
        if input.fail {
          break;
        }
        var doc := JsonParser.Parse(x, json);
        match doc {
          case Value(e) => events := events + [Call(e)];
          case Error(_) => events := events + [Unparsed(json)];
        }
        if isDone(events) {
          break;
        }
      }
    }
  }

  // ---------------------------------------------------------------- writing

  function Frame(payload: Bytes): Bytes {
    CONTENT_LENGTH + Decimal(|payload|) + [RETURN, NEWLINE, RETURN, NEWLINE] + payload
  }

  class JSONOutput {
    const x: Numerals
    const pretty: bool
    var outs: Bytes

    constructor (x: Numerals, pretty: bool)
      ensures this.x == x && this.pretty == pretty && outs == []
    {
      this.x, this.pretty, outs := x, pretty, [];
    }

    function Text(message: Expr): Bytes {
      Print(x, message, if pretty then Pretty(2) else Compact, 0)
    }

    method WriteMessage(message: Expr)
      modifies this
      ensures outs == old(outs) + Frame(Text(message))
      ensures var text := Print(x, message, if pretty then Pretty(2) else Compact, 0);
        outs == old(outs) + ([67, 111, 110, 116, 101, 110, 116, 45, 76, 101, 110, 103, 116, 104, 58, 32]
                             + Decimal(|text|) + [13, 10, 13, 10] + text)
    {
      var printer := new JsonPrinter.Printer(x, if pretty then Pretty(2) else Compact);
      printer.Print(message);
      var s := printer.out;
      assert [] + Text(message) == Text(message);
      outs := outs + (CONTENT_LENGTH + Decimal(|s|) + [RETURN, NEWLINE, RETURN, NEWLINE] + s);
    }
  }

  // ---------------------------------------------------------------- what is written is read

  /** One digit that neither ends the number nor wraps it. */
  lemma DigitStep(s: Bytes, radix: nat, acc: nat, v: nat, w: nat)
    requires s != [] && radix > 0 && DigitValue(s[0]) == Some(v) && v < radix
    requires w == acc * radix + v < ULL && w / radix == acc
    ensures Digits(s, radix, acc) == Digits(s[1..], radix, w)
  {
    assert w % ULL == w;
  }

  lemma DigitIsRead(acc: nat, v: nat, rest: Bytes)
    requires v < 10 && acc * 10 + v < ULL
    ensures Digits([0x30 + v] + rest, 10, acc) == Digits(rest, 10, acc * 10 + v)
  {
    hide Digits;
    var s := [0x30 + v] + rest;
    assert s[1..] == rest;
    DigitStep(s, 10, acc, v, acc * 10 + v);
  }

  lemma DecimalIs(n: nat)
    ensures Decimal(n) == (if n < 10 then [] else Decimal(n / 10)) + [0x30 + n % 10]
  {
  }

  lemma {:induction false} DecimalIsRead(n: nat, rest: Bytes)
    requires n < ULL
    ensures Digits(Decimal(n) + rest, 10, 0) == Digits(rest, 10, n)
    decreases n
  {
    hide Digits, Decimal;
    var d: Byte := 0x30 + n % 10;
    DecimalIs(n);
    if n < 10 {
      DigitIsRead(0, n, rest);
      assert [] + [d] == [d];
    } else {
      Reassociated(Decimal(n / 10), [d], rest);
      DecimalIsRead(n / 10, [d] + rest);
      DigitIsRead(n / 10, n % 10, rest);
    }
  }

  lemma {:induction false} DecimalDigits(n: nat)
    ensures Decimal(n) != [] && (n > 0 ==> Decimal(n)[0] != 0x30)
    ensures forall i :: 0 <= i < |Decimal(n)| ==> 0x30 <= Decimal(n)[i] <= 0x39
    decreases n
  {
    if n >= 10 { DecimalDigits(n / 10); }
  }

  lemma LengthIsRead(n: nat, before: nat)
    requires 0 < n < ULL
    ensures ReadUnsigned(Decimal(n), before) == n
  {
    DecimalDigits(n);
    DecimalIsRead(n, []);
    assert Decimal(n) + [] == Decimal(n);
  }

  lemma DecimalIsTrimmed(n: nat)
    ensures Trim(Decimal(n) + [RETURN]) == Decimal(n)
  {
    DecimalDigits(n);
    var d, s := Decimal(n), Decimal(n) + [RETURN];
    assert s[0] == d[0] && !IsTrimmed(d[0]) && TrimFront(s) == s;
    assert s[..|s| - 1] == d && !IsTrimmed(d[|d| - 1]);
    assert TrimBack(d) == d;
  }

  lemma {:induction false} LineEndIs(s: Bytes, n: nat)
    requires n < |s| && s[n] == NEWLINE && forall i :: 0 <= i < n ==> s[i] != NEWLINE
    ensures LineEnd(s) == n
    decreases n
  {
    if n > 0 { LineEndIs(s[1..], n - 1); }
  }

  lemma LengthLine(n: nat)
    ensures var line := CONTENT_LENGTH + (Decimal(n) + [RETURN]);
      HeaderOf(line) == Length(Decimal(n)) && forall i :: 0 <= i < |line| ==> line[i] != NEWLINE
  {
    DecimalDigits(n);
    DecimalIsTrimmed(n);
    var line := CONTENT_LENGTH + (Decimal(n) + [RETURN]);
    assert line[|CONTENT_LENGTH|..] == Decimal(n) + [RETURN];
    assert line[0] == CONTENT_LENGTH[0] == 0x43;
  }

  lemma EmptyLine()
    ensures HeaderOf([RETURN]) == End
  {
    assert [RETURN][1..] == [];
    assert TrimFront([RETURN]) == [];
    assert !(CONTENT_LENGTH <= [RETURN]);
  }

  lemma BreaksSplit(tail: Bytes)
    ensures [RETURN, NEWLINE, RETURN, NEWLINE] + tail == [RETURN] + ([NEWLINE] + ([RETURN] + ([NEWLINE] + tail)))
  {
  }

  lemma FrameLines(payload: Bytes, rest: Bytes)
    ensures Frame(payload) + rest
         == CONTENT_LENGTH + (Decimal(|payload|) + [RETURN]) + ([NEWLINE] + ([RETURN] + ([NEWLINE] + (payload + rest))))
  {
    HeadThenLines(CONTENT_LENGTH, Decimal(|payload|), [RETURN, NEWLINE, RETURN, NEWLINE], payload, rest);
    var tail := payload + rest;
    BreaksSplit(tail);
    JoinedLines(CONTENT_LENGTH, Decimal(|payload|), [RETURN], [NEWLINE] + ([RETURN] + ([NEWLINE] + tail)));
  }

  lemma HeadThenLines(a: Bytes, b: Bytes, c: Bytes, d: Bytes, e: Bytes)
    ensures a + b + c + d + e == a + b + (c + (d + e))
  {
    Reassociated(a + b + c, d, e);
    Reassociated(a + b, c, d + e);
  }

  lemma JoinedLines(a: Bytes, b: Bytes, c: Bytes, d: Bytes)
    ensures a + b + (c + d) == a + (b + c) + d
  {
    Reassociated(a + b, c, d);
    Reassociated(a, b, c);
  }

  lemma FrameHeadersAreRead(payload: Bytes, rest: Bytes)
    requires 0 < |payload| < ULL
    ensures ReadHeaders(Frame(payload) + rest, 0) == Headers(|payload|, payload + rest, true)
  {
    hide Frame, Decimal, ReadHeaders, HeaderOf, ReadUnsigned;
    var line := CONTENT_LENGTH + (Decimal(|payload|) + [RETURN]);
    var second := [RETURN] + ([NEWLINE] + (payload + rest));
    LengthLine(|payload|);
    LengthIsRead(|payload|, 0);
    EmptyLine();
    FrameLines(payload, rest);
    HeaderLineIsRead(Frame(payload) + rest, line, second, 0);
    HeaderLineIsRead(second, [RETURN], payload + rest, |payload|);
  }

  lemma HeaderLineIsRead(s: Bytes, line: Bytes, rest: Bytes, length: nat)
    requires s == line + ([NEWLINE] + rest) && forall i :: 0 <= i < |line| ==> line[i] != NEWLINE
    ensures ReadHeaders(s, length) ==
      match HeaderOf(line)
      case Skip => ReadHeaders(rest, length)
      case Length(text) => ReadHeaders(rest, ReadUnsigned(text, length))
      case End => Headers(length, rest, true)
  {
    hide HeaderOf, ReadUnsigned;
    LineEndIs(s, |line|);
    assert s[..|line|] == line && s[|line| + 1..] == rest;
  }

  function Frames(payloads: seq<Bytes>): Bytes {
    if payloads == [] then [] else Frame(payloads[0]) + Frames(payloads[1..])
  }

  /** The events of the payloads, up to the first after which the server is done. */
  function UntilDone(x: Numerals, isDone: seq<Event> -> bool, payloads: seq<Bytes>, events: seq<Event>): seq<Event> {
    if payloads == [] then events
    else
      var more := events + [EventOf(x, payloads[0])];
      if isDone(more) then more else UntilDone(x, isDone, payloads[1..], more)
  }

  /** Written messages are read back, every one of them and in order, until the server is done. */
  lemma {:induction false} FramesAreServed(x: Numerals, isDone: seq<Event> -> bool, payloads: seq<Bytes>,
                                           events: seq<Event>)
    requires forall i :: 0 <= i < |payloads| ==> 1 <= |payloads[i]| <= LIMIT
    ensures Serve(x, isDone, Frames(payloads), events) == UntilDone(x, isDone, payloads, events)
    decreases |payloads|
  {
    hide EventOf, Frame, ReadHeaders;
    if payloads == [] {
      NoHeaders();
    } else {
      var p, rest := payloads[0], Frames(payloads[1..]);
      FrameHeadersAreRead(p, rest);
      assert (p + rest)[..|p|] == p && (p + rest)[|p|..] == rest;
      FramesAreServed(x, isDone, payloads[1..], events + [EventOf(x, p)]);
    }
  }

  lemma NoHeaders()
    ensures ReadHeaders([], 0) == Headers(0, [], false)
  {
    assert HeaderOf([]) == End;
  }

  /** The calls for the messages, up to the first after which the server is done. */
  function CallsUntilDone(isDone: seq<Event> -> bool, messages: seq<Expr>, events: seq<Event>): seq<Event> {
    if messages == [] then events
    else
      var more := events + [Call(messages[0])];
      if isDone(more) then more else CallsUntilDone(isDone, messages[1..], more)
  }

  function Texts(x: Numerals, layout: Layout, messages: seq<Expr>): (r: seq<Bytes>)
    ensures |r| == |messages| && forall i :: 0 <= i < |r| ==> r[i] == Print(x, messages[i], layout, 0)
  {
    if messages == [] then [] else [Print(x, messages[0], layout, 0)] + Texts(x, layout, messages[1..])
  }

  /** From expression to expression: a peer that writes messages this way, in either layout, has exactly those messages
      dispatched. */
  lemma {:induction false} MessagesArriveIntact(x: Numerals, isDone: seq<Event> -> bool, layout: Layout,
                                                messages: seq<Expr>, events: seq<Event>)
    requires forall i :: 0 <= i < |messages| ==>
      JsonRoundTrip.Printable(x, messages[i]) && |Print(x, messages[i], layout, 0)| <= LIMIT
    ensures Serve(x, isDone, Frames(Texts(x, layout, messages)), events) == CallsUntilDone(isDone, messages, events)
    decreases |messages|
  {
    hide Serve, Frames, Print, JsonRoundTrip.Printable;
    var texts := Texts(x, layout, messages);
    forall i | 0 <= i < |texts| ensures 1 <= |texts[i]| <= LIMIT {
      JsonRoundTrip.PrintedStarts(x, messages[i], layout);
    }
    FramesAreServed(x, isDone, texts, events);
    TextsAreCalls(x, isDone, layout, messages, events);
  }

  lemma {:induction false} TextsAreCalls(x: Numerals, isDone: seq<Event> -> bool, layout: Layout,
                                         messages: seq<Expr>, events: seq<Event>)
    requires forall i :: 0 <= i < |messages| ==> JsonRoundTrip.Printable(x, messages[i])
    ensures UntilDone(x, isDone, Texts(x, layout, messages), events) == CallsUntilDone(isDone, messages, events)
    decreases |messages|
  {
    hide Print, JsonRoundTrip.Printable, Parse;
    if messages != [] {
      JsonRoundTrip.RoundTrip(x, messages[0], layout);
      assert Texts(x, layout, messages)[1..] == Texts(x, layout, messages[1..]);
      TextsAreCalls(x, isDone, layout, messages[1..], events + [Call(messages[0])]);
    }
  }
}
