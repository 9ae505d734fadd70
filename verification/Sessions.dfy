/** Whole sessions as a client may write them: any headers in any order, comments, lengths in any radix,
    messages that are too large or have no length, and a last one that is cut short. */
module Sessions {
  import opened Options
  import opened ByteText
  import opened Json
  import opened Framing

  // ---------------------------------------------------------------- numerals

  /** How a number is introduced: not at all, by 0x or 0X, 0b or 0B, 0o, or another leading zero. */
  datatype Base = Ten | Hex(capital: bool) | Binary(capital: bool) | Octal | ZeroOctal

  function Radix(base: Base): nat {
    match base
    case Ten => 10
    case Hex(_) => 16
    case Binary(_) => 2
    case _ => 8
  }

  function Prefix(base: Base): Bytes {
    match base
    case Ten => []
    case Hex(capital) => [0x30, if capital then 0x58 else 0x78]
    case Binary(capital) => [0x30, if capital then 0x42 else 0x62]
    case Octal => [0x30, 0x6F]
    case ZeroOctal => [0x30]
  }

  /** 0 to 9, then letters of either case. */
  function Worth(c: Byte): nat {
    if 48 <= c <= 57 then c - 48 else if 97 <= c <= 102 then c - 87 else if 65 <= c <= 70 then c - 55 else 99
  }

  predicate DigitsOf(base: Base, digits: Bytes) {
    && digits != [] && (forall i :: 0 <= i < |digits| ==> Worth(digits[i]) < Radix(base))
    && (base.Ten? ==> |digits| == 1 || digits[0] != 0x30)
  }

  /** Positional notation, most significant digit first. */
  function Positional(digits: Bytes, radix: nat): nat {
    if digits == [] then 0 else Positional(digits[..|digits| - 1], radix) * radix + Worth(digits[|digits| - 1])
  }

  function Continued(acc: nat, digits: Bytes, radix: nat): nat
    decreases |digits|
  {
    if digits == [] then acc else Continued(acc * radix + Worth(digits[0]), digits[1..], radix)
  }

  lemma {:induction false} ContinuedSnoc(acc: nat, digits: Bytes, c: Byte, radix: nat)
    ensures Continued(acc, digits + [c], radix) == Continued(acc, digits, radix) * radix + Worth(c)
    decreases |digits|
  {
    var longer := digits + [c];
    if digits == [] {
      assert longer[1..] == [];
    } else {
      assert longer[1..] == digits[1..] + [c] && longer[0] == digits[0];
      ContinuedSnoc(acc * radix + Worth(digits[0]), digits[1..], c, radix);
    }
  }

  lemma {:induction false} ContinuedIsPositional(digits: Bytes, radix: nat)
    ensures Continued(0, digits, radix) == Positional(digits, radix)
  {
    if digits != [] {
      var n := |digits| - 1;
      ContinuedIsPositional(digits[..n], radix);
      ContinuedSnoc(0, digits[..n], digits[n], radix);
      assert digits == digits[..n] + [digits[n]];
    }
  }

  lemma {:induction false} ContinuedGrows(acc: nat, digits: Bytes, radix: nat)
    requires radix > 0
    ensures acc <= Continued(acc, digits, radix)
    decreases |digits|
  {
    if digits != [] {
      ContinuedGrows(acc * radix + Worth(digits[0]), digits[1..], radix);
      assert acc <= acc * radix;
    }
  }

  lemma AtLeastOnce(k: int, n: int)
    requires k >= 1 && n >= 0
    ensures k * n >= n
  {
  }

  lemma QuotientOfStep(acc: nat, radix: nat, v: nat)
    requires v < radix
    ensures (acc * radix + v) / radix == acc
  {
    var a := acc * radix + v;
    var q, r := a / radix, a % radix;
    assert a == q * radix + r;
    assert (q - acc) * radix == v - r && (acc - q) * radix == r - v;
    if q > acc {
      AtLeastOnce(q - acc, radix);
    } else if q < acc {
      AtLeastOnce(acc - q, radix);
    }
  }

  lemma NoDigitIsRead(acc: nat, radix: nat)
    requires radix > 0
    ensures Digits([], radix, acc) == acc
  {
  }

  lemma {:induction false} DigitsAreRead(acc: nat, digits: Bytes, radix: nat)
    requires 0 < radix <= 16 && (forall i :: 0 <= i < |digits| ==> Worth(digits[i]) < radix)
    requires Continued(acc, digits, radix) < 0x1_0000_0000_0000_0000
    ensures Digits(digits, radix, acc) == Continued(acc, digits, radix)
    decreases |digits|
  {
    if digits == [] {
      NoDigitIsRead(acc, radix);
    } else {
      hide Digits;
      var v := Worth(digits[0]);
      var w := acc * radix + v;
      assert DigitValue(digits[0]) == Some(v);
      ContinuedGrows(w, digits[1..], radix);
      QuotientOfStep(acc, radix, v);
      DigitStep(digits, radix, acc, v, w);
      DigitsAreRead(w, digits[1..], radix);
    }
  }

  lemma PrefixIsSensed(base: Base, digits: Bytes)
    requires DigitsOf(base, digits)
    ensures AutoSense(Prefix(base) + digits) == (Radix(base), digits)
  {
    var s := Prefix(base) + digits;
    assert |Prefix(base)| == 2 ==> s[0] == Prefix(base)[0] && s[1] == Prefix(base)[1] && s[2..] == digits;
    assert base.ZeroOctal? ==> s[0] == 0x30 && s[1] == digits[0] && s[1..] == digits;
    assert base.Ten? ==> s == digits;
  }

  /** A number below 2^64 is read in every radix. */
  lemma NumeralIsRead(base: Base, digits: Bytes, before: nat)
    requires DigitsOf(base, digits) && Positional(digits, Radix(base)) < 0x1_0000_0000_0000_0000
    ensures ReadUnsigned(Prefix(base) + digits, before) == Positional(digits, Radix(base))
  {
    hide AutoSense, Digits, Positional, Continued;
    PrefixIsSensed(base, digits);
    ContinuedIsPositional(digits, Radix(base));
    DigitsAreRead(0, digits, Radix(base));
  }

  // ---------------------------------------------------------------- header lines

  /** Space, tab, line feed, vertical tab, form feed and carriage return. */
  predicate Trimmable(c: Byte) { c == 0x20 || 9 <= c <= 13 }

  predicate AllTrimmable(s: Bytes) { forall i :: 0 <= i < |s| ==> Trimmable(s[i]) }

  lemma {:induction false} FrontIsTrimmed(before: Bytes, s: Bytes)
    requires AllTrimmable(before)
    ensures TrimFront(before + s) == TrimFront(s)
    decreases |before|
  {
    if before == [] {
      assert before + s == s;
    } else {
      assert (before + s)[1..] == before[1..] + s;
      FrontIsTrimmed(before[1..], s);
    }
  }

  lemma {:induction false} BackIsTrimmed(s: Bytes, after: Bytes)
    requires AllTrimmable(after)
    ensures TrimBack(s + after) == TrimBack(s)
    decreases |after|
  {
    if after == [] {
      assert s + after == s;
    } else {
      var n := |after| - 1;
      assert (s + after)[..|s + after| - 1] == s + after[..n];
      BackIsTrimmed(s, after[..n]);
    }
  }

  lemma TrimIs(before: Bytes, core: Bytes, after: Bytes)
    requires AllTrimmable(before) && AllTrimmable(after)
    requires core == [] || (!Trimmable(core[0]) && !Trimmable(core[|core| - 1]))
    ensures Trim(before + (core + after)) == core
  {
    FrontIsTrimmed(before, core + after);
    if core == [] {
      assert core + after == after + [];
      FrontIsTrimmed(after, []);
    } else {
      assert TrimFront(core + after) == core + after;
      BackIsTrimmed(core, after);
      assert TrimBack(core) == core;
    }
  }

  const LENGTH_NAME: Bytes := [67, 111, 110, 116, 101, 110, 116, 45, 76, 101, 110, 103, 116, 104, 58, 32]

  /** A line that starts with #, a header that is ignored, or "Content-Length: " and a number. */
  datatype Line =
    | Comment(text: Bytes)
    | Other(text: Bytes)
    | LengthLine(before: Bytes, base: Base, digits: Bytes, after: Bytes)

  function LineText(line: Line): Bytes {
    match line
    case Comment(text) => [0x23] + text
    case Other(text) => text
    case LengthLine(before, base, digits, after) => LENGTH_NAME + (before + ((Prefix(base) + digits) + after))
  }

  predicate OneLine(text: Bytes) { forall i :: 0 <= i < |text| ==> text[i] != 0x0A }

  predicate LineFits(line: Line) {
    && OneLine(LineText(line))
    && match line
       case Comment(_) => true
       case Other(text) => !AllTrimmable(text) && text[0] != 0x23 && !(LENGTH_NAME <= text)
       case LengthLine(before, base, digits, after) =>
         && AllTrimmable(before) && AllTrimmable(after) && DigitsOf(base, digits)
         && Positional(digits, Radix(base)) < 0x1_0000_0000_0000_0000
  }

  lemma {:induction false} SomethingIsLeft(s: Bytes)
    requires !AllTrimmable(s)
    ensures TrimFront(s) != [] && !Trimmable(TrimFront(s)[0])
    decreases |s|
  {
    if Trimmable(s[0]) {
      assert exists i :: 0 <= i < |s| && !Trimmable(s[i]);
      var i :| 0 <= i < |s| && !Trimmable(s[i]);
      assert s[1..][i - 1] == s[i];
      SomethingIsLeft(s[1..]);
    }
  }

  lemma {:induction false} FirstIsKept(s: Bytes)
    requires s != [] && !Trimmable(s[0])
    ensures TrimBack(s) != []
    decreases |s|
  {
    if Trimmable(s[|s| - 1]) {
      FirstIsKept(s[..|s| - 1]);
    }
  }

  lemma WorthIsNoSpace(base: Base, digits: Bytes)
    requires DigitsOf(base, digits)
    ensures var text := Prefix(base) + digits; text != [] && !Trimmable(text[0]) && !Trimmable(text[|text| - 1])
  {
    assert Worth(digits[0]) < 99 && Worth(digits[|digits| - 1]) < 99;
  }

  lemma NameOfLength()
    ensures LENGTH_NAME == CONTENT_LENGTH
  {
  }

  lemma LineMeans(line: Line)
    requires LineFits(line)
    ensures HeaderOf(LineText(line)) ==
      if line.LengthLine? then Length(Prefix(line.base) + line.digits) else Skip
  {
    hide DigitsOf, Prefix, TrimFront, TrimBack;
    var text := LineText(line);
    NameOfLength();
    match line
    case Comment(_) => assert text[0] == 0x23;
    case Other(_) =>
      SomethingIsLeft(text);
      FirstIsKept(TrimFront(text));
    case LengthLine(before, base, digits, after) =>
      WorthIsNoSpace(base, digits);
      assert text[..|LENGTH_NAME|] == LENGTH_NAME && text[0] == LENGTH_NAME[0] == 67;
      assert text[|LENGTH_NAME|..] == before + ((Prefix(base) + digits) + after);
      TrimIs(before, Prefix(base) + digits, after);
  }

  lemma BlankLineMeans(blank: Bytes)
    requires AllTrimmable(blank)
    ensures HeaderOf(blank) == End
  {
    hide TrimFront, TrimBack;
    NameOfLength();
    TrimIs(blank, [], []);
    assert blank + ([] + []) == blank;
    assert blank != [] ==> Trimmable(blank[0]) && blank[0] != LENGTH_NAME[0];
  }

  function Lines(lines: seq<Line>): Bytes {
    if lines == [] then [] else LineText(lines[0]) + ([0x0A] + Lines(lines[1..]))
  }

  /** The last length given counts. */
  function LengthGiven(lines: seq<Line>, before: nat): nat {
    if lines == [] then before
    else
      var last := lines[|lines| - 1];
      if last.LengthLine? then Positional(last.digits, Radix(last.base)) else LengthGiven(lines[..|lines| - 1], before)
  }

  lemma {:induction false} LengthOfFirst(lines: seq<Line>, before: nat)
    requires lines != []
    ensures LengthGiven(lines, before) ==
      LengthGiven(lines[1..], if lines[0].LengthLine? then Positional(lines[0].digits, Radix(lines[0].base)) else before)
    decreases |lines|
  {
    var n := |lines| - 1;
    if n > 0 && !lines[n].LengthLine? {
      LengthOfFirst(lines[..n], before);
      assert lines[..n][1..] == lines[1..][..n - 1];
    }
  }

  /** However the headers are written, the block is left after the blank line, with the last length. */
  lemma {:induction false} HeadersAreRead(lines: seq<Line>, blank: Bytes, rest: Bytes, length: nat)
    requires (forall i :: 0 <= i < |lines| ==> LineFits(lines[i])) && AllTrimmable(blank) && OneLine(blank)
    ensures ReadHeaders(Lines(lines) + (blank + ([0x0A] + rest)), length) == Headers(LengthGiven(lines, length), rest, true)
    decreases |lines|
  {
    hide HeaderOf, ReadHeaders, ReadUnsigned, LineText, Positional, LengthGiven;
    var tail := blank + ([0x0A] + rest);
    if lines == [] {
      assert Lines(lines) + tail == tail;
      BlankLineMeans(blank);
      HeaderLineIsRead(tail, blank, rest, length);
      NoLines(length);
    } else {
      var line, more := lines[0], Lines(lines[1..]);
      assert LineFits(line);
      LineMeans(line);
      if line.LengthLine? {
        NumeralIsRead(line.base, line.digits, length);
      }
      LengthOfFirst(lines, length);
      Reassociated(LineText(line), [0x0A] + more, tail);
      Reassociated([0x0A], more, tail);
      HeaderLineIsRead(Lines(lines) + tail, LineText(line), more + tail, length);
      HeadersAreRead(lines[1..], blank, rest,
                     if line.LengthLine? then Positional(line.digits, Radix(line.base)) else length);
    }
  }

  lemma NoLines(length: nat)
    ensures LengthGiven([], length) == length
  {
  }

  // ---------------------------------------------------------------- sessions

  /** A header block, its blank line and as many bytes as the length says. */
  datatype Message = Message(lines: seq<Line>, blank: Bytes, payload: Bytes)

  predicate HeaderFits(m: Message) {
    (forall i :: 0 <= i < |m.lines| ==> LineFits(m.lines[i])) && AllTrimmable(m.blank) && OneLine(m.blank)
  }

  predicate MessageFits(m: Message) {
    HeaderFits(m) && LengthGiven(m.lines, 0) == |m.payload| < 0x8000_0000_0000_0000
  }

  function MessageText(m: Message): Bytes {
    Lines(m.lines) + (m.blank + ([0x0A] + m.payload))
  }

  function SessionText(ms: seq<Message>): Bytes {
    if ms == [] then [] else MessageText(ms[0]) + SessionText(ms[1..])
  }

  /** Payloads of 1 byte to 2^30 are dispatched, one after the other, until the server is done; larger
      ones are skipped, and nothing is dispatched for a message without a length or of length zero. */
  function Answered(x: Numerals, isDone: seq<Event> -> bool, ms: seq<Message>, events: seq<Event>): seq<Event> {
    if ms == [] then events
    else if 1 <= |ms[0].payload| <= 0x4000_0000 then
      var more := events + [match Parse(x, ms[0].payload)
                            case Success(e, _) => Call(e)
                            case Failure(_, _) => Unparsed(ms[0].payload)];
      if isDone(more) then more else Answered(x, isDone, ms[1..], more)
    else Answered(x, isDone, ms[1..], events)
  }

  lemma MessageHeaderIsRead(m: Message, rest: Bytes)
    requires HeaderFits(m)
    ensures ReadHeaders(MessageText(m) + rest, 0) == Headers(LengthGiven(m.lines, 0), m.payload + rest, true)
  {
    hide ReadHeaders, Lines, LengthGiven;
    HeadersAreRead(m.lines, m.blank, m.payload + rest, 0);
    Reassociated(Lines(m.lines), m.blank + ([0x0A] + m.payload), rest);
    Reassociated(m.blank, [0x0A] + m.payload, rest);
    Reassociated([0x0A], m.payload, rest);
  }

  /** What the loop makes of one message. */
  lemma MessageIsServed(x: Numerals, isDone: seq<Event> -> bool, m: Message, rest: Bytes, events: seq<Event>)
    requires MessageFits(m)
    ensures var more := events + [EventOf(x, m.payload)];
      Serve(x, isDone, MessageText(m) + rest, events) ==
        if 1 <= |m.payload| <= 0x4000_0000 then (if isDone(more) then more else Serve(x, isDone, rest, more))
        else Serve(x, isDone, rest, events)
  {
    hide ReadHeaders, MessageText, EventOf;
    MessageHeaderIsRead(m, rest);
    var n := |m.payload|;
    assert (m.payload + rest)[..n] == m.payload && (m.payload + rest)[n..] == rest;
  }

  /** At the end of input, or in the middle of a message that is not too large, the loop ends. */
  predicate Ending(m: Message) {
    HeaderFits(m) && |m.payload| < LengthGiven(m.lines, 0) <= 0x4000_0000
  }

  lemma EndIsServed(x: Numerals, isDone: seq<Event> -> bool, events: seq<Event>)
    ensures Serve(x, isDone, [], events) == events
  {
    NoHeaders();
  }

  lemma EndingIsServed(x: Numerals, isDone: seq<Event> -> bool, m: Message, events: seq<Event>)
    requires Ending(m)
    ensures Serve(x, isDone, MessageText(m), events) == events
  {
    hide ReadHeaders, MessageText;
    MessageHeaderIsRead(m, []);
    assert MessageText(m) + [] == MessageText(m) && m.payload + [] == m.payload;
  }

  /** Every session is answered: whatever headers, comments and radices the client uses, and wherever
      the input ends. */
  lemma {:induction false} SessionsAreAnswered(x: Numerals, isDone: seq<Event> -> bool, ms: seq<Message>, cut: Option<Message>,
                                               events: seq<Event>)
    requires forall i :: 0 <= i < |ms| ==> MessageFits(ms[i])
    requires cut.Some? ==> Ending(cut.value)
    ensures Serve(x, isDone, SessionText(ms) + (if cut.Some? then MessageText(cut.value) else []), events)
         == Answered(x, isDone, ms, events)
    decreases |ms|
  {
    hide Serve, MessageText, MessageFits, Ending;
    var tail := if cut.Some? then MessageText(cut.value) else [];
    if ms == [] {
      assert SessionText(ms) + tail == tail;
      if cut.Some? {
        EndingIsServed(x, isDone, cut.value, events);
      } else {
        EndIsServed(x, isDone, events);
      }
    } else {
      var more := events + [EventOf(x, ms[0].payload)];
      Reassociated(MessageText(ms[0]), SessionText(ms[1..]), tail);
      MessageIsServed(x, isDone, ms[0], SessionText(ms[1..]) + tail, events);
      if 1 <= |ms[0].payload| <= 0x4000_0000 {
        if !isDone(more) {
          SessionsAreAnswered(x, isDone, ms[1..], cut, more);
        }
      } else {
        SessionsAreAnswered(x, isDone, ms[1..], cut, events);
      }
    }
  }
}
