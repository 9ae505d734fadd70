/** Every way to spell a string in JSON, section 7 of RFC 8259, and that the parser reads each of them. */
module JsonStrings {
  import opened Options
  import opened ByteText
  import opened Json
  import opened JsonText
  import opened JsonUnicode

  // ---------------------------------------------------------------- spellings

  /** A byte as it is, a backslash and one letter, or \u and four hexadecimal digits. */
  datatype Spelling =
    | Plain(c: Byte)
    | Short(letter: Byte)
    | Unit(a: Byte, b: Byte, c: Byte, d: Byte)

  predicate HexChar(c: Byte) { 48 <= c <= 57 || 65 <= c <= 70 || 97 <= c <= 102 }

  predicate Allowed(s: Spelling) {
    match s
    case Plain(c) => c >= 0x20 && c != 0x22 && c != 0x5C
    case Short(e) => e in {0x22, 0x5C, 0x2F, 0x62, 0x66, 0x6E, 0x72, 0x74}
    case Unit(a, b, c, d) => HexChar(a) && HexChar(b) && HexChar(c) && HexChar(d)
  }

  function Spelled(s: Spelling): Bytes {
    match s
    case Plain(c) => [c]
    case Short(e) => [0x5C, e]
    case Unit(a, b, c, d) => [0x5C, 0x75, a, b, c, d]
  }

  function SpelledAll(ts: seq<Spelling>): Bytes {
    if ts == [] then [] else Spelled(ts[0]) + SpelledAll(ts[1..])
  }

  predicate AllAllowed(ts: seq<Spelling>) { forall i :: 0 <= i < |ts| ==> Allowed(ts[i]) }

  // ---------------------------------------------------------------- what they mean

  /** Backspace, form feed, line feed, carriage return and tab; the others stand for themselves. */
  function ShortMeans(e: Byte): Byte {
    if e == 0x62 then 0x08 else if e == 0x66 then 0x0C else if e == 0x6E then 0x0A
    else if e == 0x72 then 0x0D else if e == 0x74 then 0x09 else e
  }

  function DigitValue(c: Byte): (v: nat)
    requires HexChar(c)
    ensures v < 16
  {
    if c <= 57 then c - 48 else if c <= 70 then c - 55 else c - 87
  }

  function UnitValue(s: Spelling): (v: nat)
    requires s.Unit? && Allowed(s)
    ensures v < 0x10000
  {
    4096 * DigitValue(s.a) + 256 * DigitValue(s.b) + 16 * DigitValue(s.c) + DigitValue(s.d)
  }

  /** What a string spelt like this holds: lone surrogates become U+FFFD. */
  function Meaning(ts: seq<Spelling>): Bytes
    requires AllAllowed(ts)
    decreases |ts|
  {
    if ts == [] then []
    else match ts[0]
      case Plain(c) => [c] + Meaning(ts[1..])
      case Short(e) => [ShortMeans(e)] + Meaning(ts[1..])
      case Unit(_, _, _, _) =>
        var v := UnitValue(ts[0]);
        if Leading(v) && |ts| > 1 && ts[1].Unit? && Trailing(UnitValue(ts[1])) then
          EncodeUtf8(AsWritten(v, UnitValue(ts[1]))) + Meaning(ts[2..])
        else
          EncodeUtf8(if Leading(v) || Trailing(v) then 0xFFFD else v) + Meaning(ts[1..])
  }

  // ---------------------------------------------------------------- every spelling is read

  lemma UnitIsParsed(doc: Bytes, p: nat, s: Spelling)
    requires s.Unit? && At(doc, p, [s.a, s.b, s.c, s.d])
    ensures Parse4Hex(doc, p) == if Allowed(s) then Success(UnitValue(s), p + 4) else Failure("Invalid \\u escape sequence", p + 4)
  {
    var text := [s.a, s.b, s.c, s.d];
    AtByte(doc, p, text, 0);
    AtByte(doc, p, text, 1);
    AtByte(doc, p, text, 2);
    AtByte(doc, p, text, 3);
  }

  lemma SpelledSplit(ts: seq<Spelling>)
    requires ts != []
    ensures SpelledAll(ts) + [0x22] == Spelled(ts[0]) + (SpelledAll(ts[1..]) + [0x22])
  {
  }

  lemma NextSpelling(doc: Bytes, p: nat, ts: seq<Spelling>)
    requires ts != [] && At(doc, p, SpelledAll(ts) + [0x22])
    ensures At(doc, p, Spelled(ts[0])) && At(doc, p + |Spelled(ts[0])|, SpelledAll(ts[1..]) + [0x22])
  {
    SpelledSplit(ts);
    AtParts(doc, p, Spelled(ts[0]), SpelledAll(ts[1..]) + [0x22]);
  }

  /** Where the escape \u stands at p and where it does not. */
  lemma StartsWithUnit(doc: Bytes, p: nat, ts: seq<Spelling>)
    requires AllAllowed(ts) && At(doc, p, SpelledAll(ts) + [0x22])
    ensures p < |doc|
    ensures (ts != [] && ts[0].Unit?) <==> p + 2 <= |doc| && doc[p] == 0x5C && doc[p + 1] == 0x75
    ensures ts != [] && ts[0].Unit? ==> At(doc, p + 2, [ts[0].a, ts[0].b, ts[0].c, ts[0].d])
  {
    if ts == [] {
      AtByte(doc, p, SpelledAll(ts) + [0x22], 0);
    } else {
      var head := Spelled(ts[0]);
      NextSpelling(doc, p, ts);
      AtByte(doc, p, head, 0);
      if !ts[0].Plain? {
        AtByte(doc, p, head, 1);
      }
      if ts[0].Unit? {
        assert head == [0x5C, 0x75] + [ts[0].a, ts[0].b, ts[0].c, ts[0].d];
        AtParts(doc, p, [0x5C, 0x75], [ts[0].a, ts[0].b, ts[0].c, ts[0].d]);
      }
    }
  }

  /** One turn of the loop over the characters of a string. */
  lemma CharacterIsRead(doc: Bytes, p: nat, s: Spelling, out: Bytes)
    requires Allowed(s) && At(doc, p, Spelled(s)) && p + |Spelled(s)| < |doc|
    ensures s.Plain? ==> ParseString(doc, p, out) == ParseString(doc, p + 1, out + [s.c])
    ensures s.Short? ==> ParseString(doc, p, out) == ParseString(doc, p + 2, out + [ShortMeans(s.letter)])
    ensures s.Unit? ==>
      var read := Surrogates(doc, UnitValue(s), p + 6, out);
      ParseString(doc, p, out) ==
        if read.Failure? then Failure(read.message, read.at) else ParseString(doc, read.pos, read.value)
  {
    hide Parse4Hex, Surrogates;
    AtByte(doc, p, Spelled(s), 0);
    assert Next(doc, p) == (doc[p], p + 1);
    if !s.Plain? {
      AtByte(doc, p, Spelled(s), 1);
      assert Next(doc, p + 1) == (doc[p + 1], p + 2);
      if s.Unit? {
        assert Spelled(s) == [0x5C, 0x75] + [s.a, s.b, s.c, s.d];
        AtParts(doc, p, [0x5C, 0x75], [s.a, s.b, s.c, s.d]);
        UnitIsParsed(doc, p + 2, s);
      }
    }
  }

  lemma StringEnds(doc: Bytes, p: nat, out: Bytes)
    requires At(doc, p, SpelledAll([]) + [0x22])
    ensures ParseString(doc, p, out) == Success(out, p + 1)
  {
    AtByte(doc, p, SpelledAll([]) + [0x22], 0);
  }

  /** Every allowed spelling is read, whatever it stands for, up to the closing quote. */
  lemma {:induction false} SpellingIsRead(doc: Bytes, p: nat, ts: seq<Spelling>, out: Bytes)
    requires AllAllowed(ts) && At(doc, p, SpelledAll(ts) + [0x22])
    ensures ParseString(doc, p, out) == Success(out + Meaning(ts), p + |SpelledAll(ts)| + 1)
    decreases |ts|, 0
  {
    hide At, Spelled, Allowed, ParseString, Surrogates, EncodeUtf8, ShortMeans;
    if ts == [] {
      StringEnds(doc, p, out);
      assert out + Meaning(ts) == out;
    } else {
      var s, rest := ts[0], ts[1..];
      assert AllAllowed(rest);
      NextSpelling(doc, p, ts);
      var q := p + |Spelled(s)|;
      StartsWithUnit(doc, q, rest);
      CharacterIsRead(doc, p, s, out);
      SpelledLength(s);
      if s.Unit? {
        FirstUnitIsRead(doc, s, q, rest, out);
        assert [s] + rest == ts;
      } else {
        var c := if s.Plain? then s.c else ShortMeans(s.letter);
        SpellingIsRead(doc, q, rest, out + [c]);
        Reassociated(out, [c], Meaning(rest));
      }
    }
  }

  lemma SpelledLength(s: Spelling)
    ensures |Spelled(s)| == if s.Plain? then 1 else if s.Short? then 2 else 6
  {
  }

  /** From a unit just read: surrogate handling may read several of the units after it. */
  lemma {:induction false} FirstUnitIsRead(doc: Bytes, s: Spelling, p: nat, rest: seq<Spelling>, out: Bytes)
    requires s.Unit? && Allowed(s) && AllAllowed(rest) && At(doc, p, SpelledAll(rest) + [0x22])
    ensures Surrogates(doc, UnitValue(s), p, out).Success?
    ensures var read := Surrogates(doc, UnitValue(s), p, out);
      ParseString(doc, read.pos, read.value) == Success(out + Meaning([s] + rest), p + |SpelledAll(rest)| + 1)
    decreases |rest|, 1
  {
    hide At, Spelled, Allowed, ParseString, Parse4Hex, EncodeUtf8, UnitValue;
    var v := UnitValue(s);
    assert ([s] + rest)[0] == s && ([s] + rest)[1..] == rest;
    StartsWithUnit(doc, p, rest);
    ReplacementIsEncoded();
    if !Leading(v) || rest == [] || !rest[0].Unit? {
      var rune := if Leading(v) || Trailing(v) then 0xFFFD else v;
      SpellingIsRead(doc, p, rest, out + EncodeUtf8(rune));
      Reassociated(out, EncodeUtf8(rune), Meaning(rest));
    } else {
      var second, more := rest[0], rest[1..];
      assert AllAllowed(more) && ([s] + rest)[1] == second && ([s] + rest)[2..] == more && [second] + more == rest;
      NextSpelling(doc, p, rest);
      SpelledLength(second);
      UnitIsParsed(doc, p + 2, second);
      if Trailing(UnitValue(second)) {
        var rune := AsWritten(v, UnitValue(second));
        SpellingIsRead(doc, p + 6, more, out + EncodeUtf8(rune));
        Reassociated(out, EncodeUtf8(rune), Meaning(more));
      } else {
        FirstUnitIsRead(doc, second, p + 6, more, out + EncodeUtf8(0xFFFD));
        Reassociated(out, EncodeUtf8(0xFFFD), Meaning(rest));
      }
    }
  }

  // ---------------------------------------------------------------- and nothing else is

  lemma UnitIsThere(doc: Bytes, p: nat) returns (s: Spelling)
    requires p <= |doc| && Parse4Hex(doc, p).Success?
    ensures s.Unit? && Allowed(s) && At(doc, p, [s.a, s.b, s.c, s.d]) && UnitValue(s) == Parse4Hex(doc, p).value
  {
    s := Unit(doc[p], doc[p + 1], doc[p + 2], doc[p + 3]);
  }

  lemma SpellingJoined(doc: Bytes, p: nat, s: Spelling, rest: seq<Spelling>)
    requires Allowed(s) && AllAllowed(rest)
    requires At(doc, p, Spelled(s)) && At(doc, p + |Spelled(s)|, SpelledAll(rest) + [0x22])
    ensures AllAllowed([s] + rest) && At(doc, p, SpelledAll([s] + rest) + [0x22])
  {
    var ts := [s] + rest;
    assert ts[0] == s && ts[1..] == rest;
    AtJoined(doc, p, Spelled(s), SpelledAll(rest) + [0x22]);
    SpelledSplit(ts);
  }

  lemma EscapedUnitJoined(doc: Bytes, p: nat, s: Spelling, rest: seq<Spelling>)
    requires s.Unit? && Allowed(s) && AllAllowed(rest)
    requires p + 2 <= |doc| && doc[p] == 0x5C && doc[p + 1] == 0x75 && At(doc, p + 2, [s.a, s.b, s.c, s.d])
    requires At(doc, p + 6, SpelledAll(rest) + [0x22])
    ensures AllAllowed([s] + rest) && At(doc, p, SpelledAll([s] + rest) + [0x22])
  {
    assert At(doc, p, [0x5C, 0x75]);
    AtJoined(doc, p, [0x5C, 0x75], [s.a, s.b, s.c, s.d]);
    assert Spelled(s) == [0x5C, 0x75] + [s.a, s.b, s.c, s.d];
    SpellingJoined(doc, p, s, rest);
  }

  /** A string that is accepted is the spelling of something. */
  lemma {:induction false} StringIsSpelt(doc: Bytes, p: nat, out: Bytes) returns (ts: seq<Spelling>)
    requires p <= |doc| && ParseString(doc, p, out).Success?
    ensures AllAllowed(ts) && At(doc, p, SpelledAll(ts) + [0x22])
    decreases |doc| - p, 0
  {
    hide At, Parse4Hex, Surrogates, SpelledAll, Spelled, Allowed;
    assert p < |doc|;
    var c, q := doc[p], p + 1;
    if c == 0x22 {
      ts := [];
      QuoteIsThere(doc, p);
    } else if c != 0x5C {
      ts := StringIsSpelt(doc, q, out + [c]);
      PlainIsThere(doc, p, c);
      SpellingJoined(doc, p, Plain(c), ts);
      ts := [Plain(c)] + ts;
    } else {
      var e := doc[q];
      if e == 0x75 {
        var s := UnitIsThere(doc, q + 1);
        ts := UnitsAreSpelt(doc, UnitValue(s), q + 5, out);
        EscapedUnitJoined(doc, p, s, ts);
        ts := [s] + ts;
      } else {
        ts := StringIsSpelt(doc, q + 1, out + [Unescaped(e).value]);
        ShortIsThere(doc, p, e);
        SpellingJoined(doc, p, Short(e), ts);
        ts := [Short(e)] + ts;
      }
    }
  }

  lemma QuoteIsThere(doc: Bytes, p: nat)
    requires p < |doc| && doc[p] == 0x22
    ensures AllAllowed([]) && At(doc, p, SpelledAll([]) + [0x22])
  {
  }

  lemma PlainIsThere(doc: Bytes, p: nat, c: Byte)
    requires p < |doc| && doc[p] == c && c >= 0x20 && c != 0x22 && c != 0x5C
    ensures Allowed(Plain(c)) && |Spelled(Plain(c))| == 1 && At(doc, p, Spelled(Plain(c)))
  {
  }

  lemma ShortIsThere(doc: Bytes, p: nat, e: Byte)
    requires p + 2 <= |doc| && doc[p] == 0x5C && doc[p + 1] == e && Unescaped(e).Some?
    ensures Allowed(Short(e)) && |Spelled(Short(e))| == 2 && At(doc, p, Spelled(Short(e)))
  {
  }

  lemma {:induction false} UnitsAreSpelt(doc: Bytes, first: nat, p: nat, out: Bytes) returns (ts: seq<Spelling>)
    requires p <= |doc| && first < 0x10000 && Surrogates(doc, first, p, out).Success?
    requires var read := Surrogates(doc, first, p, out); ParseString(doc, read.pos, read.value).Success?
    ensures AllAllowed(ts) && At(doc, p, SpelledAll(ts) + [0x22])
    decreases |doc| - p, 1
  {
    hide At, Parse4Hex, SpelledAll, ParseString, Allowed;
    if !Leading(first) || p + 2 > |doc| || doc[p] != 0x5C || doc[p + 1] != 0x75 {
      var read := Surrogates(doc, first, p, out);
      ts := StringIsSpelt(doc, p, read.value);
    } else {
      var s := UnitIsThere(doc, p + 2);
      var read := Surrogates(doc, first, p, out);
      if Trailing(UnitValue(s)) {
        ts := StringIsSpelt(doc, p + 6, read.value);
      } else {
        ts := UnitsAreSpelt(doc, UnitValue(s), p + 6, out + REPLACEMENT);
      }
      EscapedUnitJoined(doc, p, s, ts);
      ts := [s] + ts;
    }
  }

  // ---------------------------------------------------------------- characters of RFC 8259

  /** The ways section 7 gives to write one character: its UTF-8 octets, one of the eight short
      escapes, \u with its code, or a surrogate pair. */
  predicate Spells(ts: seq<Spelling>, r: nat) {
    && Scalar(r) && AllAllowed(ts)
    && (|| (|ts| == |EncodeUtf8(r)| && forall i :: 0 <= i < |ts| ==> ts[i] == Plain(EncodeUtf8(r)[i]))
        || (|ts| == 1 && ts[0].Short? && ShortMeans(ts[0].letter) == r)
        || (|ts| == 1 && ts[0].Unit? && UnitValue(ts[0]) == r)
        || (IsPair(ts) && Rfc2781(UnitValue(ts[0]), UnitValue(ts[1])) == r))
  }

  predicate IsPair(ts: seq<Spelling>) {
    && |ts| == 2 && ts[0].Unit? && ts[1].Unit? && AllAllowed(ts)
    && Leading(UnitValue(ts[0])) && Trailing(UnitValue(ts[1]))
  }

  /** The character the parser makes of it. */
  function ReadAs(ts: seq<Spelling>, r: nat): nat {
    if IsPair(ts) then AsWritten(UnitValue(ts[0]), UnitValue(ts[1])) else r
  }

  function Concat(parts: seq<seq<Spelling>>): seq<Spelling> {
    if parts == [] then [] else parts[0] + Concat(parts[1..])
  }

  predicate SpellsAll(parts: seq<seq<Spelling>>, runes: seq<nat>) {
    |parts| == |runes| && forall i :: 0 <= i < |parts| ==> Spells(parts[i], runes[i])
  }

  function ReadAsAll(parts: seq<seq<Spelling>>, runes: seq<nat>): seq<nat>
    requires |parts| == |runes|
  {
    seq(|parts|, i requires 0 <= i < |parts| => ReadAs(parts[i], runes[i]))
  }

  lemma {:induction false} PlainMeaning(octets: Bytes, ts: seq<Spelling>, rest: seq<Spelling>)
    requires |ts| == |octets| && AllAllowed(ts) && AllAllowed(rest)
    requires forall i :: 0 <= i < |ts| ==> ts[i] == Plain(octets[i])
    ensures AllAllowed(ts + rest) && Meaning(ts + rest) == octets + Meaning(rest)
    decreases |octets|
  {
    if octets == [] {
      assert ts + rest == rest && octets + Meaning(rest) == Meaning(rest);
    } else {
      PlainMeaning(octets[1..], ts[1..], rest);
      assert (ts + rest)[1..] == ts[1..] + rest;
      assert octets == [octets[0]] + octets[1..];
      Reassociated([octets[0]], octets[1..], Meaning(rest));
    }
  }

  lemma SmallRune(r: nat)
    requires r < 0x80
    ensures EncodeUtf8(r) == [r]
  {
  }

  lemma OneMeaning(ts: seq<Spelling>, r: nat, rest: seq<Spelling>)
    requires Spells(ts, r) && AllAllowed(rest)
    ensures AllAllowed(ts + rest) && Scalar(ReadAs(ts, r))
    ensures Meaning(ts + rest) == EncodeUtf8(ReadAs(ts, r)) + Meaning(rest)
  {
    hide EncodeUtf8, UnitValue, AsWritten;
    var all := ts + rest;
    assert AllAllowed(all);
    if IsPair(ts) {
      assert all[0] == ts[0] && all[1] == ts[1] && all[2..] == rest;
      PairIsScalar(UnitValue(ts[0]), UnitValue(ts[1]));
    } else if |ts| == |EncodeUtf8(r)| && forall i :: 0 <= i < |ts| ==> ts[i] == Plain(EncodeUtf8(r)[i]) {
      PlainMeaning(EncodeUtf8(r), ts, rest);
    } else {
      assert all[0] == ts[0] && all[1..] == rest;
      if ts[0].Short? {
        SmallRune(r);
      }
    }
  }

  lemma PairIsScalar(first: nat, second: nat)
    requires Leading(first) && Trailing(second)
    ensures Scalar(AsWritten(first, second))
  {
  }

  lemma {:induction false} SpelledTextMeans(parts: seq<seq<Spelling>>, runes: seq<nat>)
    requires SpellsAll(parts, runes)
    ensures AllAllowed(Concat(parts))
    ensures forall i :: 0 <= i < |parts| ==> Scalar(ReadAsAll(parts, runes)[i])
    ensures Meaning(Concat(parts)) == EncodeAll(ReadAsAll(parts, runes))
    decreases |parts|
  {
    hide EncodeUtf8, Spells, ReadAs, Scalar;
    if parts != [] {
      SpelledTextMeans(parts[1..], runes[1..]);
      OneMeaning(parts[0], runes[0], Concat(parts[1..]));
      var read := ReadAsAll(parts, runes);
      assert read[1..] == ReadAsAll(parts[1..], runes[1..]);
      assert forall i :: 0 < i < |parts| ==> read[i] == read[1..][i - 1];
    }
  }

  /** A string whose characters are each written in any way of section 7 is read as just those
      characters exactly if no surrogate pair has bit 6 set in its first half. */
  lemma EverySpellingIsReadIff(x: Numerals, parts: seq<seq<Spelling>>, runes: seq<nat>)
    requires SpellsAll(parts, runes)
    ensures AllAllowed(Concat(parts)) && forall i :: 0 <= i < |runes| ==> Scalar(runes[i])
    ensures var doc := [0x22] + (SpelledAll(Concat(parts)) + [0x22]);
      && Parse(x, doc) == Success(String(Meaning(Concat(parts))), |doc|)
      && (Parse(x, doc) == Success(String(EncodeAll(runes)), |doc|) <==>
            forall i :: 0 <= i < |parts| && IsPair(parts[i]) ==> Bit6Clear(UnitValue(parts[i][0])))
  {
    var ts := Concat(parts);
    var read := ReadAsAll(parts, runes);
    SpelledTextMeans(parts, runes);
    QuotedSpellingParses(x, ts);
    forall i | 0 <= i < |runes|
      ensures Scalar(runes[i])
      ensures read[i] == runes[i] <==> (IsPair(parts[i]) ==> Bit6Clear(UnitValue(parts[i][0])))
    {
      assert Spells(parts[i], runes[i]);
      ReadRightIff(parts[i], runes[i]);
    }
    DecodeUndoesEncode(read);
    DecodeUndoesEncode(runes);
    if forall i :: 0 <= i < |parts| && IsPair(parts[i]) ==> Bit6Clear(UnitValue(parts[i][0])) {
      assert read == runes;
    }
  }

  lemma ReadRightIff(ts: seq<Spelling>, r: nat)
    requires Spells(ts, r)
    ensures ReadAs(ts, r) == r <==> (IsPair(ts) ==> Bit6Clear(UnitValue(ts[0])))
  {
    hide UnitValue, CombineSurrogates, EncodeUtf8;
    if IsPair(ts) {
      PairIsRightIffBit6Clear(UnitValue(ts[0]), UnitValue(ts[1]));
      OnlyAPair(ts, r);
    }
  }

  /** Two units that are surrogates are no UTF-8 octets. */
  lemma OnlyAPair(ts: seq<Spelling>, r: nat)
    requires Spells(ts, r) && IsPair(ts)
    ensures Rfc2781(UnitValue(ts[0]), UnitValue(ts[1])) == r
  {
  }

  lemma QuotedSpellingParses(x: Numerals, ts: seq<Spelling>)
    requires AllAllowed(ts)
    ensures var doc := [0x22] + (SpelledAll(ts) + [0x22]); Parse(x, doc) == Success(String(Meaning(ts)), |doc|)
  {
    hide Meaning, SpelledAll;
    var body := SpelledAll(ts) + [0x22];
    var doc := [0x22] + body;
    assert doc[1..1 + |body|] == body;
    SpellingIsRead(doc, 1, ts, []);
    assert [] + Meaning(ts) == Meaning(ts);
    assert SkipSpace(doc, 0) == 0 && SkipSpace(doc, |doc|) == |doc|;
  }
}
