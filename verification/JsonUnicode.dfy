/** UTF-8 and UTF-16 in JSON strings: what escapes become, and that accepted documents stay valid UTF-8. */
module JsonUnicode {
  import opened Options
  import opened ByteText
  import opened Json

  // ---------------------------------------------------------------- UTF-8, section 3 of RFC 3629

  /** Unicode scalar values: code points that are not surrogates. */
  predicate Scalar(r: nat) { r < 0xD800 || 0xE000 <= r <= 0x10FFFF }

  predicate Tail(c: Byte) { 0x80 <= c < 0xC0 }

  /** How many octets the first one announces, 0 if it announces none. */
  function Announced(c: Byte): nat {
    if c < 0x80 then 1
    else if 0xC0 <= c < 0xE0 then 2
    else if 0xE0 <= c < 0xF0 then 3
    else if 0xF0 <= c < 0xF8 then 4
    else 0
  }

  /** The first character and its length; overlong forms and surrogates are refused. */
  function DecodeFirst(s: Bytes): (r: Option<(nat, nat)>)
    ensures r.Some? ==> 1 <= r.value.1 <= |s| && r.value.1 <= 4 && Scalar(r.value.0)
  {
    if s == [] then None
    else
      var n := Announced(s[0]);
      if n == 1 then Some((s[0], 1))
      else if n == 0 || n > |s| || !(forall i :: 1 <= i < n ==> Tail(s[i])) then None
      else if n == 2 then
        assert Tail(s[1]);
        var v: int := (s[0] as int - 0xC0) * 0x40 + (s[1] as int - 0x80);
        if 0x80 <= v then Some((v, 2)) else None
      else if n == 3 then
        assert Tail(s[1]) && Tail(s[2]);
        var v: int := (s[0] as int - 0xE0) * 0x1000 + (s[1] as int - 0x80) * 0x40 + (s[2] as int - 0x80);
        if 0x800 <= v && Scalar(v) then Some((v, 3)) else None
      else
        assert Tail(s[1]) && Tail(s[2]) && Tail(s[3]);
        var v: int := (s[0] as int - 0xF0) * 0x4_0000 + (s[1] as int - 0x80) * 0x1000 + (s[2] as int - 0x80) * 0x40 + (s[3] - 0x80);
        if 0x1_0000 <= v && Scalar(v) then Some((v, 4)) else None
  }

  function Decode(s: Bytes): Option<seq<nat>>
    decreases |s|
  {
    if s == [] then Some([])
    else
      match DecodeFirst(s)
      case None => None
      case Some(first) =>
        match Decode(s[first.1..])
        case None => None
        case Some(rest) => Some([first.0] + rest)
  }

  predicate Valid(s: Bytes) { Decode(s).Some? }

  function EncodeAll(runes: seq<nat>): Bytes
    requires forall i :: 0 <= i < |runes| ==> Scalar(runes[i])
  {
    if runes == [] then []
    else
      assert Scalar(runes[0]);
      EncodeUtf8(runes[0]) + EncodeAll(runes[1..])
  }

  lemma TwoOctetsDecode(r: nat, s: Bytes)
    requires 0x80 <= r <= 0x7FF && |s| >= 2 && s[0] == 0xC0 + r / 0x40 && s[1] == 0x80 + r % 0x40
    ensures DecodeFirst(s) == Some((r, 2))
  {
    assert Announced(s[0]) == 2 && Tail(s[1]);
  }

  lemma ThreeOctetsDecode(r: nat, s: Bytes)
    requires 0x800 <= r <= 0xFFFF && Scalar(r) && |s| >= 3
    requires s[0] == 0xE0 + r / 0x1000 && s[1] == 0x80 + r / 0x40 % 0x40 && s[2] == 0x80 + r % 0x40
    ensures DecodeFirst(s) == Some((r, 3))
  {
    assert Announced(s[0]) == 3 && Tail(s[1]) && Tail(s[2]);
    assert r == r / 0x1000 * 0x1000 + r / 0x40 % 0x40 * 0x40 + r % 0x40;
  }

  lemma FourOctetsDecode(r: nat, s: Bytes)
    requires 0x1_0000 <= r <= 0x10_FFFF && |s| >= 4
    requires s[0] == 0xF0 + r / 0x4_0000 && s[1] == 0x80 + r / 0x1000 % 0x40
    requires s[2] == 0x80 + r / 0x40 % 0x40 && s[3] == 0x80 + r % 0x40
    ensures DecodeFirst(s) == Some((r, 4))
  {
    assert Announced(s[0]) == 4 && Tail(s[1]) && Tail(s[2]) && Tail(s[3]);
    assert r == r / 0x4_0000 * 0x4_0000 + r / 0x1000 % 0x40 * 0x1000 + r / 0x40 % 0x40 * 0x40 + r % 0x40;
  }

  lemma EncodedIsDecoded(r: nat, after: Bytes)
    requires Scalar(r)
    ensures DecodeFirst(EncodeUtf8(r) + after) == Some((r, |EncodeUtf8(r)|))
  {
    hide DecodeFirst;
    var s := EncodeUtf8(r) + after;
    if r <= 0x7F {
      OneOctetDecodes(s);
    } else if r <= 0x7FF {
      TwoOctetsDecode(r, s);
    } else if r <= 0xFFFF {
      ThreeOctetsDecode(r, s);
    } else {
      FourOctetsDecode(r, s);
    }
  }

  lemma OneOctetDecodes(s: Bytes)
    requires s != [] && s[0] < 0x80
    ensures DecodeFirst(s) == Some((s[0] as nat, 1))
  {
  }

  /** Section 3 of RFC 3629 undoes the encoder, character by character and over whole strings. */
  lemma {:induction false} DecodeUndoesEncode(runes: seq<nat>)
    requires forall i :: 0 <= i < |runes| ==> Scalar(runes[i])
    ensures Decode(EncodeAll(runes)) == Some(runes)
  {
    if runes != [] {
      EncodedIsDecoded(runes[0], EncodeAll(runes[1..]));
      var s := EncodeAll(runes);
      assert s[|EncodeUtf8(runes[0])|..] == EncodeAll(runes[1..]);
      DecodeUndoesEncode(runes[1..]);
      assert [runes[0]] + runes[1..] == runes;
    }
  }

  /** Decoding looks at no more than the first character. */
  lemma DecodeFirstIsLocal(a: Bytes, b: Bytes)
    requires DecodeFirst(a).Some?
    ensures DecodeFirst(a + b) == DecodeFirst(a)
  {
    var n := Announced(a[0]);
    var s := a + b;
    assert forall i :: 0 <= i < n ==> s[i] == a[i];
  }

  lemma {:induction false} ValidTextsJoin(a: Bytes, b: Bytes)
    requires Valid(a) && Valid(b)
    ensures Valid(a + b)
    decreases |a|
  {
    if a == [] {
      assert a + b == b;
    } else {
      DecodeFirstIsLocal(a, b);
      var n := DecodeFirst(a).value.1;
      assert (a + b)[n..] == a[n..] + b;
      ValidTextsJoin(a[n..], b);
    }
  }

  /** An octet below 0x80 is a character of its own: what is before it and what is after it are valid. */
  lemma {:induction false} AsciiSeparates(a: Bytes, c: Byte, b: Bytes)
    requires c < 0x80 && Valid(a + ([c] + b))
    ensures Valid(a) && Valid(b)
    decreases |a|
  {
    hide DecodeFirst;
    var s := a + ([c] + b);
    if a == [] {
      OneOctetDecodes(s);
      assert s[1..] == b;
    } else {
      FirstStopsBeforeAscii(a, c, b);
      var n := DecodeFirst(s).value.1;
      FirstFitsPrefix(a, [c] + b);
      assert s[n..] == a[n..] + ([c] + b);
      AsciiSeparates(a[n..], c, b);
    }
  }

  lemma FirstStopsBeforeAscii(a: Bytes, c: Byte, b: Bytes)
    requires c < 0x80 && a != [] && DecodeFirst(a + ([c] + b)).Some?
    ensures DecodeFirst(a + ([c] + b)).value.1 <= |a|
  {
    assert (a + ([c] + b))[|a|] == c;
  }

  lemma FirstFitsPrefix(a: Bytes, b: Bytes)
    requires DecodeFirst(a + b).Some? && DecodeFirst(a + b).value.1 <= |a|
    ensures DecodeFirst(a) == DecodeFirst(a + b)
  {
    var s := a + b;
    assert forall i :: 0 <= i < |a| ==> s[i] == a[i];
  }

  // ---------------------------------------------------------------- UTF-16, section 2.2 of RFC 2781

  /** The code point of a surrogate pair: ten bits of each, plus 0x10000. */
  function Rfc2781(first: nat, second: nat): (rune: nat)
    requires Leading(first) && Trailing(second)
    ensures 0x10000 <= rune <= 0x10FFFF
  {
    0x10000 + (first - 0xD800) * 0x400 + (second - 0xDC00)
  }

  /** Bit 6 of First - 0xD800, which the shift moves to bit 16. */
  predicate Bit6Clear(first: nat)
    requires Leading(first)
  {
    (first - 0xD800) / 0x40 % 2 == 0
  }

  /** The pair is decoded as RFC 2781 says exactly when bit 6 is clear: the source writes `|` where the RFC adds. */
  lemma PairIsRightIffBit6Clear(first: nat, second: nat)
    requires Leading(first) && Trailing(second)
    ensures CombineSurrogates(first, second) == Rfc2781(first, second) <==> Bit6Clear(first)
  {
    ShiftedBit(first - 0xD800, second - 0xDC00);
  }

  lemma ShiftedBit(a: nat, b: nat)
    requires a < 0x400 && b < 0x400
    ensures (a * 0x400 + b) / 0x10000 == a / 0x40
  {
    assert a == a / 0x40 * 0x40 + a % 0x40;
    assert a * 0x400 + b == a / 0x40 * 0x10000 + (a % 0x40 * 0x400 + b);
  }

  /** U+20000, the first character of the Supplementary Ideographic Plane, comes out as U+10000. */
  lemma SupplementaryIdeographBecomesAnother()
    ensures Leading(0xD840) && Trailing(0xDC00)
    ensures Rfc2781(0xD840, 0xDC00) == 0x20000 && CombineSurrogates(0xD840, 0xDC00) == 0x10000
  {
  }

  /** What a run of \u escapes stands for, given what a surrogate pair does: lone surrogates become U+FFFD. */
  function Runes(units: seq<nat>, pair: (nat, nat) -> nat): seq<nat> {
    if units == [] then []
    else if !Leading(units[0]) then [if Trailing(units[0]) then 0xFFFD else units[0]] + Runes(units[1..], pair)
    else if |units| > 1 && Trailing(units[1]) then [pair(units[0], units[1])] + Runes(units[2..], pair)
    else [0xFFFD] + Runes(units[1..], pair)
  }

  /** The functions on pairs, for any two code units. */
  function AsWritten(first: nat, second: nat): nat {
    if Leading(first) && Trailing(second) then CombineSurrogates(first, second) else 0
  }

  function AsInRfc(first: nat, second: nat): nat {
    if Leading(first) && Trailing(second) then Rfc2781(first, second) else 0
  }

  /** No surrogate pair of the run has bit 6 set in its first half. */
  predicate PairsAreSafe(units: seq<nat>) {
    forall i :: 0 <= i < |units| - 1 ==> Leading(units[i]) && Trailing(units[i + 1]) ==> Bit6Clear(units[i])
  }

  lemma {:induction false} RunIsRightIffPairsAreSafe(units: seq<nat>)
    ensures Runes(units, AsWritten) == Runes(units, AsInRfc) <==> PairsAreSafe(units)
    decreases |units|
  {
    if units == [] {
    } else if Leading(units[0]) && |units| > 1 && Trailing(units[1]) {
      PairIsRightIffBit6Clear(units[0], units[1]);
      RunIsRightIffPairsAreSafe(units[2..]);
      SafetySplits(units, 2);
      HeadsAndTails(AsWritten(units[0], units[1]), Runes(units[2..], AsWritten), AsInRfc(units[0], units[1]), Runes(units[2..], AsInRfc));
      assert PairsAreSafe(units) <==> Bit6Clear(units[0]) && PairsAreSafe(units[2..]);
    } else {
      RunIsRightIffPairsAreSafe(units[1..]);
      SafetySplits(units, 1);
      var r := if Leading(units[0]) || Trailing(units[0]) then 0xFFFD else units[0];
      HeadsAndTails(r, Runes(units[1..], AsWritten), r, Runes(units[1..], AsInRfc));
    }
  }

  lemma HeadsAndTails(a: nat, s: seq<nat>, b: nat, t: seq<nat>)
    ensures [a] + s == [b] + t <==> a == b && s == t
  {
    if [a] + s == [b] + t {
      assert ([a] + s)[0] == a && ([b] + t)[0] == b;
      assert ([a] + s)[1..] == s && ([b] + t)[1..] == t;
    }
  }

  /** A pair is safe on its own, or nothing is paired across the cut. */
  lemma SafetySplits(units: seq<nat>, k: nat)
    requires 1 <= k <= |units| && k <= 2
    requires k == 1 ==> |units| == 1 || !(Leading(units[0]) && Trailing(units[1]))
    requires k == 2 ==> Leading(units[0]) && Trailing(units[1])
    ensures PairsAreSafe(units) <==> (k == 2 ==> Bit6Clear(units[0])) && PairsAreSafe(units[k..])
  {
    var rest := units[k..];
    if PairsAreSafe(units) {
      forall i | 0 <= i < |rest| - 1 && Leading(rest[i]) && Trailing(rest[i + 1]) ensures Bit6Clear(rest[i]) {
        assert rest[i] == units[k + i] && rest[i + 1] == units[(k + i) + 1];
      }
      if k == 2 { assert Leading(units[0]) && Trailing(units[0 + 1]); }
    }
    if (k == 2 ==> Bit6Clear(units[0])) && PairsAreSafe(rest) {
      forall i | 0 <= i < |units| - 1 && Leading(units[i]) && Trailing(units[i + 1]) ensures Bit6Clear(units[i]) {
        if i >= k {
          assert units[i] == rest[i - k] && units[i + 1] == rest[(i - k) + 1];
        }
      }
    }
  }

  // ---------------------------------------------------------------- runs of escapes in a document

  predicate EscapeAt(doc: Bytes, p: nat, unit: nat) {
    && p + 6 <= |doc| && doc[p] == BACKSLASH && doc[p + 1] == LOWER_U
    && Parse4Hex(doc, p + 2) == Success(unit, p + 6)
  }

  /** The escapes of `units` stand at p, and no other escape of this kind follows them. */
  predicate EscapesAt(doc: Bytes, p: nat, units: seq<nat>)
    decreases |units|
  {
    if units == [] then p < |doc| && !(p + 2 <= |doc| && doc[p] == BACKSLASH && doc[p + 1] == LOWER_U)
    else EscapeAt(doc, p, units[0]) && EscapesAt(doc, p + 6, units[1..])
  }

  lemma {:induction false} EscapesStayInside(doc: Bytes, p: nat, units: seq<nat>)
    requires EscapesAt(doc, p, units)
    ensures p + 6 * |units| < |doc|
    ensures forall i :: 0 <= i < |units| ==> units[i] < 0x10000
    decreases |units|
  {
    if units != [] {
      EscapesStayInside(doc, p + 6, units[1..]);
      assert units == [units[0]] + units[1..];
    }
  }

  lemma {:induction false} RunesAreScalar(units: seq<nat>)
    requires forall i :: 0 <= i < |units| ==> units[i] < 0x10000
    ensures forall i :: 0 <= i < |Runes(units, AsWritten)| ==> Scalar(Runes(units, AsWritten)[i])
    decreases |units|
  {
    if units == [] {
    } else if Leading(units[0]) && |units| > 1 && Trailing(units[1]) {
      RunesAreScalar(units[2..]);
      assert Scalar(AsWritten(units[0], units[1]));
    } else {
      RunesAreScalar(units[1..]);
    }
  }

  lemma AppendRunes(out: Bytes, r: nat, rest: seq<nat>)
    requires Scalar(r) && forall i :: 0 <= i < |rest| ==> Scalar(rest[i])
    ensures forall i :: 0 <= i < |[r] + rest| ==> Scalar(([r] + rest)[i])
    ensures out + EncodeUtf8(r) + EncodeAll(rest) == out + EncodeAll([r] + rest)
  {
    assert ([r] + rest)[1..] == rest;
  }

  /** From the first unit, just read, and the escapes after it: surrogate handling may read several of them. */
  lemma {:induction false} UnitIsRead(doc: Bytes, first: nat, p: nat, rest: seq<nat>, out: Bytes)
    requires first < 0x10000 && EscapesAt(doc, p, rest)
    ensures p + 6 * |rest| < |doc| && Surrogates(doc, first, p, out).Success?
    ensures forall i :: 0 <= i < |Runes([first] + rest, AsWritten)| ==> Scalar(Runes([first] + rest, AsWritten)[i])
    ensures var read := Surrogates(doc, first, p, out);
      ParseString(doc, read.pos, read.value)
      == ParseString(doc, p + 6 * |rest|, out + EncodeAll(Runes([first] + rest, AsWritten)))
    decreases |rest|, 1
  {
    hide ParseString, Parse4Hex, EncodeAll, EncodeUtf8;
    var all := [first] + rest;
    EscapesStayInside(doc, p, rest);
    assert all[1..] == rest && all[0] == first;
    if !Leading(first) {
      var r := if Trailing(first) then 0xFFFD else first;
      ReplacementIsEncoded();
      RunIsRead(doc, p, rest, out + EncodeUtf8(r));
      AppendRunes(out, r, Runes(rest, AsWritten));
    } else if rest == [] {
      ReplacementIsEncoded();
      RunIsRead(doc, p, rest, out + EncodeUtf8(0xFFFD));
      AppendRunes(out, 0xFFFD, Runes(rest, AsWritten));
    } else if Trailing(rest[0]) {
      var r := AsWritten(first, rest[0]);
      assert all[2..] == rest[1..] && all[1] == rest[0];
      RunIsRead(doc, p + 6, rest[1..], out + EncodeUtf8(r));
      AppendRunes(out, r, Runes(rest[1..], AsWritten));
    } else {
      assert all[1] == rest[0] && [rest[0]] + rest[1..] == rest;
      ReplacementIsEncoded();
      UnitIsRead(doc, rest[0], p + 6, rest[1..], out + EncodeUtf8(0xFFFD));
      AppendRunes(out, 0xFFFD, Runes(rest, AsWritten));
    }
  }

  lemma ReplacementIsEncoded()
    ensures EncodeUtf8(0xFFFD) == REPLACEMENT
  {
  }

  lemma {:induction false} RunIsRead(doc: Bytes, p: nat, units: seq<nat>, out: Bytes)
    requires EscapesAt(doc, p, units)
    ensures p + 6 * |units| < |doc|
    ensures forall i :: 0 <= i < |Runes(units, AsWritten)| ==> Scalar(Runes(units, AsWritten)[i])
    ensures ParseString(doc, p, out) == ParseString(doc, p + 6 * |units|, out + EncodeAll(Runes(units, AsWritten)))
    decreases |units|, 0
  {
    hide EscapesAt, Parse4Hex, EncodeAll, EncodeUtf8, Surrogates, Runes, ParseString, Scalar;
    if units == [] {
      EmptyRunIsRead(doc, p, out);
    } else {
      FirstEscape(doc, p, units);
      assert units == [units[0]] + units[1..];
      UnitIsRead(doc, units[0], p + 6, units[1..], out);
      EscapeIsOpened(doc, p, units[0], out);
    }
  }

  lemma EmptyRunIsRead(doc: Bytes, p: nat, out: Bytes)
    requires EscapesAt(doc, p, [])
    ensures p < |doc| && Runes([], AsWritten) == [] && out + EncodeAll([]) == out
  {
  }

  lemma FirstEscape(doc: Bytes, p: nat, units: seq<nat>)
    requires units != [] && EscapesAt(doc, p, units)
    ensures EscapeAt(doc, p, units[0]) && EscapesAt(doc, p + 6, units[1..]) && units[0] < 0x10000
  {
  }

  lemma EscapeIsOpened(doc: Bytes, p: nat, unit: nat, out: Bytes)
    requires EscapeAt(doc, p, unit) && unit < 0x10000 && Surrogates(doc, unit, p + 6, out).Success?
    ensures var read := Surrogates(doc, unit, p + 6, out);
      ParseString(doc, p, out) == ParseString(doc, read.pos, read.value)
  {
    hide Parse4Hex, Surrogates;
    assert Next(doc, p) == (BACKSLASH, p + 1) && Next(doc, p + 1) == (LOWER_U, p + 2);
    assert ParseUnicode(doc, p + 2, out) == Surrogates(doc, unit, p + 6, out);
  }

  /** A string of \u escapes is never refused, and reads as section 2.2 of RFC 2781 has it, with U+FFFD for lone
      surrogates, exactly when no pair in it has bit 6 set. */
  lemma EscapedRunReadsAsUtf16Iff(doc: Bytes, p: nat, units: seq<nat>)
    requires EscapesAt(doc, p, units) && p + 6 * |units| < |doc| && doc[p + 6 * |units|] == QUOTE
    ensures ParseString(doc, p, []).Success? && ParseString(doc, p, []).pos == p + 6 * |units| + 1
    ensures Decode(ParseString(doc, p, []).value) == Some(Runes(units, AsInRfc)) <==> PairsAreSafe(units)
  {
    RunIsRead(doc, p, units, []);
    var runes := Runes(units, AsWritten);
    DecodeUndoesEncode(runes);
    assert [] + EncodeAll(runes) == EncodeAll(runes);
    RunIsRightIffPairsAreSafe(units);
  }

  // ---------------------------------------------------------------- valid documents have valid strings

  /** The cursor is between characters, and the rest is valid. */
  predicate Boundary(doc: Bytes, p: nat) { p <= |doc| && Valid(doc[p..]) }

  lemma AsciiIsPassed(doc: Bytes, p: nat)
    requires Boundary(doc, p) && p < |doc| && doc[p] < 0x80
    ensures Boundary(doc, p + 1)
  {
    assert doc[p..] == [] + ([doc[p]] + doc[p + 1..]);
    AsciiSeparates([], doc[p], doc[p + 1..]);
  }

  lemma {:induction false} SpaceIsPassed(doc: Bytes, p: nat)
    requires Boundary(doc, p)
    ensures Boundary(doc, SkipSpace(doc, p))
    decreases |doc| - p
  {
    hide Valid;
    if p < |doc| && IsSpace(doc[p]) {
      AsciiIsPassed(doc, p);
      SpaceIsPassed(doc, p + 1);
    }
  }

  lemma {:induction false} WordIsPassed(doc: Bytes, p: nat, rest: Bytes)
    requires Boundary(doc, p) && ParseWord(doc, p, rest).Success? && forall i :: 0 <= i < |rest| ==> rest[i] < 0x80
    ensures Boundary(doc, p + |rest|)
    decreases |rest|
  {
    hide Valid;
    if rest != [] {
      AsciiIsPassed(doc, p);
      WordIsPassed(doc, p + 1, rest[1..]);
    }
  }

  lemma {:induction false} NumberIsPassed(doc: Bytes, p: nat)
    requires Boundary(doc, p)
    ensures Boundary(doc, NumberEnd(doc, p))
    decreases |doc| - p
  {
    hide Valid;
    if p < |doc| && IsNumberChar(doc[p]) {
      AsciiIsPassed(doc, p);
      NumberIsPassed(doc, p + 1);
    }
  }

  lemma HexIsPassed(doc: Bytes, p: nat)
    requires Boundary(doc, p) && Parse4Hex(doc, p).Success?
    ensures Boundary(doc, p + 4)
  {
    hide Valid;
    AsciiIsPassed(doc, p);
    AsciiIsPassed(doc, p + 1);
    AsciiIsPassed(doc, p + 2);
    AsciiIsPassed(doc, p + 3);
  }

  lemma ScalarsJoin(out: Bytes, r: nat)
    requires Valid(out) && Scalar(r)
    ensures Valid(out + EncodeUtf8(r))
  {
    DecodeUndoesEncode([r]);
    assert EncodeUtf8(r) + EncodeAll([]) == EncodeUtf8(r);
    assert EncodeAll([r]) == EncodeUtf8(r);
    ValidTextsJoin(out, EncodeUtf8(r));
  }

  lemma {:induction false} SurrogatesStayValid(doc: Bytes, first: nat, p: nat, out: Bytes)
    requires Boundary(doc, p) && first < 0x10000 && Valid(out) && Surrogates(doc, first, p, out).Success?
    ensures Valid(Surrogates(doc, first, p, out).value) && Boundary(doc, Surrogates(doc, first, p, out).pos)
    decreases |doc| - p
  {
    hide Valid, EncodeUtf8, Parse4Hex;
    ReplacementIsEncoded();
    ScalarsJoin(out, 0xFFFD);
    if !Leading(first) {
      if !Trailing(first) { ScalarsJoin(out, first); }
    } else if p + 2 <= |doc| && doc[p] == BACKSLASH && doc[p + 1] == LOWER_U {
      AsciiIsPassed(doc, p);
      AsciiIsPassed(doc, p + 1);
      HexIsPassed(doc, p + 2);
      var second := Parse4Hex(doc, p + 2).value;
      if Trailing(second) {
        ScalarsJoin(out, CombineSurrogates(first, second));
      } else {
        SurrogatesStayValid(doc, second, p + 6, out + REPLACEMENT);
      }
    }
  }

  /** Bytes are copied one by one, so it is what was copied followed by what is left that stays valid. */
  lemma {:induction false} StringStaysValid(doc: Bytes, p: nat, out: Bytes)
    requires p <= |doc| && Valid(out + doc[p..]) && ParseString(doc, p, out).Success?
    ensures Valid(ParseString(doc, p, out).value) && Boundary(doc, ParseString(doc, p, out).pos)
    decreases |doc| - p
  {
    hide Valid, ParseUnicode;
    assert p < |doc|;
    var c, q := doc[p], p + 1;
    assert doc[p..] == [c] + doc[q..];
    if c == QUOTE {
      AsciiSeparates(out, c, doc[q..]);
    } else if c != BACKSLASH {
      assert out + doc[p..] == out + [c] + doc[q..];
      StringStaysValid(doc, q, out + [c]);
    } else {
      AsciiSeparates(out, c, doc[q..]);
      EscapeStaysValid(doc, q, out);
      var q1 := q + 1;
      if doc[q] == LOWER_U {
        var read := ParseUnicode(doc, q1, out);
        ValidTextsJoin(read.value, doc[read.pos..]);
        StringStaysValid(doc, read.pos, read.value);
      } else {
        var longer := out + [Unescaped(doc[q]).value];
        ValidTextsJoin(longer, doc[q1..]);
        StringStaysValid(doc, q1, longer);
      }
    }
  }

  lemma EscapeStaysValid(doc: Bytes, q: nat, out: Bytes)
    requires q < |doc| && Boundary(doc, q) && Valid(out)
    requires doc[q] == LOWER_U ==> ParseUnicode(doc, q + 1, out).Success?
    requires doc[q] != LOWER_U ==> Unescaped(doc[q]).Some?
    ensures Boundary(doc, q + 1)
    ensures doc[q] == LOWER_U ==>
      var read := ParseUnicode(doc, q + 1, out); Valid(read.value) && Boundary(doc, read.pos)
    ensures doc[q] != LOWER_U ==> Valid(out + [Unescaped(doc[q]).value])
  {
    hide Valid, Parse4Hex, Surrogates;
    AsciiIsPassed(doc, q);
    if doc[q] == LOWER_U {
      HexIsPassed(doc, q + 1);
      SurrogatesStayValid(doc, Parse4Hex(doc, q + 1).value, q + 5, out);
    } else {
      var u := Unescaped(doc[q]).value;
      ScalarsJoin(out, u);
    }
  }

  /** Every string and every key in e is valid UTF-8. */
  predicate TextIsValid(e: Expr) {
    match e
    case String(s) => Valid(s)
    case Array(items) => forall i :: 0 <= i < |items| ==> TextIsValid(items[i])
    case Object(ps) => forall i :: 0 <= i < |ps| ==> Valid(ps[i].key) && TextIsValid(ps[i].value)
    case _ => true
  }

  lemma {:induction false} InsertKeepsTextValid(ps: seq<Property>, key: Bytes, value: Expr)
    requires TextIsValid(Object(ps)) && Valid(key) && TextIsValid(value)
    ensures TextIsValid(Object(Insert(ps, key, value)))
  {
    hide Valid, TextLess;
    if ps != [] && ps[0].key != key && !TextLess(key, ps[0].key) {
      InsertKeepsTextValid(ps[1..], key, value);
    }
  }

  lemma {:induction false} ExprStaysValid(x: Numerals, doc: Bytes, p: nat)
    requires Boundary(doc, p) && ParseExpr(x, doc, p).Success?
    ensures TextIsValid(ParseExpr(x, doc, p).value) && Boundary(doc, ParseExpr(x, doc, p).pos)
    decreases |doc| - p, 1
  {
    hide Valid, ParseItems, ParseProperties, ParseWord, NumberEnd, ParseString, SkipSpace;
    SpaceIsPassed(doc, p);
    var start := SkipSpace(doc, p);
    SpaceIsSkippedOnce(doc, p);
    var c, q := doc[start], start + 1;
    if c == LOWER_N || c == LOWER_T || c == LOWER_F {
      AsciiIsPassed(doc, start);
      WordIsPassed(doc, q, if c == LOWER_N then NULL_TAIL else if c == LOWER_T then TRUE_TAIL else FALSE_TAIL);
    } else if c == QUOTE {
      AsciiIsPassed(doc, start);
      assert [] + doc[q..] == doc[q..];
      StringStaysValid(doc, q, []);
    } else if c == OPEN_BRACKET || c == OPEN_BRACE {
      ContainerStaysValid(x, doc, start);
    } else {
      AsciiIsPassed(doc, start);
      NumberIsPassed(doc, q);
    }
  }

  lemma {:induction false} SpaceIsSkippedOnce(doc: Bytes, p: nat)
    requires p <= |doc|
    ensures SkipSpace(doc, SkipSpace(doc, p)) == SkipSpace(doc, p)
    decreases |doc| - p
  {
    if p < |doc| && IsSpace(doc[p]) { SpaceIsSkippedOnce(doc, p + 1); }
  }

  lemma {:induction false} ContainerStaysValid(x: Numerals, doc: Bytes, start: nat)
    requires Boundary(doc, start) && start < |doc| && (doc[start] == OPEN_BRACKET || doc[start] == OPEN_BRACE)
    requires ParseExpr(x, doc, start).Success?
    ensures TextIsValid(ParseExpr(x, doc, start).value) && Boundary(doc, ParseExpr(x, doc, start).pos)
    decreases |doc| - start, 0
  {
    hide Valid, ParseItems, ParseProperties, Bareword, ParseNumber, ParseString;
    AsciiIsPassed(doc, start);
    SpaceIsPassed(doc, start + 1);
    var first := SkipSpace(doc, start + 1);
    if doc[start] == OPEN_BRACKET && Peek(doc, first) == CLOSE_BRACKET {
      AsciiIsPassed(doc, first);
    } else if doc[start] == OPEN_BRACKET {
      ItemsStayValid(x, doc, first, []);
    } else if Peek(doc, first) == CLOSE_BRACE {
      AsciiIsPassed(doc, first);
    } else {
      PropertiesStayValid(x, doc, first, []);
    }
  }

  lemma {:induction false} ItemsStayValid(x: Numerals, doc: Bytes, p: nat, items: seq<Expr>)
    requires Boundary(doc, p) && TextIsValid(Array(items)) && ParseItems(x, doc, p, items).Success?
    ensures TextIsValid(ParseItems(x, doc, p, items).value) && Boundary(doc, ParseItems(x, doc, p, items).pos)
    decreases |doc| - p, 2
  {
    hide Valid, ParseExpr, SkipSpace;
    ExprStaysValid(x, doc, p);
    var item := ParseExpr(x, doc, p);
    var mark := SkipSpace(doc, item.pos);
    SpaceIsPassed(doc, item.pos);
    AsciiIsPassed(doc, mark);
    if doc[mark] == COMMA {
      SpaceIsPassed(doc, mark + 1);
      ItemsStayValid(x, doc, SkipSpace(doc, mark + 1), items + [item.value]);
    }
  }

  lemma {:induction false} PropertyStaysValid(x: Numerals, doc: Bytes, p: nat)
    requires Boundary(doc, p) && ParseProperty(x, doc, p).Success?
    ensures var read := ParseProperty(x, doc, p);
      Valid(read.value.key) && TextIsValid(read.value.value) && Boundary(doc, read.pos)
    decreases |doc| - p, 2
  {
    hide Valid, ParseExpr, SkipSpace, ParseString, TextIsValid;
    AsciiIsPassed(doc, p);
    assert [] + doc[p + 1..] == doc[p + 1..];
    StringStaysValid(doc, p + 1, []);
    var key := ParseString(doc, p + 1, []);
    SpaceIsPassed(doc, key.pos);
    var colon := SkipSpace(doc, key.pos);
    AsciiIsPassed(doc, colon);
    SpaceIsPassed(doc, colon + 1);
    ExprStaysValid(x, doc, SkipSpace(doc, colon + 1));
  }

  lemma {:induction false} PropertiesStayValid(x: Numerals, doc: Bytes, p: nat, ps: seq<Property>)
    requires Boundary(doc, p) && TextIsValid(Object(ps)) && ParseProperties(x, doc, p, ps).Success?
    ensures TextIsValid(ParseProperties(x, doc, p, ps).value) && Boundary(doc, ParseProperties(x, doc, p, ps).pos)
    decreases |doc| - p, 3
  {
    hide Valid, ParseProperty, SkipSpace, Insert, TextIsValid;
    PropertyStaysValid(x, doc, p);
    var property := ParseProperty(x, doc, p);
    var mark := SkipSpace(doc, property.pos);
    SpaceIsPassed(doc, property.pos);
    AsciiIsPassed(doc, mark);
    InsertKeepsTextValid(ps, property.value.key, property.value.value);
    if doc[mark] == COMMA {
      SpaceIsPassed(doc, mark + 1);
      PropertiesStayValid(x, doc, SkipSpace(doc, mark + 1), Insert(ps, property.value.key, property.value.value));
    }
  }

  /** Whatever escapes and lone surrogates a valid document contains, all its strings and keys are valid UTF-8. */
  lemma AcceptedTextIsValid(x: Numerals, doc: Bytes)
    requires Valid(doc) && Parse(x, doc).Success?
    ensures TextIsValid(Parse(x, doc).value)
  {
    assert doc[0..] == doc;
    ExprStaysValid(x, doc, 0);
  }
}
