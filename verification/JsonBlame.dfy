/** What an error message of the parser says about the text at its offset. */
module JsonBlame {
  import opened Options
  import opened ByteText
  import opened Json
  import opened JsonText
  import opened JsonStrings
  import opened JsonGrammar
  import JsonParser

  // ---------------------------------------------------------------- what each message means

  /** The character read last is none of those expected, or there was none to read. */
  predicate Unexpected(doc: Bytes, at: nat, expected: set<Byte>) {
    at == |doc| || (0 < at < |doc| && doc[at - 1] !in expected && !BlankChar(doc[at - 1]))
  }

  /** An escape \u at u goes wrong: four hexadecimal digits do not follow it. */
  predicate UnitGoesWrong(doc: Bytes, at: nat, u: nat) {
    && u + 2 <= |doc| && doc[u] == 0x5C && doc[u + 1] == 0x75
    && (if u + 6 > |doc| then at == |doc|
        else at == u + 6 && !(HexChar(doc[u + 2]) && HexChar(doc[u + 3]) && HexChar(doc[u + 4]) && HexChar(doc[u + 5])))
  }

  ghost predicate BadUnit(doc: Bytes, at: nat) {
    exists u: nat :: UnitGoesWrong(doc, at, u)
  }

  const WORDS: set<Bytes> := {[0x6E, 0x75, 0x6C, 0x6C], [0x74, 0x72, 0x75, 0x65], [0x66, 0x61, 0x6C, 0x73, 0x65]}

  /** One of the three words begins at s and goes wrong after n of its letters. */
  predicate GoesWrong(doc: Bytes, at: nat, word: Bytes, s: nat, n: nat) {
    && 0 < n < |word| && s + n <= |doc| && doc[s..s + n] == word[..n]
    && (if s + n == |doc| then at == |doc| else at == s + n + 1 && doc[s + n] != word[n])
  }

  ghost predicate BadWord(doc: Bytes, at: nat) {
    exists word, s, n :: word in WORDS && GoesWrong(doc, at, word, s, n)
  }

  /** A longest run of number characters that strtod does not take as a whole ends at `at`. */
  ghost predicate BadNumber(x: Numerals, doc: Bytes, at: nat) {
    exists s: nat :: s < at <= |doc| && Numeral(doc[s..at]) && Stops(doc, at) && x.strtod(doc[s..at]).None?
  }

  ghost predicate Blame(x: Numerals, doc: Bytes, message: string, at: nat) {
    && at <= |doc|
    && (message == "Unexpected EOF" || message == "Unterminated string" ==> at == |doc|)
    && (message == "Control character in string" ==> 0 < at < |doc| && doc[at - 1] < 0x20)
    && (message == "Invalid escape sequence" ==>
          at >= 2 && doc[at - 2] == 0x5C && doc[at - 1] !in {0x22, 0x5C, 0x2F, 0x62, 0x66, 0x6E, 0x72, 0x74, 0x75})
    && (message == "Invalid \\u escape sequence" ==> BadUnit(doc, at))
    && (message == "Invalid bareword" ==> BadWord(doc, at))
    && (message == "Invalid number" ==> BadNumber(x, doc, at))
    && (message == "Expected JSON value" ==>
          at > 0 && doc[at - 1] !in {0x6E, 0x74, 0x66, 0x22, 0x5B, 0x7B} && !BlankChar(doc[at - 1]) && !NumeralChar(doc[at - 1]))
    && (message == "Expected , or ] after array element" ==> Unexpected(doc, at, {0x2C, 0x5D}))
    && (message == "Expected object key" ==> Unexpected(doc, at, {0x22}))
    && (message == "Expected : after object key" ==> Unexpected(doc, at, {0x3A}))
    && (message == "Expected , or } after object property" ==> Unexpected(doc, at, {0x2C, 0x7D}))
    && (message == "Text after end of document" ==> at < |doc| && !BlankChar(doc[at]))
    && message in {"Unexpected EOF", "Unterminated string", "Control character in string", "Invalid escape sequence",
                   "Invalid \\u escape sequence", "Invalid bareword", "Invalid number", "Expected JSON value",
                   "Expected , or ] after array element", "Expected object key", "Expected : after object key",
                   "Expected , or } after object property", "Text after end of document"}
  }

  // ---------------------------------------------------------------- strings

  lemma UnitIsBad(doc: Bytes, p: nat)
    requires 2 <= p <= |doc| && doc[p - 2] == 0x5C && doc[p - 1] == 0x75 && Parse4Hex(doc, p).Failure?
    ensures Parse4Hex(doc, p).message == "Invalid \\u escape sequence" && BadUnit(doc, Parse4Hex(doc, p).at)
    ensures Parse4Hex(doc, p).at <= |doc|
  {
    var u: nat := p - 2;
    assert UnitGoesWrong(doc, Parse4Hex(doc, p).at, u);
  }

  lemma UnitIsBlamed(x: Numerals, doc: Bytes, p: nat)
    requires 2 <= p <= |doc| && doc[p - 2] == 0x5C && doc[p - 1] == 0x75 && Parse4Hex(doc, p).Failure?
    ensures Blame(x, doc, Parse4Hex(doc, p).message, Parse4Hex(doc, p).at)
  {
    hide BadUnit, BadWord, BadNumber, Unexpected, Parse4Hex;
    UnitIsBad(doc, p);
  }

  lemma {:induction false} SurrogatesAreBlamed(x: Numerals, doc: Bytes, first: nat, p: nat, out: Bytes)
    requires p <= |doc| && first < 0x10000 && Surrogates(doc, first, p, out).Failure?
    ensures Blame(x, doc, Surrogates(doc, first, p, out).message, Surrogates(doc, first, p, out).at)
    decreases |doc| - p
  {
    hide Blame, EncodeUtf8, Parse4Hex;
    if Parse4Hex(doc, p + 2).Failure? {
      UnitIsBlamed(x, doc, p + 2);
    } else {
      SurrogatesAreBlamed(x, doc, Parse4Hex(doc, p + 2).value, p + 6, out + REPLACEMENT);
    }
  }

  lemma EndIsBlamed(x: Numerals, doc: Bytes)
    ensures Blame(x, doc, "Unexpected EOF", |doc|) && Blame(x, doc, "Unterminated string", |doc|)
  {
    hide BadUnit, BadWord, BadNumber, Unexpected;
  }

  lemma ControlIsBlamed(x: Numerals, doc: Bytes, at: nat)
    requires 0 < at < |doc| && doc[at - 1] < 0x20
    ensures Blame(x, doc, "Control character in string", at)
  {
    hide BadUnit, BadWord, BadNumber, Unexpected;
  }

  lemma EscapeIsBlamed(x: Numerals, doc: Bytes, at: nat)
    requires 2 <= at <= |doc| && doc[at - 2] == 0x5C && doc[at - 1] != 0x75 && Unescaped(doc[at - 1]).None?
    ensures Blame(x, doc, "Invalid escape sequence", at)
  {
    hide BadUnit, BadWord, BadNumber, Unexpected;
  }

  lemma LocalStringFailures(x: Numerals, doc: Bytes, p: nat, out: Bytes)
    requires p <= |doc| && ParseString(doc, p, out).Failure?
    requires var (c, q) := Next(doc, p);
      q == |doc| || c < 0x20 || (c == 0x5C && doc[q] != 0x75 && Unescaped(doc[q]).None?)
    ensures Blame(x, doc, ParseString(doc, p, out).message, ParseString(doc, p, out).at)
  {
    hide Blame, ParseUnicode, Unescaped;
    var (c, q) := Next(doc, p);
    if q == |doc| {
      EndIsBlamed(x, doc);
    } else if c < 0x20 {
      ControlIsBlamed(x, doc, q);
    } else {
      EscapeIsBlamed(x, doc, q + 1);
    }
  }

  lemma {:induction false} StringIsBlamed(x: Numerals, doc: Bytes, p: nat, out: Bytes)
    requires p <= |doc| && ParseString(doc, p, out).Failure?
    ensures Blame(x, doc, ParseString(doc, p, out).message, ParseString(doc, p, out).at)
    decreases |doc| - p
  {
    hide Blame, Surrogates, Parse4Hex;
    var (c, q) := Next(doc, p);
    if q == |doc| || c < 0x20 || (c == 0x5C && doc[q] != 0x75 && Unescaped(doc[q]).None?) {
      LocalStringFailures(x, doc, p, out);
    } else if c != 0x5C {
      StringIsBlamed(x, doc, q, out + [c]);
    } else if doc[q] == 0x75 {
      var unit := Parse4Hex(doc, q + 1);
      if unit.Failure? {
        UnitIsBlamed(x, doc, q + 1);
      } else {
        var read := Surrogates(doc, unit.value, unit.pos, out);
        if read.Failure? {
          SurrogatesAreBlamed(x, doc, unit.value, unit.pos, out);
        } else {
          StringIsBlamed(x, doc, read.pos, read.value);
        }
      }
    } else {
      StringIsBlamed(x, doc, q + 1, out + [Unescaped(doc[q]).value]);
    }
  }

  // ---------------------------------------------------------------- words and numbers

  lemma BadWordIsBlamed(x: Numerals, doc: Bytes, at: nat)
    requires at <= |doc| && BadWord(doc, at)
    ensures Blame(x, doc, "Invalid bareword", at)
  {
    hide BadUnit, BadWord, BadNumber, Unexpected;
  }

  lemma WordWentWrong(doc: Bytes, at: nat, word: Bytes, s: nat, n: nat)
    requires word in WORDS && 0 < n < |word| && s + n <= |doc| && doc[s..s + n] == word[..n]
    requires if s + n == |doc| then at == |doc| else at == s + n + 1 && doc[s + n] != word[n]
    ensures BadWord(doc, at)
  {
    assert GoesWrong(doc, at, word, s, n);
  }

  /** A word that is right for its first n letters. */
  lemma {:induction false} WordIsBlamed(x: Numerals, doc: Bytes, word: Bytes, s: nat, n: nat)
    requires word in WORDS && 0 < n <= |word| && s + n <= |doc| && doc[s..s + n] == word[..n]
    requires ParseWord(doc, s + n, word[n..]).Failure?
    ensures Blame(x, doc, ParseWord(doc, s + n, word[n..]).message, ParseWord(doc, s + n, word[n..]).at)
    decreases |word| - n
  {
    hide Blame, GoesWrong, BadWord;
    var p := s + n;
    if p < |doc| && doc[p] == word[n] {
      assert doc[s..p + 1] == doc[s..p] + [doc[p]] && word[..n + 1] == word[..n] + [word[n]];
      assert word[n..][1..] == word[n + 1..];
      WordIsBlamed(x, doc, word, s, n + 1);
    } else {
      var at := ParseWord(doc, p, word[n..]).at;
      WordWentWrong(doc, at, word, s, n);
      BadWordIsBlamed(x, doc, at);
    }
  }

  lemma BarewordIsBlamed(x: Numerals, doc: Bytes, s: nat, tail: Bytes, value: Expr)
    requires s < |doc| && [doc[s]] + tail in WORDS && Bareword(doc, s + 1, tail, value).Failure?
    ensures Blame(x, doc, Bareword(doc, s + 1, tail, value).message, Bareword(doc, s + 1, tail, value).at)
  {
    hide Blame, ParseWord;
    var word := [doc[s]] + tail;
    assert doc[s..s + 1] == word[..1] && word[1..] == tail;
    WordIsBlamed(x, doc, word, s, 1);
  }

  lemma NumberIsBlamed(x: Numerals, doc: Bytes, p: nat)
    requires 0 < p <= |doc| && IsNumberChar(doc[p - 1]) && ParseNumber(x, doc, p).Failure?
    ensures Blame(x, doc, ParseNumber(x, doc, p).message, ParseNumber(x, doc, p).at)
  {
    hide BadUnit, BadWord, Unexpected;
    NumberIsARun(doc, p);
    var q := NumberEnd(doc, p);
    assert Numeral(doc[p - 1..q]);
  }

  // ---------------------------------------------------------------- values

  lemma LocalFailures(x: Numerals, doc: Bytes, p: nat)
    requires p <= |doc|
    ensures SkipSpace(doc, p) == |doc| ==> Blame(x, doc, "Unexpected EOF", |doc|)
    ensures var q := SkipSpace(doc, p);
      q < |doc| && doc[q] !in {0x6E, 0x74, 0x66, 0x22, 0x5B, 0x7B} && !IsNumberChar(doc[q]) ==>
        Blame(x, doc, "Expected JSON value", q + 1)
    ensures var q := SkipSpace(doc, p); q < |doc| ==> Blame(x, doc, "Text after end of document", q)
  {
    hide BadUnit, BadWord, BadNumber, Unexpected;
    SkippedIsSpace(doc, p);
  }

  lemma MarkIsUnexpected(doc: Bytes, p: nat, expected: set<Byte>)
    requires p <= |doc|
    ensures var (c, q) := Next(doc, SkipSpace(doc, p)); c !in expected ==> Unexpected(doc, q, expected)
  {
    SkippedIsSpace(doc, p);
  }

  lemma UnexpectedIsBlamed(x: Numerals, doc: Bytes, at: nat)
    requires at <= |doc|
    ensures Unexpected(doc, at, {0x2C, 0x5D}) ==> Blame(x, doc, "Expected , or ] after array element", at)
    ensures Unexpected(doc, at, {0x22}) ==> Blame(x, doc, "Expected object key", at)
  {
    hide BadUnit, BadWord, BadNumber, Unexpected;
  }

  lemma UnexpectedInObjectIsBlamed(x: Numerals, doc: Bytes, at: nat)
    requires at <= |doc|
    ensures Unexpected(doc, at, {0x3A}) ==> Blame(x, doc, "Expected : after object key", at)
    ensures Unexpected(doc, at, {0x2C, 0x7D}) ==> Blame(x, doc, "Expected , or } after object property", at)
  {
    hide BadUnit, BadWord, BadNumber, Unexpected;
  }

  lemma MarkIsBlamed(x: Numerals, doc: Bytes, p: nat)
    requires p <= |doc|
    ensures var (c, q) := Next(doc, SkipSpace(doc, p));
      && (c != 0x2C && c != 0x5D ==> Blame(x, doc, "Expected , or ] after array element", q))
      && (c != 0x22 ==> Blame(x, doc, "Expected object key", q))
      && (c != 0x3A ==> Blame(x, doc, "Expected : after object key", q))
      && (c != 0x2C && c != 0x7D ==> Blame(x, doc, "Expected , or } after object property", q))
  {
    hide Blame, Unexpected, SkipSpace, Next;
    MarkIsUnexpected(doc, p, {0x2C, 0x5D});
    MarkIsUnexpected(doc, p, {0x22});
    MarkIsUnexpected(doc, p, {0x3A});
    MarkIsUnexpected(doc, p, {0x2C, 0x7D});
    UnexpectedIsBlamed(x, doc, Next(doc, SkipSpace(doc, p)).1);
    UnexpectedInObjectIsBlamed(x, doc, Next(doc, SkipSpace(doc, p)).1);
  }

  lemma {:induction false} ExprIsBlamed(x: Numerals, doc: Bytes, p: nat)
    requires p <= |doc| && ParseExpr(x, doc, p).Failure?
    ensures Blame(x, doc, ParseExpr(x, doc, p).message, ParseExpr(x, doc, p).at)
    decreases |doc| - p, 0
  {
    hide Blame, SkipSpace, Bareword, ParseString, ParseItems, ParseProperties, ParseNumber;
    LocalFailures(x, doc, p);
    assert [0x6E] + NULL_TAIL == [0x6E, 0x75, 0x6C, 0x6C] && [0x74] + TRUE_TAIL == [0x74, 0x72, 0x75, 0x65];
    assert [0x66] + FALSE_TAIL == [0x66, 0x61, 0x6C, 0x73, 0x65];
    var start := SkipSpace(doc, p);
    if start < |doc| {
      var c, q := doc[start], start + 1;
      if c == 0x6E {
        BarewordIsBlamed(x, doc, start, NULL_TAIL, Null);
      } else if c == 0x74 {
        BarewordIsBlamed(x, doc, start, TRUE_TAIL, Boolean(true));
      } else if c == 0x66 {
        BarewordIsBlamed(x, doc, start, FALSE_TAIL, Boolean(false));
      } else if c == 0x22 {
        StringIsBlamed(x, doc, q, []);
      } else if c == 0x5B {
        ItemsAreBlamed(x, doc, q, []);
      } else if c == 0x7B {
        PropertiesAreBlamed(x, doc, q, []);
      } else if IsNumberChar(c) {
        NumberIsBlamed(x, doc, q);
      }
    }
  }

  lemma {:induction false} ItemsAreBlamed(x: Numerals, doc: Bytes, p: nat, items: seq<Expr>)
    requires p <= |doc| && ParseItems(x, doc, SkipSpace(doc, p), items).Failure?
    ensures var r := ParseItems(x, doc, SkipSpace(doc, p), items); Blame(x, doc, r.message, r.at)
    decreases |doc| - p, 1
  {
    hide Blame, SkipSpace, ParseExpr;
    var item := ParseExpr(x, doc, SkipSpace(doc, p));
    if item.Failure? {
      ExprIsBlamed(x, doc, SkipSpace(doc, p));
    } else {
      MarkIsBlamed(x, doc, item.pos);
      var (c, q) := Next(doc, SkipSpace(doc, item.pos));
      if c == 0x2C {
        ItemsAreBlamed(x, doc, q, items + [item.value]);
      }
    }
  }

  lemma {:induction false} PropertyIsBlamed(x: Numerals, doc: Bytes, p: nat)
    requires p <= |doc| && ParseProperty(x, doc, SkipSpace(doc, p)).Failure?
    ensures var r := ParseProperty(x, doc, SkipSpace(doc, p)); Blame(x, doc, r.message, r.at)
    decreases |doc| - p, 1
  {
    hide Blame, SkipSpace, ParseExpr, ParseString;
    MarkIsBlamed(x, doc, p);
    var (c, q) := Next(doc, SkipSpace(doc, p));
    if c == 0x22 {
      var key := ParseString(doc, q, []);
      if key.Failure? {
        StringIsBlamed(x, doc, q, []);
      } else {
        MarkIsBlamed(x, doc, key.pos);
        var (d, r) := Next(doc, SkipSpace(doc, key.pos));
        if d == 0x3A {
          ExprIsBlamed(x, doc, SkipSpace(doc, r));
        }
      }
    }
  }

  lemma {:induction false} PropertiesAreBlamed(x: Numerals, doc: Bytes, p: nat, ps: seq<Property>)
    requires p <= |doc| && ParseProperties(x, doc, SkipSpace(doc, p), ps).Failure?
    ensures var r := ParseProperties(x, doc, SkipSpace(doc, p), ps); Blame(x, doc, r.message, r.at)
    decreases |doc| - p, 2
  {
    hide Blame, SkipSpace, ParseProperty, Insert;
    var property := ParseProperty(x, doc, SkipSpace(doc, p));
    if property.Failure? {
      PropertyIsBlamed(x, doc, p);
    } else {
      MarkIsBlamed(x, doc, property.pos);
      var (e, t) := Next(doc, SkipSpace(doc, property.pos));
      if e == 0x2C {
        PropertiesAreBlamed(x, doc, t, Insert(ps, property.value.key, property.value.value));
      }
    }
  }

  /** A refused document is blamed by one of thirteen messages, and the text at the offset bears it out. */
  lemma RefusalsAreBlamed(x: Numerals, doc: Bytes)
    requires Parse(x, doc).Failure?
    ensures Blame(x, doc, Parse(x, doc).message, Parse(x, doc).at)
  {
    hide Blame, SkipSpace, ParseExpr;
    var read := ParseExpr(x, doc, 0);
    if read.Failure? {
      ExprIsBlamed(x, doc, 0);
    } else {
      LocalFailures(x, doc, read.pos);
    }
  }

  // ---------------------------------------------------------------- line and column

  /** Lines with a line feed between them. */
  function JoinedLines(lines: seq<Bytes>): Bytes
    requires lines != []
  {
    var n := |lines| - 1;
    if n == 0 then lines[0] else JoinedLines(lines[..n]) + [0x0A] + lines[n]
  }

  predicate OneLine(line: Bytes) { forall i :: 0 <= i < |line| ==> line[i] != 0x0A }

  lemma {:induction false} NewlinesOfLine(before: Bytes, line: Bytes)
    requires OneLine(line)
    ensures JsonParser.Newlines(before + line) == JsonParser.Newlines(before)
    decreases |line|
  {
    if line == [] {
      assert before + line == before;
    } else {
      var n := |line| - 1;
      NewlinesOfLine(before, line[..n]);
      assert (before + line)[..|before + line| - 1] == before + line[..n];
    }
  }

  lemma {:induction false} NewlinesOfLines(lines: seq<Bytes>)
    requires lines != [] && forall i :: 0 <= i < |lines| ==> OneLine(lines[i])
    ensures JsonParser.Newlines(JoinedLines(lines)) == |lines| - 1
    decreases |lines|
  {
    var n := |lines| - 1;
    if n == 0 {
      NewlinesOfLine([], lines[0]);
      assert [] + lines[0] == lines[0];
    } else {
      NewlinesOfLines(lines[..n]);
      var before := JoinedLines(lines[..n]);
      assert (before + [0x0A])[..|before|] == before;
      NewlinesOfLine(before + [0x0A], lines[n]);
    }
  }

  /** The line is the number of lines up to the offset, the one with the error included, and the column
      the number of characters before it on that line. */
  lemma ErrorsCountLines(lines: seq<Bytes>, rest: Bytes, message: string)
    requires lines != [] && forall i :: 0 <= i < |lines| ==> OneLine(lines[i])
    ensures var at := |JoinedLines(lines)|;
      JsonParser.ErrorAt(JoinedLines(lines) + rest, message, at)
      == JsonParser.ParseError(message, |lines|, |lines[|lines| - 1]|, at)
  {
    hide JsonParser.Newlines;
    var n, text := |lines| - 1, JoinedLines(lines);
    var doc, at, line := text + rest, |text|, lines[n];
    NewlinesOfLines(lines);
    assert doc[..at] == text;
    var start, found := at - |line|, JsonParser.LineStart(doc, at);
    LastLine(lines);
    assert forall i :: start <= i < at ==> doc[i] == line[i - start];
    assert start == 0 || doc[start - 1] == 0x0A;
  }

  lemma LastLine(lines: seq<Bytes>)
    requires lines != []
    ensures var text, line := JoinedLines(lines), lines[|lines| - 1];
      && |line| <= |text| && text[|text| - |line|..] == line
      && (if |lines| == 1 then |text| == |line| else |line| < |text| && text[|text| - |line| - 1] == 0x0A)
  {
  }
}
