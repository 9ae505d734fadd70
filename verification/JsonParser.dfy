/** The parser as it is written: a cursor into the document, moved by every call, and the first error found. */
module JsonParser {
  import opened Options
  import opened ByteText
  import opened Json

  datatype ParseError = ParseError(message: string, line: nat, column: nat, offset: nat)

  function Newlines(s: Bytes): nat {
    if s == [] then 0 else Newlines(s[..|s| - 1]) + (if s[|s| - 1] == NEWLINE then 1 else 0)
  }

  /** Where the line that `at` is on begins. */
  function LineStart(s: Bytes, at: nat): (start: nat)
    requires at <= |s|
    ensures start <= at
    ensures start == 0 || s[start - 1] == NEWLINE
    ensures forall i :: start <= i < at ==> s[i] != NEWLINE
  {
    if at == 0 || s[at - 1] == NEWLINE then at else LineStart(s, at - 1)
  }

  /** Lines count from one, columns from zero. */
  function ErrorAt(doc: Bytes, message: string, at: nat): ParseError
    requires at <= |doc|
  {
    ParseError(message, 1 + Newlines(doc[..at]), at - LineStart(doc, at), at)
  }

  class Parser {
    const x: Numerals
    const doc: Bytes
    var p: nat
    var err: Option<ParseError>

    constructor (x: Numerals, doc: Bytes)
      ensures this.x == x && this.doc == doc && p == 0 && err == None
    {
      this.x := x;
      this.doc := doc;
      p := 0;
      err := None;
    }

    ghost predicate Valid()
      reads this
    {
      p <= |doc|
    }

    /** A parsing method did what the specification says: the value and cursor, or the error and its place. */
    ghost predicate Agrees<T(!new)>(spec: Parsed<T>, ok: bool, value: T)
      reads this
    {
      && Valid()
      && ok == spec.Success?
      && (ok ==> value == spec.value && p == spec.pos && err == None)
      && (!ok ==> p == spec.at && err == Some(ErrorAt(doc, spec.message, p)))
    }

    method Next() returns (c: Byte)
      requires Valid()
      modifies `p
      ensures Valid() && (c, p) == Json.Next(doc, old(p))
    {
      if p == |doc| { return 0; }
      c := doc[p];
      p := p + 1;
    }

    method PeekByte() returns (c: Byte)
      requires Valid()
      ensures c == Peek(doc, p)
    {
      c := if p == |doc| then 0 else doc[p];
    }

    method EatWhitespace()
      requires Valid()
      modifies `p
      ensures Valid() && p == SkipSpace(doc, old(p))
    {
      while p != |doc| && IsSpace(doc[p])
        invariant Valid() && SkipSpace(doc, p) == SkipSpace(doc, old(p))
        decreases |doc| - p
      {
        p := p + 1;
      }
    }

    /** Counts lines up to the cursor. */
    method Fail(message: string) returns (ok: bool)
      requires Valid()
      modifies `err
      ensures !ok && err == Some(ErrorAt(doc, message, p))
    {
      var line, startOfLine, i := 1, 0, 0;
      while i < p
        invariant i <= p && line == 1 + Newlines(doc[..i]) && startOfLine == LineStart(doc, i)
      {
        assert doc[..i + 1][..i] == doc[..i];
        if doc[i] == NEWLINE {
          line := line + 1;
          startOfLine := i + 1;
        }
        i := i + 1;
      }
      err := Some(ParseError(message, line, p - startOfLine, p));
      ok := false;
    }

    /** The rest of a bare word; the source chains the comparisons with &&. */
    method Word(rest: Bytes) returns (ok: bool)
      requires Valid() && err == None && forall i :: 0 <= i < |rest| ==> rest[i] != 0
      modifies this
      ensures Agrees(ParseWord(doc, old(p), rest), ok, ())
    {
      var i := 0;
      while i < |rest|
        invariant i <= |rest| && Valid() && err == None
        invariant ParseWord(doc, p, rest[i..]) == ParseWord(doc, old(p), rest)
      {
        assert rest[i..][1..] == rest[i + 1..];
        var c := Next();
        if c != rest[i] {
          ok := Fail("Invalid bareword");
          return;
        }
        i := i + 1;
      }
      ok := true;
    }

    method Number(first: Byte) returns (ok: bool, out: Expr)
      requires Valid() && err == None && 0 < p && doc[p - 1] == first
      modifies this
      ensures Agrees(ParseNumber(x, doc, old(p)), ok, out)
    {
      var s := [first];
      var c := PeekByte();
      while IsNumberChar(c)
        invariant Valid() && err == None && old(p) <= p && c == Peek(doc, p)
        invariant s == doc[old(p) - 1..p] && NumberEnd(doc, p) == NumberEnd(doc, old(p))
        decreases |doc| - p
      {
        c := Next();
        s := s + [c];
        c := PeekByte();
      }
      match x.strtod(s) {
        case Some(d) => ok, out := true, Expr.Number(d);
        case None =>
          ok := Fail("Invalid number");
          out := Null;
      }
    }

    method Hex4() returns (ok: bool, out: nat)
      requires Valid() && err == None
      modifies this
      ensures Agrees(Parse4Hex(doc, old(p)), ok, out)
    {
      var a := Next();
      var b := Next();
      var c := Next();
      var d := Next();
      if !IsHexDigit(a) || !IsHexDigit(b) || !IsHexDigit(c) || !IsHexDigit(d) {
        ok := Fail("Invalid \\u escape sequence");
        return false, 0;
      }
      out := HexValue(a);
      out := out * 0x10 + HexValue(b);
      out := out * 0x10 + HexValue(c);
      out := out * 0x10 + HexValue(d);
      ok := true;
    }

    /** Loops while a leading surrogate is followed by an escape that is no trailing one. */
    method Unicode(s: Bytes) returns (ok: bool, out: Bytes)
      requires Valid() && err == None
      modifies this
      ensures Agrees(ParseUnicode(doc, old(p), s), ok, out)
    {
      out := s;
      var first;
      ok, first := Hex4();
      if !ok { return; }
      while true
        invariant ok && Valid() && err == None && first < 0x10000
        invariant Surrogates(doc, first, p, out) == ParseUnicode(doc, old(p), s)
        decreases |doc| - p
      {
        if first < 0xD800 || first >= 0xE000 {
          out := out + EncodeUtf8(first);
          return;
        }
        if first >= 0xDC00 {
          out := out + REPLACEMENT;
          return;
        }
        if p + 2 > |doc| || doc[p] != BACKSLASH || doc[p + 1] != LOWER_U {
          out := out + REPLACEMENT;
          return;
        }
        p := p + 2;
        var second;
        ok, second := Hex4();
        if !ok { return; }
        if second < 0xDC00 || second >= 0xE000 {
          out := out + REPLACEMENT;
          first := second;
          continue;
        }
        out := out + EncodeUtf8(CombineSurrogates(first, second));
        return;
      }
    }

    method Str() returns (ok: bool, out: Bytes)
      requires Valid() && err == None
      modifies this
      ensures Agrees(ParseString(doc, old(p), []), ok, out)
    {
      out := [];
      ghost var q := p;
      var c := Next();
      while c != QUOTE
        invariant q <= |doc| && Valid() && err == None && (c, p) == Json.Next(doc, q)
        invariant ParseString(doc, q, out) == ParseString(doc, old(p), [])
        decreases |doc| - q
      {
        if p == |doc| {
          ok := Fail("Unterminated string");
          return;
        }
        if c < 0x20 {
          ok := Fail("Control character in string");
          return;
        }
        if c != BACKSLASH {
          out := out + [c];
        } else {
          c := Next();
          if c == LOWER_U {
            ok, out := Unicode(out);
            if !ok { return; }
          } else {
            match Unescaped(c) {
              case Some(u) => out := out + [u];
              case None =>
                ok := Fail("Invalid escape sequence");
                return;
            }
          }
        }
        q := p;
        c := Next();
      }
      ok := true;
    }

    method Value() returns (ok: bool, out: Expr)
      requires Valid() && err == None
      modifies this
      ensures Agrees(ParseExpr(x, doc, old(p)), ok, out)
      decreases |doc| - p, 0
    {
      out := Null;
      EatWhitespace();
      if p == |doc| {
        ok := Fail("Unexpected EOF");
        return;
      }
      var c := Next();
      if c == LOWER_N {
        ok := Word(NULL_TAIL);
      } else if c == LOWER_T {
        out := Boolean(true);
        ok := Word(TRUE_TAIL);
      } else if c == LOWER_F {
        out := Boolean(false);
        ok := Word(FALSE_TAIL);
      } else if c == QUOTE {
        var s;
        ok, s := Str();
        out := String(s);
      } else if c == OPEN_BRACKET {
        EatWhitespace();
        var d := PeekByte();
        if d == CLOSE_BRACKET {
          p := p + 1;
          return true, Array([]);
        }
        ok, out := Items();
      } else if c == OPEN_BRACE {
        EatWhitespace();
        var d := PeekByte();
        if d == CLOSE_BRACE {
          p := p + 1;
          return true, Object([]);
        }
        ok, out := Properties();
      } else if IsNumberChar(c) {
        ok, out := Number(c);
      } else {
        ok := Fail("Expected JSON value");
      }
    }

    method Items() returns (ok: bool, out: Expr)
      requires Valid() && err == None
      modifies this
      ensures Agrees(ParseItems(x, doc, old(p), []), ok, out)
      decreases |doc| - p, 1
    {
      var a: seq<Expr> := [];
      out := Null;
      while true
        invariant Valid() && err == None && old(p) <= p
        invariant ParseItems(x, doc, p, a) == ParseItems(x, doc, old(p), [])
        decreases |doc| - p
      {
        var item;
        ok, item := Value();
        if !ok { return; }
        a := a + [item];
        EatWhitespace();
        var c := Next();
        if c == COMMA {
          EatWhitespace();
        } else if c == CLOSE_BRACKET {
          return true, Array(a);
        } else {
          ok := Fail("Expected , or ] after array element");
          return;
        }
      }
    }

    method Properties() returns (ok: bool, out: Expr)
      requires Valid() && err == None
      modifies this
      ensures Agrees(ParseProperties(x, doc, old(p), []), ok, out)
      decreases |doc| - p, 1
    {
      var o: seq<Property> := [];
      out := Null;
      while true
        invariant Valid() && err == None && old(p) <= p
        invariant ParseProperties(x, doc, p, o) == ParseProperties(x, doc, old(p), [])
        decreases |doc| - p
      {
        var c := Next();
        if c != QUOTE {
          ok := Fail("Expected object key");
          return;
        }
        var key, value;
        ok, key := Str();
        if !ok { return; }
        EatWhitespace();
        c := Next();
        if c != COLON {
          ok := Fail("Expected : after object key");
          return;
        }
        EatWhitespace();
        ok, value := Value();
        if !ok { return; }
        o := Insert(o, key, value);
        EatWhitespace();
        c := Next();
        if c == COMMA {
          EatWhitespace();
        } else if c == CLOSE_BRACE {
          return true, Object(o);
        } else {
          ok := Fail("Expected , or } after object property");
          return;
        }
      }
    }

    method AssertEnd() returns (ok: bool)
      requires Valid() && err == None
      modifies this
      ensures Valid() && p == SkipSpace(doc, old(p)) && ok == (p == |doc|)
      ensures err == if ok then None else Some(ErrorAt(doc, "Text after end of document", p))
    {
      EatWhitespace();
      if p == |doc| { return true; }
      ok := Fail("Text after end of document");
    }
  }

  datatype Outcome = Value(value: Expr) | Error(error: ParseError)

  /** An error is there to be taken whenever no value is returned. */
  method Parse(x: Numerals, json: Bytes) returns (r: Outcome)
    ensures match Json.Parse(x, json)
      case Success(e, _) => r == Value(e)
      case Failure(message, at) => at <= |json| && r == Error(ErrorAt(json, message, at))
  {
    var parser := new Parser(x, json);
    var ok, e := parser.Value();
    if ok {
      ok := parser.AssertEnd();
    }
    if ok { return Value(e); }
    r := Error(parser.err.value);
  }
}
