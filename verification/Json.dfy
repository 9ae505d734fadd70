/** JSON expressions as bytes: what the parser accepts and what the printer writes. */
module Json {
  import opened Options
  import opened ByteText

  /** Doubles are opaque; `strtod` gives None unless it accepts the whole text, `format` is "%g". */
  datatype Double = Double(id: nat)
  datatype Numerals = Numerals(strtod: Bytes -> Option<Double>, format: Double -> Bytes)

  datatype Property = Property(key: Bytes, value: Expr)

  /** Objects list their properties by increasing key, as the std::map they are kept in does. */
  datatype Expr =
    | Null
    | Boolean(b: bool)
    | Number(n: Double)
    | String(s: Bytes)
    | Array(items: seq<Expr>)
    | Object(properties: seq<Property>)

  // ---------------------------------------------------------------- characters

  const QUOTE: Byte := 0x22
  const BACKSLASH: Byte := 0x5C
  const COMMA: Byte := 0x2C
  const COLON: Byte := 0x3A
  const OPEN_BRACKET: Byte := 0x5B
  const CLOSE_BRACKET: Byte := 0x5D
  const OPEN_BRACE: Byte := 0x7B
  const CLOSE_BRACE: Byte := 0x7D
  const SPACE: Byte := 0x20
  const TAB: Byte := 0x09
  const NEWLINE: Byte := 0x0A
  const RETURN: Byte := 0x0D
  const LOWER_N: Byte := 0x6E
  const LOWER_R: Byte := 0x72
  const LOWER_T: Byte := 0x74
  const LOWER_U: Byte := 0x75
  const LOWER_B: Byte := 0x62
  const LOWER_F: Byte := 0x66
  const SLASH: Byte := 0x2F

  const NULL_TAIL: Bytes := [0x75, 0x6C, 0x6C]
  const TRUE_TAIL: Bytes := [0x72, 0x75, 0x65]
  const FALSE_TAIL: Bytes := [0x61, 0x6C, 0x73, 0x65]

  predicate IsSpace(c: Byte) { c == SPACE || c == RETURN || c == NEWLINE || c == TAB }

  predicate IsNumberChar(c: Byte) {
    0x30 <= c <= 0x39 || c == 0x65 || c == 0x45 || c == 0x2B || c == 0x2D || c == 0x2E
  }

  predicate IsHexDigit(c: Byte) { 0x30 <= c <= 0x39 || 0x41 <= c <= 0x46 || 0x61 <= c <= 0x66 }

  function HexValue(c: Byte): (v: nat)
    requires IsHexDigit(c)
    ensures v < 16
  {
    if c <= 0x39 then c - 0x30 else if c <= 0x46 then c - 0x41 + 10 else c - 0x61 + 10
  }

  // ---------------------------------------------------------------- objects

  /** O[key] = value in a map kept sorted by key. */
  function Insert(ps: seq<Property>, key: Bytes, value: Expr): seq<Property> {
    if ps == [] then [Property(key, value)]
    else if ps[0].key == key then [Property(key, value)] + ps[1..]
    else if TextLess(key, ps[0].key) then [Property(key, value)] + ps
    else [ps[0]] + Insert(ps[1..], key, value)
  }

  // ---------------------------------------------------------------- UTF-8 output of escapes

  function EncodeUtf8(rune: nat): Bytes
    requires rune <= 0x10FFFF
  {
    if rune <= 0x7F then [rune]
    else if rune <= 0x7FF then [0xC0 + rune / 0x40, 0x80 + rune % 0x40]
    else if rune <= 0xFFFF then [0xE0 + rune / 0x1000, 0x80 + rune / 0x40 % 0x40, 0x80 + rune % 0x40]
    else [0xF0 + rune / 0x4_0000, 0x80 + rune / 0x1000 % 0x40, 0x80 + rune / 0x40 % 0x40, 0x80 + rune % 0x40]
  }

  /** U+FFFD, which replaces invalid surrogates. */
  const REPLACEMENT: Bytes := [0xEF, 0xBF, 0xBD]

  predicate Leading(u: nat) { 0xD800 <= u < 0xDC00 }
  predicate Trailing(u: nat) { 0xDC00 <= u < 0xE000 }

  /** 0x10000 | ((First - 0xD800) << 10) | (Second - 0xDC00): the fields below 0x10000 do not meet,
      but bit 16 of the shifted one may already be set. */
  function CombineSurrogates(first: nat, second: nat): (rune: nat)
    requires Leading(first) && Trailing(second)
    ensures 0x10000 <= rune <= 0x10FFFF
  {
    var bits := (first - 0xD800) * 0x400 + (second - 0xDC00);
    if bits / 0x10000 % 2 == 1 then bits else bits + 0x10000
  }

  // ---------------------------------------------------------------- parsing

  /** `pos` is where the parser's cursor is left; an error is reported at its cursor. */
  datatype Parsed<T> = Success(value: T, pos: nat) | Failure(message: string, at: nat)

  /** next(): 0 at the end, where the cursor stays. */
  function Next(doc: Bytes, p: nat): (r: (Byte, nat))
    requires p <= |doc|
    ensures p <= r.1 <= |doc|
  {
    if p == |doc| then (0, p) else (doc[p], p + 1)
  }

  function SkipSpace(doc: Bytes, p: nat): (q: nat)
    requires p <= |doc|
    ensures p <= q <= |doc|
    decreases |doc| - p
  {
    if p < |doc| && IsSpace(doc[p]) then SkipSpace(doc, p + 1) else p
  }

  function ParseWord(doc: Bytes, p: nat, rest: Bytes): (r: Parsed<()>)
    requires p <= |doc|
    ensures r.Success? ==> r.pos == p + |rest| <= |doc|
    decreases |rest|
  {
    if rest == [] then Success((), p)
    else
      var (c, q) := Next(doc, p);
      if p < |doc| && c == rest[0] then ParseWord(doc, q, rest[1..]) else Failure("Invalid bareword", q)
  }

  function NumberEnd(doc: Bytes, p: nat): (q: nat)
    requires p <= |doc|
    ensures p <= q <= |doc|
    decreases |doc| - p
  {
    if p < |doc| && IsNumberChar(doc[p]) then NumberEnd(doc, p + 1) else p
  }

  /** A maximal run of number characters, the first of which is before p. */
  function ParseNumber(x: Numerals, doc: Bytes, p: nat): (r: Parsed<Expr>)
    requires 0 < p <= |doc|
    ensures r.Success? ==> p <= r.pos <= |doc|
  {
    var q := NumberEnd(doc, p);
    match x.strtod(doc[p - 1..q])
    case Some(d) => Success(Number(d), q)
    case None => Failure("Invalid number", q)
  }

  /** Four hexadecimal digits; all four characters are consumed before they are looked at. */
  function Parse4Hex(doc: Bytes, p: nat): (r: Parsed<nat>)
    requires p <= |doc|
    ensures r.Success? ==> r.pos == p + 4 <= |doc| && r.value < 0x10000
  {
    if p + 4 <= |doc| && IsHexDigit(doc[p]) && IsHexDigit(doc[p + 1]) && IsHexDigit(doc[p + 2])
      && IsHexDigit(doc[p + 3]) then
      Success(0x1000 * HexValue(doc[p]) + 0x100 * HexValue(doc[p + 1]) + 0x10 * HexValue(doc[p + 2]) + HexValue(doc[p + 3]), p + 4)
    else Failure("Invalid \\u escape sequence", if p + 4 <= |doc| then p + 4 else |doc|)
  }

  /** What a decoded first escape and the text at p contribute. */
  function Surrogates(doc: Bytes, first: nat, p: nat, out: Bytes): (r: Parsed<Bytes>)
    requires p <= |doc| && first < 0x10000
    ensures r.Success? ==> p <= r.pos <= |doc|
    decreases |doc| - p
  {
    if first < 0xD800 || first >= 0xE000 then Success(out + EncodeUtf8(first), p)
    else if first >= 0xDC00 then Success(out + REPLACEMENT, p)
    else if p + 2 > |doc| || doc[p] != BACKSLASH || doc[p + 1] != LOWER_U then Success(out + REPLACEMENT, p)
    else
      match Parse4Hex(doc, p + 2)
      case Failure(message, at) => Failure(message, at)
      case Success(second, q) =>
        if Trailing(second) then Success(out + EncodeUtf8(CombineSurrogates(first, second)), q)
        else Surrogates(doc, second, q, out + REPLACEMENT)
  }

  function ParseUnicode(doc: Bytes, p: nat, out: Bytes): (r: Parsed<Bytes>)
    requires p <= |doc|
    ensures r.Success? ==> p < r.pos <= |doc|
  {
    match Parse4Hex(doc, p)
    case Failure(message, at) => Failure(message, at)
    case Success(first, q) => Surrogates(doc, first, q, out)
  }

  /** What a one-character escape stands for. */
  function Unescaped(c: Byte): Option<Byte> {
    if c == QUOTE || c == BACKSLASH || c == SLASH then Some(c)
    else if c == LOWER_B then Some(0x08)
    else if c == LOWER_F then Some(0x0C)
    else if c == LOWER_N then Some(NEWLINE)
    else if c == LOWER_R then Some(RETURN)
    else if c == LOWER_T then Some(TAB)
    else None
  }

  /** The rest of a string whose opening quote was consumed; `out` is what it holds so far. */
  function ParseString(doc: Bytes, p: nat, out: Bytes): (r: Parsed<Bytes>)
    requires p <= |doc|
    ensures r.Success? ==> p < r.pos <= |doc|
    decreases |doc| - p
  {
    var (c, q) := Next(doc, p);
    if c == QUOTE then Success(out, q)
    else if q == |doc| then Failure("Unterminated string", q)
    else if c < 0x20 then Failure("Control character in string", q)
    else if c != BACKSLASH then ParseString(doc, q, out + [c])
    else
      var (e, q1) := Next(doc, q);
      if e == LOWER_U then
        match ParseUnicode(doc, q1, out)
        case Failure(message, at) => Failure(message, at)
        case Success(extended, q2) => ParseString(doc, q2, extended)
      else
        match Unescaped(e)
        case Some(u) => ParseString(doc, q1, out + [u])
        case None => Failure("Invalid escape sequence", q1)
  }

  function Peek(doc: Bytes, p: nat): Byte
    requires p <= |doc|
  {
    Next(doc, p).0
  }

  function ParseExpr(x: Numerals, doc: Bytes, p: nat): (r: Parsed<Expr>)
    requires p <= |doc|
    ensures r.Success? ==> p < r.pos <= |doc|
    decreases |doc| - p, 0
  {
    var start := SkipSpace(doc, p);
    if start == |doc| then Failure("Unexpected EOF", start)
    else
      var c, q := doc[start], start + 1;
      if c == LOWER_N then Bareword(doc, q, NULL_TAIL, Null)
      else if c == LOWER_T then Bareword(doc, q, TRUE_TAIL, Boolean(true))
      else if c == LOWER_F then Bareword(doc, q, FALSE_TAIL, Boolean(false))
      else if c == QUOTE then
        match ParseString(doc, q, [])
        case Failure(message, at) => Failure(message, at)
        case Success(s, end) => Success(String(s), end)
      else if c == OPEN_BRACKET then
        var first := SkipSpace(doc, q);
        if Peek(doc, first) == CLOSE_BRACKET then Success(Array([]), first + 1) else ParseItems(x, doc, first, [])
      else if c == OPEN_BRACE then
        var first := SkipSpace(doc, q);
        if Peek(doc, first) == CLOSE_BRACE then Success(Object([]), first + 1) else ParseProperties(x, doc, first, [])
      else if IsNumberChar(c) then ParseNumber(x, doc, q)
      else Failure("Expected JSON value", q)
  }

  function Bareword(doc: Bytes, p: nat, rest: Bytes, value: Expr): (r: Parsed<Expr>)
    requires p <= |doc|
    ensures r.Success? ==> r.pos == p + |rest| <= |doc|
  {
    match ParseWord(doc, p, rest)
    case Failure(message, at) => Failure(message, at)
    case Success(_, q) => Success(value, q)
  }

  /** The array elements from p on, after `items`. */
  function ParseItems(x: Numerals, doc: Bytes, p: nat, items: seq<Expr>): (r: Parsed<Expr>)
    requires p <= |doc|
    ensures r.Success? ==> p < r.pos <= |doc|
    decreases |doc| - p, 1
  {
    match ParseExpr(x, doc, p)
    case Failure(message, at) => Failure(message, at)
    case Success(item, end) =>
      var (c, q) := Next(doc, SkipSpace(doc, end));
      if c == COMMA then ParseItems(x, doc, SkipSpace(doc, q), items + [item])
      else if c == CLOSE_BRACKET then Success(Array(items + [item]), q)
      else Failure("Expected , or ] after array element", q)
  }

  /** A key, a colon and a value. */
  function ParseProperty(x: Numerals, doc: Bytes, p: nat): (r: Parsed<Property>)
    requires p <= |doc|
    ensures r.Success? ==> p < r.pos <= |doc|
    decreases |doc| - p, 1
  {
    var (c, q) := Next(doc, p);
    if c != QUOTE then Failure("Expected object key", q)
    else
      match ParseString(doc, q, [])
      case Failure(message, at) => Failure(message, at)
      case Success(key, keyEnd) =>
        var (d, r) := Next(doc, SkipSpace(doc, keyEnd));
        if d != COLON then Failure("Expected : after object key", r)
        else
          match ParseExpr(x, doc, SkipSpace(doc, r))
          case Failure(message, at) => Failure(message, at)
          case Success(value, end) => Success(Property(key, value), end)
  }

  /** The object properties from p on, after `ps`. */
  function ParseProperties(x: Numerals, doc: Bytes, p: nat, ps: seq<Property>): (r: Parsed<Expr>)
    requires p <= |doc|
    ensures r.Success? ==> p < r.pos <= |doc|
    decreases |doc| - p, 2
  {
    match ParseProperty(x, doc, p)
    case Failure(message, at) => Failure(message, at)
    case Success(property, end) =>
      var (e, t) := Next(doc, SkipSpace(doc, end));
      var longer := Insert(ps, property.key, property.value);
      if e == COMMA then ParseProperties(x, doc, SkipSpace(doc, t), longer)
      else if e == CLOSE_BRACE then Success(Object(longer), t)
      else Failure("Expected , or } after object property", t)
  }

  /** parse(): one expression and nothing but whitespace after it. */
  function Parse(x: Numerals, doc: Bytes): Parsed<Expr> {
    match ParseExpr(x, doc, 0)
    case Failure(message, at) => Failure(message, at)
    case Success(e, end) =>
      var q := SkipSpace(doc, end);
      if q == |doc| then Success(e, q) else Failure("Text after end of document", q)
  }

  // ---------------------------------------------------------------- printing

  function Escaped(c: Byte): Bytes {
    if c == QUOTE || c == BACKSLASH then [BACKSLASH, c]
    else if c >= 0x20 then [c]
    else if c == TAB then [BACKSLASH, LOWER_T]
    else if c == NEWLINE then [BACKSLASH, LOWER_N]
    else if c == RETURN then [BACKSLASH, LOWER_R]
    else [BACKSLASH, LOWER_U, 0x30, 0x30, HexDigit(c / 16), HexDigit(c % 16)]
  }

  function EscapedAll(s: Bytes): Bytes {
    if s == [] then [] else Escaped(s[0]) + EscapedAll(s[1..])
  }

  function Quoted(s: Bytes): Bytes {
    [QUOTE] + EscapedAll(s) + [QUOTE]
  }

  /** What the indenter does: nothing, or lay out with `amount` more spaces per level. */
  datatype Layout = Compact | Pretty(amount: nat)

  function Spaces(n: nat): Bytes {
    seq(n, _ => SPACE)
  }

  function LineBreak(layout: Layout, level: nat): Bytes {
    if layout.Compact? then [] else [NEWLINE] + Spaces(level)
  }

  function Gap(layout: Layout): Bytes {
    if layout.Compact? then [] else [SPACE]
  }

  /** IndentLevel is an unsigned int, and wraps around. */
  function Deeper(layout: Layout, level: nat): nat {
    if layout.Compact? then level else (level + layout.amount) % 0x1_0000_0000
  }

  function Print(x: Numerals, e: Expr, layout: Layout, level: nat): Bytes
    decreases e
  {
    match e
    case Null => [LOWER_N] + NULL_TAIL
    case Boolean(b) => if b then [LOWER_T] + TRUE_TAIL else [LOWER_F] + FALSE_TAIL
    case Number(d) => x.format(d)
    case String(s) => Quoted(s)
    case Array(items) =>
      [OPEN_BRACKET] + (PrintItems(x, items, layout, Deeper(layout, level), true)
      + ((if items == [] then [] else LineBreak(layout, level)) + [CLOSE_BRACKET]))
    case Object(ps) =>
      [OPEN_BRACE] + (PrintProperties(x, ps, layout, Deeper(layout, level), true)
      + ((if ps == [] then [] else LineBreak(layout, level)) + [CLOSE_BRACE]))
  }

  function PrintItems(x: Numerals, items: seq<Expr>, layout: Layout, level: nat, first: bool): Bytes
    decreases items
  {
    if items == [] then []
    else
      (if first then [] else [COMMA]) + (LineBreak(layout, level)
      + (Print(x, items[0], layout, level) + PrintItems(x, items[1..], layout, level, false)))
  }

  function PrintProperties(x: Numerals, ps: seq<Property>, layout: Layout, level: nat, first: bool): Bytes
    decreases ps
  {
    if ps == [] then []
    else
      (if first then [] else [COMMA]) + (LineBreak(layout, level)
      + (Quoted(ps[0].key) + ([COLON] + (Gap(layout)
      + (Print(x, ps[0].value, layout, level) + PrintProperties(x, ps[1..], layout, level, false))))))
  }

  lemma ArrayTextIs(x: Numerals, items: seq<Expr>, layout: Layout, level: nat)
    ensures Print(x, Array(items), layout, level)
         == [OPEN_BRACKET] + (PrintItems(x, items, layout, Deeper(layout, level), true)
            + ((if items == [] then [] else LineBreak(layout, level)) + [CLOSE_BRACKET]))
  {
  }

  lemma ObjectTextIs(x: Numerals, ps: seq<Property>, layout: Layout, level: nat)
    ensures Print(x, Object(ps), layout, level)
         == [OPEN_BRACE] + (PrintProperties(x, ps, layout, Deeper(layout, level), true)
            + ((if ps == [] then [] else LineBreak(layout, level)) + [CLOSE_BRACE]))
  {
  }
}
