/** The language the parser accepts: the grammar of RFC 8259, with the numbers that strtod takes, given
    by the ways to write each value down. The parser accepts these texts and no others. */
module JsonGrammar {
  import opened Options
  import opened ByteText
  import opened Json
  import opened JsonText
  import opened JsonUnicode
  import opened JsonStrings

  // ---------------------------------------------------------------- texts and their values

  /** A value as it is written, with the white space inside it. */
  datatype Tree =
    | NullTree
    | TrueTree
    | FalseTree
    | NumberTree(text: Bytes)
    | StringTree(spelling: seq<Spelling>)
    | EmptyArray(blank: Bytes)
    | ArrayTree(items: seq<Item>)
    | EmptyObject(blank: Bytes)
    | ObjectTree(members: seq<Member>)

  datatype Item = Item(before: Bytes, tree: Tree, after: Bytes)

  datatype Member = Member(before: Bytes, key: seq<Spelling>, beforeColon: Bytes, afterColon: Bytes, tree: Tree, after: Bytes)

  /** Space, tab, line feed and carriage return, section 2 of RFC 8259. */
  predicate BlankChar(c: Byte) { c == 0x20 || c == 0x09 || c == 0x0A || c == 0x0D }

  predicate Blank(ws: Bytes) { forall i :: 0 <= i < |ws| ==> BlankChar(ws[i]) }

  /** Digits, e, E, plus, minus and point. */
  predicate NumeralChar(c: Byte) { 48 <= c <= 57 || c == 0x65 || c == 0x45 || c == 0x2B || c == 0x2D || c == 0x2E }

  predicate Numeral(text: Bytes) { text != [] && forall i :: 0 <= i < |text| ==> NumeralChar(text[i]) }

  predicate WellFormed(x: Numerals, t: Tree) {
    match t
    case NumberTree(text) => Numeral(text) && x.strtod(text).Some?
    case StringTree(ts) => AllAllowed(ts)
    case EmptyArray(blank) => Blank(blank)
    case EmptyObject(blank) => Blank(blank)
    case ArrayTree(items) => items != [] && forall i :: 0 <= i < |items| ==> ItemFits(x, items[i])
    case ObjectTree(members) => members != [] && forall i :: 0 <= i < |members| ==> MemberFits(x, members[i])
    case _ => true
  }

  predicate ItemFits(x: Numerals, item: Item) {
    Blank(item.before) && WellFormed(x, item.tree) && Blank(item.after)
  }

  predicate MemberFits(x: Numerals, m: Member) {
    && Blank(m.before) && AllAllowed(m.key) && Blank(m.beforeColon) && Blank(m.afterColon)
    && WellFormed(x, m.tree) && Blank(m.after)
  }

  function QuotedText(ts: seq<Spelling>): Bytes {
    [0x22] + (SpelledAll(ts) + [0x22])
  }

  function Text(t: Tree): Bytes
    decreases t
  {
    match t
    case NullTree => [0x6E, 0x75, 0x6C, 0x6C]
    case TrueTree => [0x74, 0x72, 0x75, 0x65]
    case FalseTree => [0x66, 0x61, 0x6C, 0x73, 0x65]
    case NumberTree(text) => text
    case StringTree(ts) => QuotedText(ts)
    case EmptyArray(blank) => [0x5B] + (blank + [0x5D])
    case EmptyObject(blank) => [0x7B] + (blank + [0x7D])
    case ArrayTree(items) => [0x5B] + ItemsText(items)
    case ObjectTree(members) => [0x7B] + MembersText(members)
  }

  /** Elements with commas between them, and the closing bracket. */
  function ItemsText(items: seq<Item>): Bytes
    decreases items
  {
    if items == [] then []
    else ItemText(items[0]) + (if |items| == 1 then [0x5D] else [0x2C] + ItemsText(items[1..]))
  }

  function ItemText(item: Item): Bytes
    decreases item, 0
  {
    item.before + (Text(item.tree) + item.after)
  }

  function MemberText(m: Member): Bytes
    decreases m, 0
  {
    m.before + (QuotedText(m.key) + (m.beforeColon + ([0x3A] + (m.afterColon + (Text(m.tree) + m.after)))))
  }

  function MembersText(members: seq<Member>): Bytes
    decreases members
  {
    if members == [] then []
    else MemberText(members[0]) + (if |members| == 1 then [0x7D] else [0x2C] + MembersText(members[1..]))
  }

  /** The value; of several members with one key the last counts. */
  function ValueOf(x: Numerals, t: Tree): Expr
    requires WellFormed(x, t)
    decreases t, 0
  {
    match t
    case NullTree => Null
    case TrueTree => Boolean(true)
    case FalseTree => Boolean(false)
    case NumberTree(text) => Number(x.strtod(text).value)
    case StringTree(ts) => String(Meaning(ts))
    case EmptyArray(_) => Array([])
    case EmptyObject(_) => Object([])
    case ArrayTree(items) => Array(ValuesOf(x, items))
    case ObjectTree(members) => Object(Gathered(x, members))
  }

  predicate ItemsFit(x: Numerals, items: seq<Item>) { forall i :: 0 <= i < |items| ==> ItemFits(x, items[i]) }

  predicate MembersFit(x: Numerals, members: seq<Member>) { forall i :: 0 <= i < |members| ==> MemberFits(x, members[i]) }

  function ValuesOf(x: Numerals, items: seq<Item>): (values: seq<Expr>)
    requires ItemsFit(x, items)
    ensures |values| == |items|
    decreases items, 1
  {
    seq(|items|, i requires 0 <= i < |items| => assert ItemFits(x, items[i]); ValueOf(x, items[i].tree))
  }

  function Gathered(x: Numerals, members: seq<Member>): seq<Property>
    requires MembersFit(x, members)
    decreases members, 1
  {
    if members == [] then []
    else
      var n := |members| - 1;
      assert MemberFits(x, members[n]);
      Insert(Gathered(x, members[..n]), Meaning(members[n].key), ValueOf(x, members[n].tree))
  }

  // ---------------------------------------------------------------- every such text is read

  lemma BlankIsSpace(ws: Bytes)
    ensures Blank(ws) <==> AllSpace(ws)
  {
  }

  lemma TextStarts(x: Numerals, t: Tree)
    requires WellFormed(x, t)
    ensures Text(t) != [] && !IsSpace(Text(t)[0]) && Text(t)[0] != 0x5D && Text(t)[0] != 0x7D
  {
  }

  /** No space at p, so the cursor stays. */
  lemma StartIsFound(x: Numerals, t: Tree, doc: Bytes, p: nat)
    requires WellFormed(x, t) && At(doc, p, Text(t))
    ensures p < |doc| && doc[p] == Text(t)[0] && SkipSpace(doc, p) == p
  {
    TextStarts(x, t);
    AtByte(doc, p, Text(t), 0);
  }

  lemma BlankIsSkipped(doc: Bytes, p: nat, ws: Bytes)
    requires Blank(ws) && At(doc, p, ws) && p + |ws| < |doc| && !IsSpace(doc[p + |ws|])
    ensures SkipSpace(doc, p) == p + |ws| && SkipSpace(doc, p + |ws|) == p + |ws|
  {
    BlankIsSpace(ws);
    SkipsExactly(doc, p, ws);
  }

  /** White space and a mark that is neither space nor part of a number. */
  lemma MarkIsRead(doc: Bytes, p: nat, ws: Bytes, mark: Byte)
    requires Blank(ws) && At(doc, p, ws) && p + |ws| < |doc| && doc[p + |ws|] == mark
    requires mark in {0x2C, 0x3A, 0x5D, 0x7D}
    ensures Stops(doc, p) && Next(doc, SkipSpace(doc, p)) == (mark, p + |ws| + 1)
  {
    BlankIsSkipped(doc, p, ws);
    if ws != [] {
      AtByte(doc, p, ws, 0);
    }
  }

  lemma WordTreeIsRead(x: Numerals, t: Tree, doc: Bytes, p: nat)
    requires (t.NullTree? || t.TrueTree? || t.FalseTree?) && At(doc, p, Text(t))
    ensures ParseExpr(x, doc, p) == Success(ValueOf(x, t), p + |Text(t)|)
  {
    StartIsFound(x, t, doc, p);
    var text := Text(t);
    assert text == [text[0]] + text[1..];
    AtParts(doc, p, [text[0]], text[1..]);
    assert text[1..] == if t.NullTree? then NULL_TAIL else if t.TrueTree? then TRUE_TAIL else FALSE_TAIL;
    WordIsRead(doc, p + 1, text[1..]);
  }

  lemma NumberTreeIsRead(x: Numerals, text: Bytes, doc: Bytes, p: nat)
    requires Numeral(text) && x.strtod(text).Some? && At(doc, p, text) && Stops(doc, p + |text|)
    ensures ParseExpr(x, doc, p) == Success(Number(x.strtod(text).value), p + |text|)
  {
    StartIsFound(x, NumberTree(text), doc, p);
    assert IsNumberChar(text[0]);
    assert text == [text[0]] + text[1..];
    AtParts(doc, p, [text[0]], text[1..]);
    NumberEndsWhereTextDoes(doc, p + 1, text[1..]);
  }

  lemma StringTreeIsRead(x: Numerals, ts: seq<Spelling>, doc: Bytes, p: nat)
    requires AllAllowed(ts) && At(doc, p, QuotedText(ts))
    ensures p < |doc| && doc[p] == 0x22 && p + |QuotedText(ts)| <= |doc|
    ensures ParseString(doc, p + 1, []) == Success(Meaning(ts), p + |QuotedText(ts)|)
    ensures ParseExpr(x, doc, p) == Success(String(Meaning(ts)), p + |QuotedText(ts)|)
  {
    hide Meaning, SpelledAll, ParseString;
    AtByte(doc, p, QuotedText(ts), 0);
    AtParts(doc, p, [0x22], SpelledAll(ts) + [0x22]);
    SpellingIsRead(doc, p + 1, ts, []);
    assert [] + Meaning(ts) == Meaning(ts);
    NoSpaceToSkip(doc, p);
  }

  lemma EmptyContainerIsRead(x: Numerals, t: Tree, doc: Bytes, p: nat)
    requires (t.EmptyArray? || t.EmptyObject?) && WellFormed(x, t) && At(doc, p, Text(t))
    ensures ParseExpr(x, doc, p) == Success(ValueOf(x, t), p + |Text(t)|)
  {
    hide ParseItems, ParseProperties;
    var close: Byte := if t.EmptyArray? then 0x5D else 0x7D;
    StartIsFound(x, t, doc, p);
    AtParts(doc, p, [Text(t)[0]], t.blank + [close]);
    AtParts(doc, p + 1, t.blank, [close]);
    AtByte(doc, p + 1 + |t.blank|, [close], 0);
    BlankIsSkipped(doc, p + 1, t.blank);
  }

  // ---------------------------------------------------------------- arrays

  /** Where the pieces of an element stand, with what follows it. */
  predicate ItemStands(doc: Bytes, p: nat, item: Item, mark: Byte) {
    var start := p + |item.before|;
    var end := start + |Text(item.tree)|;
    && At(doc, p, item.before) && At(doc, start, Text(item.tree)) && At(doc, end, item.after)
    && end + |item.after| < |doc| && doc[end + |item.after|] == mark
  }

  function ItemEnd(p: nat, item: Item): nat {
    p + |item.before| + |Text(item.tree)| + |item.after| + 1
  }

  function AfterFirst(items: seq<Item>): Bytes
    requires items != []
  {
    if |items| == 1 then [0x5D] else [0x2C] + ItemsText(items[1..])
  }

  lemma ItemsTextIs(items: seq<Item>)
    requires items != []
    ensures ItemsText(items) == ItemText(items[0]) + AfterFirst(items)
    ensures |AfterFirst(items)| == if |items| == 1 then 1 else 1 + |ItemsText(items[1..])|
    ensures AfterFirst(items)[0] == if |items| == 1 then 0x5D else 0x2C
  {
  }

  lemma ItemsStand(doc: Bytes, p: nat, items: seq<Item>)
    requires items != [] && At(doc, p, ItemsText(items))
    ensures ItemStands(doc, p, items[0], if |items| == 1 then 0x5D else 0x2C)
    ensures |items| > 1 ==> At(doc, ItemEnd(p, items[0]), ItemsText(items[1..]))
    ensures p + |ItemsText(items)| == ItemEnd(p, items[0]) + if |items| == 1 then 0 else |ItemsText(items[1..])|
  {
    hide At, Text, ItemsText, AfterFirst;
    var item, rest := items[0], AfterFirst(items);
    ItemsTextIs(items);
    var start := p + |item.before|;
    var end := start + |Text(item.tree)|;
    AtParts(doc, p, ItemText(item), rest);
    AtParts(doc, p, item.before, Text(item.tree) + item.after);
    AtParts(doc, start, Text(item.tree), item.after);
    AtByte(doc, end + |item.after|, rest, 0);
    if |items| > 1 {
      CommaThenItems(doc, end + |item.after|, items);
    }
  }

  lemma CommaThenItems(doc: Bytes, p: nat, items: seq<Item>)
    requires |items| > 1 && At(doc, p, AfterFirst(items))
    ensures At(doc, p + 1, ItemsText(items[1..]))
  {
    AtParts(doc, p, [0x2C], ItemsText(items[1..]));
  }

  /** One turn of the loop over elements. */
  lemma ItemIsRead(x: Numerals, doc: Bytes, p: nat, item: Item, mark: Byte, done: seq<Expr>)
    requires ItemFits(x, item) && ItemStands(doc, p, item, mark) && mark in {0x2C, 0x5D}
    requires Stops(doc, p + |item.before| + |Text(item.tree)|) ==>
      ParseExpr(x, doc, p + |item.before|) == Success(ValueOf(x, item.tree), p + |item.before| + |Text(item.tree)|)
    ensures p < |doc| && SkipSpace(doc, p) == p + |item.before| < |doc| && doc[p + |item.before|] != 0x5D
    ensures var longer := done + [ValueOf(x, item.tree)];
      ParseItems(x, doc, SkipSpace(doc, p), done) ==
        if mark == 0x5D then Success(Array(longer), ItemEnd(p, item))
        else ParseItems(x, doc, SkipSpace(doc, ItemEnd(p, item)), longer)
  {
    hide At, Text, SkipSpace, ParseExpr, WellFormed, ValueOf, Blank, IsSpace, Next, Stops;
    var start := p + |item.before|;
    var end := start + |Text(item.tree)|;
    StartIsFound(x, item.tree, doc, start);
    TextStarts(x, item.tree);
    BlankIsSkipped(doc, p, item.before);
    MarkIsRead(doc, end, item.after, mark);
  }

  lemma {:induction false} ItemsAreRead(x: Numerals, items: seq<Item>, doc: Bytes, p: nat, done: seq<Expr>)
    requires items != [] && ItemsFit(x, items) && At(doc, p, ItemsText(items))
    ensures p < |doc| && SkipSpace(doc, p) < |doc| && doc[SkipSpace(doc, p)] != 0x5D
    ensures ParseItems(x, doc, SkipSpace(doc, p), done) == Success(Array(done + ValuesOf(x, items)), p + |ItemsText(items)|)
    decreases items, 0
  {
    hide At, Text, ItemsText, SkipSpace, ParseExpr, ParseItems, WellFormed, ValueOf, Blank, Stops, ItemStands;
    var item, mark: Byte := items[0], if |items| == 1 then 0x5D else 0x2C;
    var start := p + |item.before|;
    assert ItemFits(x, item);
    ItemsStand(doc, p, items);
    if Stops(doc, start + |Text(item.tree)|) {
      ItemTextStands(doc, p, item, mark);
      TreeIsRead(x, item.tree, doc, start);
    }
    ItemIsRead(x, doc, p, item, mark, done);
    var longer := done + [ValueOf(x, item.tree)];
    if |items| == 1 {
      assert ValuesOf(x, items) == [ValueOf(x, item.tree)];
    } else {
      assert ItemsFit(x, items[1..]);
      ItemsAreRead(x, items[1..], doc, ItemEnd(p, item), longer);
      assert ValuesOf(x, items) == [ValueOf(x, item.tree)] + ValuesOf(x, items[1..]);
      Reassociated(done, [ValueOf(x, item.tree)], ValuesOf(x, items[1..]));
    }
  }

  lemma ItemTextStands(doc: Bytes, p: nat, item: Item, mark: Byte)
    requires ItemStands(doc, p, item, mark)
    ensures At(doc, p + |item.before|, Text(item.tree))
  {
  }

  lemma ArrayIsOpened(x: Numerals, doc: Bytes, p: nat)
    requires p < |doc| && doc[p] == 0x5B && SkipSpace(doc, p + 1) < |doc| && doc[SkipSpace(doc, p + 1)] != 0x5D
    ensures ParseExpr(x, doc, p) == ParseItems(x, doc, SkipSpace(doc, p + 1), [])
  {
    hide SkipSpace, ParseItems;
    NoSpaceToSkip(doc, p);
  }

  lemma {:induction false} ArrayIsRead(x: Numerals, items: seq<Item>, doc: Bytes, p: nat)
    requires WellFormed(x, ArrayTree(items)) && At(doc, p, Text(ArrayTree(items)))
    ensures ParseExpr(x, doc, p) == Success(ValueOf(x, ArrayTree(items)), p + |Text(ArrayTree(items))|)
    decreases items, 1
  {
    hide At, ItemsText, ParseExpr, ParseItems, SkipSpace, ItemFits;
    AtParts(doc, p, [0x5B], ItemsText(items));
    AtByte(doc, p, [0x5B], 0);
    ItemsAreRead(x, items, doc, p + 1, []);
    ArrayIsOpened(x, doc, p);
    assert [] + ValuesOf(x, items) == ValuesOf(x, items);
  }

  // ---------------------------------------------------------------- objects

  /** Where the pieces of a member stand, with what follows it. */
  predicate MemberStands(doc: Bytes, p: nat, m: Member, mark: Byte) {
    var key := p + |m.before|;
    var keyEnd := key + |QuotedText(m.key)|;
    var colon := keyEnd + |m.beforeColon|;
    var start := colon + 1 + |m.afterColon|;
    var end := start + |Text(m.tree)|;
    && At(doc, p, m.before) && At(doc, key, QuotedText(m.key)) && At(doc, keyEnd, m.beforeColon)
    && colon < |doc| && doc[colon] == 0x3A && At(doc, colon + 1, m.afterColon)
    && At(doc, start, Text(m.tree)) && At(doc, end, m.after)
    && end + |m.after| < |doc| && doc[end + |m.after|] == mark
  }

  function MemberStart(p: nat, m: Member): nat {
    p + |m.before| + |QuotedText(m.key)| + |m.beforeColon| + 1 + |m.afterColon|
  }

  function MemberEnd(p: nat, m: Member): nat {
    MemberStart(p, m) + |Text(m.tree)| + |m.after| + 1
  }

  function AfterMember(members: seq<Member>): Bytes
    requires members != []
  {
    if |members| == 1 then [0x7D] else [0x2C] + MembersText(members[1..])
  }

  lemma MembersTextIs(members: seq<Member>)
    requires members != []
    ensures MembersText(members) == MemberText(members[0]) + AfterMember(members)
    ensures |AfterMember(members)| == if |members| == 1 then 1 else 1 + |MembersText(members[1..])|
    ensures AfterMember(members)[0] == if |members| == 1 then 0x7D else 0x2C
  {
  }

  lemma CommaThenMembers(doc: Bytes, p: nat, members: seq<Member>)
    requires |members| > 1 && At(doc, p, AfterMember(members))
    ensures At(doc, p + 1, MembersText(members[1..]))
  {
    AtParts(doc, p, [0x2C], MembersText(members[1..]));
  }

  lemma AtThree(doc: Bytes, p: nat, a: Bytes, b: Bytes, c: Bytes)
    requires At(doc, p, a + (b + c))
    ensures At(doc, p, a) && At(doc, p + |a|, b) && At(doc, p + |a| + |b|, c)
    ensures |a + (b + c)| == |a| + |b| + |c|
  {
    hide At;
    AtParts(doc, p, a, b + c);
    AtParts(doc, p + |a|, b, c);
  }

  lemma AtSeven(doc: Bytes, p: nat, a: Bytes, b: Bytes, c: Bytes, colon: Byte, d: Bytes, e: Bytes, f: Bytes)
    requires At(doc, p, a + (b + (c + ([colon] + (d + (e + f))))))
    ensures At(doc, p, a) && At(doc, p + |a|, b) && At(doc, p + |a| + |b|, c)
    ensures p + |a| + |b| + |c| < |doc| && doc[p + |a| + |b| + |c|] == colon
    ensures At(doc, p + |a| + |b| + |c| + 1, d) && At(doc, p + |a| + |b| + |c| + 1 + |d|, e)
    ensures At(doc, p + |a| + |b| + |c| + 1 + |d| + |e|, f)
    ensures |a + (b + (c + ([colon] + (d + (e + f)))))| == |a| + |b| + |c| + 1 + |d| + |e| + |f|
  {
    hide At;
    var tail := d + (e + f);
    AtThree(doc, p, a, b, c + ([colon] + tail));
    AtThree(doc, p + |a| + |b|, c, [colon], tail);
    AtByte(doc, p + |a| + |b| + |c|, [colon], 0);
    AtThree(doc, p + |a| + |b| + |c| + 1, d, e, f);
  }

  lemma MembersStand(doc: Bytes, p: nat, members: seq<Member>)
    requires members != [] && At(doc, p, MembersText(members))
    ensures MemberStands(doc, p, members[0], if |members| == 1 then 0x7D else 0x2C)
    ensures |members| > 1 ==> At(doc, MemberEnd(p, members[0]), MembersText(members[1..]))
    ensures p + |MembersText(members)| == MemberEnd(p, members[0]) + if |members| == 1 then 0 else |MembersText(members[1..])|
  {
    hide At, Text, MembersText, AfterMember, QuotedText;
    var m, rest := members[0], AfterMember(members);
    MembersTextIs(members);
    AtParts(doc, p, MemberText(m), rest);
    AtSeven(doc, p, m.before, QuotedText(m.key), m.beforeColon, 0x3A, m.afterColon, Text(m.tree), m.after);
    AtByte(doc, p + |MemberText(m)|, rest, 0);
    if |members| > 1 {
      CommaThenMembers(doc, p + |MemberText(m)|, members);
    }
  }

  lemma PropertyIsParsed(x: Numerals, doc: Bytes, p: nat, key: Bytes, keyEnd: nat, colonEnd: nat, value: Expr, end: nat)
    requires p < |doc| && doc[p] == 0x22 && ParseString(doc, p + 1, []) == Success(key, keyEnd)
    requires keyEnd <= |doc| && Next(doc, SkipSpace(doc, keyEnd)) == (0x3A, colonEnd)
    requires colonEnd <= |doc| && ParseExpr(x, doc, SkipSpace(doc, colonEnd)) == Success(value, end)
    ensures ParseProperty(x, doc, p) == Success(Property(key, value), end)
  {
    hide ParseString, SkipSpace, ParseExpr;
    assert Next(doc, p) == (doc[p], p + 1);
  }

  lemma KeyStarts(ts: seq<Spelling>)
    ensures QuotedText(ts) != [] && QuotedText(ts)[0] == 0x22
  {
  }

  /** One turn of the loop over members. */
  lemma MemberIsRead(x: Numerals, doc: Bytes, p: nat, m: Member, mark: Byte, done: seq<Property>)
    requires MemberFits(x, m) && MemberStands(doc, p, m, mark) && mark in {0x2C, 0x7D}
    requires Stops(doc, MemberStart(p, m) + |Text(m.tree)|) ==>
      ParseExpr(x, doc, MemberStart(p, m)) == Success(ValueOf(x, m.tree), MemberStart(p, m) + |Text(m.tree)|)
    ensures p < |doc| && SkipSpace(doc, p) == p + |m.before| < |doc| && doc[p + |m.before|] == 0x22
    ensures var longer := Insert(done, Meaning(m.key), ValueOf(x, m.tree));
      ParseProperties(x, doc, SkipSpace(doc, p), done) ==
        if mark == 0x7D then Success(Object(longer), MemberEnd(p, m))
        else ParseProperties(x, doc, SkipSpace(doc, MemberEnd(p, m)), longer)
  {
    hide At, Text, SkipSpace, ParseExpr, WellFormed, ValueOf, Blank, Next, Stops, ParseProperty, Insert, Meaning, QuotedText,
      ParseString, AllAllowed;
    var key := p + |m.before|;
    var keyEnd := key + |QuotedText(m.key)|;
    var colon := keyEnd + |m.beforeColon|;
    var start := MemberStart(p, m);
    var end := start + |Text(m.tree)|;
    KeyStarts(m.key);
    AtByte(doc, key, QuotedText(m.key), 0);
    BlankIsSkipped(doc, p, m.before);
    StringTreeIsRead(x, m.key, doc, key);
    MarkIsRead(doc, keyEnd, m.beforeColon, 0x3A);
    StartIsFound(x, m.tree, doc, start);
    TextStarts(x, m.tree);
    BlankIsSkipped(doc, colon + 1, m.afterColon);
    MarkIsRead(doc, end, m.after, mark);
    PropertyIsParsed(x, doc, key, Meaning(m.key), keyEnd, colon + 1, ValueOf(x, m.tree), end);
  }

  lemma GatheredOneMore(x: Numerals, done: seq<Member>, members: seq<Member>)
    requires members != [] && MembersFit(x, done) && MembersFit(x, members)
    ensures MembersFit(x, done + [members[0]]) && MembersFit(x, members[1..])
    ensures done + [members[0]] + members[1..] == done + members
    ensures MemberFits(x, members[0])
    ensures Gathered(x, done + [members[0]]) ==
            Insert(Gathered(x, done), Meaning(members[0].key), ValueOf(x, members[0].tree))
  {
    hide MemberFits;
    var longer := done + [members[0]];
    assert longer[..|done|] == done && longer[|done|] == members[0];
  }

  lemma {:induction false} MembersAreRead(x: Numerals, members: seq<Member>, doc: Bytes, p: nat, done: seq<Member>)
    requires members != [] && MembersFit(x, done) && MembersFit(x, members) && At(doc, p, MembersText(members))
    ensures MembersFit(x, done + members)
    ensures p < |doc| && SkipSpace(doc, p) < |doc| && doc[SkipSpace(doc, p)] != 0x7D
    ensures ParseProperties(x, doc, SkipSpace(doc, p), Gathered(x, done))
         == Success(Object(Gathered(x, done + members)), p + |MembersText(members)|)
    decreases members, 0
  {
    hide At, Text, MembersText, SkipSpace, ParseExpr, ParseProperties, WellFormed, ValueOf, Blank, Stops, MemberStands,
      Gathered, Insert, Meaning, MemberFits;
    var m, mark: Byte := members[0], if |members| == 1 then 0x7D else 0x2C;
    var start := MemberStart(p, m);
    assert MemberFits(x, m);
    MembersStand(doc, p, members);
    MemberTextStands(x, doc, p, m, mark);
    if Stops(doc, start + |Text(m.tree)|) {
      TreeIsRead(x, m.tree, doc, start);
    }
    MemberIsRead(x, doc, p, m, mark, Gathered(x, done));
    GatheredOneMore(x, done, members);
    if |members| == 1 {
      assert done + [m] == done + members;
    } else {
      MembersAreRead(x, members[1..], doc, MemberEnd(p, m), done + [m]);
    }
  }

  lemma MemberTextStands(x: Numerals, doc: Bytes, p: nat, m: Member, mark: Byte)
    requires MemberStands(doc, p, m, mark) && MemberFits(x, m)
    ensures At(doc, MemberStart(p, m), Text(m.tree)) && WellFormed(x, m.tree) && AllAllowed(m.key)
  {
  }

  lemma ObjectIsOpened(x: Numerals, doc: Bytes, p: nat)
    requires p < |doc| && doc[p] == 0x7B && SkipSpace(doc, p + 1) < |doc| && doc[SkipSpace(doc, p + 1)] != 0x7D
    ensures ParseExpr(x, doc, p) == ParseProperties(x, doc, SkipSpace(doc, p + 1), [])
  {
    hide SkipSpace, ParseProperties;
    NoSpaceToSkip(doc, p);
  }

  lemma {:induction false} ObjectIsRead(x: Numerals, members: seq<Member>, doc: Bytes, p: nat)
    requires WellFormed(x, ObjectTree(members)) && At(doc, p, Text(ObjectTree(members)))
    ensures ParseExpr(x, doc, p) == Success(ValueOf(x, ObjectTree(members)), p + |Text(ObjectTree(members))|)
    decreases members, 1
  {
    hide At, MembersText, ParseExpr, ParseProperties, SkipSpace, MemberFits, Insert;
    AtParts(doc, p, [0x7B], MembersText(members));
    AtByte(doc, p, [0x7B], 0);
    MembersAreRead(x, members, doc, p + 1, []);
    ObjectIsOpened(x, doc, p);
    assert [] + members == members;
  }

  // ---------------------------------------------------------------- any value

  /** Whatever the white space, the spelling of strings and the order of keys: every text of the
      grammar is read as its value, wherever it stands; only a number must not be followed by a
      character that could belong to it. */
  lemma {:induction false} TreeIsRead(x: Numerals, t: Tree, doc: Bytes, p: nat)
    requires WellFormed(x, t) && At(doc, p, Text(t)) && (t.NumberTree? ==> Stops(doc, p + |Text(t)|))
    ensures ParseExpr(x, doc, p) == Success(ValueOf(x, t), p + |Text(t)|)
    decreases t, 2
  {
    hide At, ParseExpr, ItemsText, MembersText, Numeral, QuotedText, Stops;
    match t
    case NumberTree(text) => NumberTreeIsRead(x, text, doc, p);
    case StringTree(ts) => StringTreeIsRead(x, ts, doc, p);
    case EmptyArray(_) => EmptyContainerIsRead(x, t, doc, p);
    case EmptyObject(_) => EmptyContainerIsRead(x, t, doc, p);
    case ArrayTree(items) => ArrayIsRead(x, items, doc, p);
    case ObjectTree(members) => ObjectIsRead(x, members, doc, p);
    case _ => WordTreeIsRead(x, t, doc, p);
  }

  // ---------------------------------------------------------------- and nothing else is accepted

  lemma SkippedIsBlank(doc: Bytes, p: nat) returns (ws: Bytes)
    requires p <= |doc|
    ensures Blank(ws) && At(doc, p, ws) && p + |ws| == SkipSpace(doc, p)
    ensures SkipSpace(doc, SkipSpace(doc, p)) == SkipSpace(doc, p)
  {
    ws := doc[p..SkipSpace(doc, p)];
    SkippedIsSpace(doc, p);
    BlankIsSpace(ws);
  }

  lemma LeadingSpaceIsSkipped(x: Numerals, doc: Bytes, p: nat)
    requires p <= |doc|
    ensures ParseExpr(x, doc, SkipSpace(doc, p)) == ParseExpr(x, doc, p)
  {
    hide ParseItems, ParseProperties, Bareword, ParseString, ParseNumber;
    SkippedIsSpace(doc, p);
  }

  lemma WordIsText(x: Numerals, doc: Bytes, p: nat) returns (t: Tree)
    requires p < |doc| && SkipSpace(doc, p) == p && doc[p] in {0x6E, 0x74, 0x66} && ParseExpr(x, doc, p).Success?
    ensures (t.NullTree? || t.TrueTree? || t.FalseTree?) && At(doc, p, Text(t))
  {
    t := if doc[p] == 0x6E then NullTree else if doc[p] == 0x74 then TrueTree else FalseTree;
    var tail := if doc[p] == 0x6E then NULL_TAIL else if doc[p] == 0x74 then TRUE_TAIL else FALSE_TAIL;
    ReadWordIsThere(doc, p + 1, tail);
    assert At(doc, p, [doc[p]]);
    AtJoined(doc, p, [doc[p]], tail);
    assert Text(t) == [doc[p]] + tail;
  }

  lemma NumberIsText(x: Numerals, doc: Bytes, p: nat) returns (t: Tree)
    requires p < |doc| && SkipSpace(doc, p) == p && IsNumberChar(doc[p]) && ParseExpr(x, doc, p).Success?
    ensures t.NumberTree? && WellFormed(x, t) && At(doc, p, Text(t)) && Stops(doc, p + |Text(t)|)
  {
    NumberIsARun(doc, p + 1);
    t := NumberTree(doc[p..NumberEnd(doc, p + 1)]);
  }

  lemma StringIsText(x: Numerals, doc: Bytes, p: nat) returns (ts: seq<Spelling>)
    requires p < |doc| && doc[p] == 0x22 && ParseString(doc, p + 1, []).Success?
    ensures AllAllowed(ts) && At(doc, p, QuotedText(ts))
  {
    hide ParseString, SpelledAll;
    ts := StringIsSpelt(doc, p + 1, []);
    assert At(doc, p, [0x22]);
    AtJoined(doc, p, [0x22], SpelledAll(ts) + [0x22]);
  }

  lemma BracketsJoined(doc: Bytes, p: nat, open: Byte, inside: Bytes)
    requires p < |doc| && doc[p] == open && At(doc, p + 1, inside)
    ensures At(doc, p, [open] + inside)
  {
    assert At(doc, p, [open]);
    AtJoined(doc, p, [open], inside);
  }

  lemma ByteJoined(doc: Bytes, p: nat, a: Bytes, c: Byte)
    requires At(doc, p, a) && p + |a| < |doc| && doc[p + |a|] == c
    ensures At(doc, p, a + [c])
  {
    assert At(doc, p + |a|, [c]);
    AtJoined(doc, p, a, [c]);
  }

  lemma EmptyContainerIsText(x: Numerals, doc: Bytes, p: nat) returns (t: Tree)
    requires p < |doc| && SkipSpace(doc, p + 1) < |doc|
    requires (doc[p] == 0x5B && doc[SkipSpace(doc, p + 1)] == 0x5D) || (doc[p] == 0x7B && doc[SkipSpace(doc, p + 1)] == 0x7D)
    ensures (t.EmptyArray? || t.EmptyObject?) && WellFormed(x, t) && At(doc, p, Text(t))
  {
    var ws := SkippedIsBlank(doc, p + 1);
    t := if doc[p] == 0x5B then EmptyArray(ws) else EmptyObject(ws);
    var close: Byte := if doc[p] == 0x5B then 0x5D else 0x7D;
    ByteJoined(doc, p + 1, ws, close);
    BracketsJoined(doc, p, doc[p], ws + [close]);
  }

  lemma AfterFirstStands(doc: Bytes, p: nat, items: seq<Item>)
    requires items != [] && p < |doc| && doc[p] == if |items| == 1 then 0x5D else 0x2C
    requires |items| > 1 ==> At(doc, p + 1, ItemsText(items[1..]))
    ensures At(doc, p, AfterFirst(items))
  {
    hide At, ItemsText;
    if |items| == 1 {
      ByteStands(doc, p);
    } else {
      BracketsJoined(doc, p, 0x2C, ItemsText(items[1..]));
    }
  }

  lemma ItemJoined(doc: Bytes, p: nat, item: Item, mark: Byte)
    requires ItemStands(doc, p, item, mark)
    ensures At(doc, p, ItemText(item)) && p + |ItemText(item)| == ItemEnd(p, item) - 1
    ensures ItemEnd(p, item) - 1 < |doc| && doc[ItemEnd(p, item) - 1] == mark
  {
    hide At, Text;
    var start := p + |item.before|;
    AtJoined(doc, start, Text(item.tree), item.after);
    AtJoined(doc, p, item.before, Text(item.tree) + item.after);
  }

  lemma ItemsJoined(doc: Bytes, p: nat, items: seq<Item>)
    requires items != [] && ItemStands(doc, p, items[0], if |items| == 1 then 0x5D else 0x2C)
    requires |items| > 1 ==> At(doc, ItemEnd(p, items[0]), ItemsText(items[1..]))
    ensures At(doc, p, ItemsText(items))
  {
    hide At, ItemText, ItemsText, AfterFirst, ItemStands, ItemEnd;
    ItemsTextIs(items);
    ItemJoined(doc, p, items[0], if |items| == 1 then 0x5D else 0x2C);
    AfterFirstStands(doc, p + |ItemText(items[0])|, items);
    AtJoined(doc, p, ItemText(items[0]), AfterFirst(items));
  }

  lemma ByteStands(doc: Bytes, p: nat)
    requires p < |doc|
    ensures At(doc, p, [doc[p]])
  {
  }

  /** The elements of an accepted array, from after the bracket or a comma. */
  lemma {:induction false} ItemsAreText(x: Numerals, doc: Bytes, p: nat, done: seq<Expr>) returns (items: seq<Item>)
    requires p <= |doc| && ParseItems(x, doc, SkipSpace(doc, p), done).Success?
    ensures items != [] && ItemsFit(x, items) && At(doc, p, ItemsText(items))
    decreases |doc| - p, 1
  {
    hide At, Text, ItemsText, ParseExpr, WellFormed, Blank, SkipSpace, ValueOf;
    var first := SkipSpace(doc, p);
    var before := SkippedIsBlank(doc, p);
    var parsed := ParseExpr(x, doc, first);
    var t := ExprIsText(x, doc, first);
    var after := SkippedIsBlank(doc, parsed.pos);
    var mark := SkipSpace(doc, parsed.pos);
    var item := Item(before, t, after);
    assert mark < |doc| && doc[mark] in {0x2C, 0x5D};
    items := [item];
    if doc[mark] == 0x2C {
      var rest := ItemsAreText(x, doc, mark + 1, done + [parsed.value]);
      items := [item] + rest;
      assert items[1..] == rest;
    }
    ItemsJoined(doc, p, items);
  }

  lemma SevenJoined(doc: Bytes, p: nat, a: Bytes, b: Bytes, c: Bytes, colon: Byte, d: Bytes, e: Bytes, f: Bytes)
    requires At(doc, p, a) && At(doc, p + |a|, b) && At(doc, p + |a| + |b|, c)
    requires p + |a| + |b| + |c| < |doc| && doc[p + |a| + |b| + |c|] == colon
    requires At(doc, p + |a| + |b| + |c| + 1, d) && At(doc, p + |a| + |b| + |c| + 1 + |d|, e)
    requires At(doc, p + |a| + |b| + |c| + 1 + |d| + |e|, f)
    ensures At(doc, p, a + (b + (c + ([colon] + (d + (e + f))))))
    ensures |a + (b + (c + ([colon] + (d + (e + f)))))| == |a| + |b| + |c| + 1 + |d| + |e| + |f|
  {
    hide At;
    AtJoined(doc, p + |a| + |b| + |c| + 1 + |d|, e, f);
    AtJoined(doc, p + |a| + |b| + |c| + 1, d, e + f);
    BracketsJoined(doc, p + |a| + |b| + |c|, colon, d + (e + f));
    AtJoined(doc, p + |a| + |b|, c, [colon] + (d + (e + f)));
    AtJoined(doc, p + |a|, b, c + ([colon] + (d + (e + f))));
    AtJoined(doc, p, a, b + (c + ([colon] + (d + (e + f)))));
  }

  lemma AfterMemberStands(doc: Bytes, p: nat, members: seq<Member>)
    requires members != [] && p < |doc| && doc[p] == if |members| == 1 then 0x7D else 0x2C
    requires |members| > 1 ==> At(doc, p + 1, MembersText(members[1..]))
    ensures At(doc, p, AfterMember(members))
  {
    hide At, MembersText;
    if |members| == 1 {
      ByteStands(doc, p);
    } else {
      BracketsJoined(doc, p, 0x2C, MembersText(members[1..]));
    }
  }

  lemma MemberJoined(doc: Bytes, p: nat, m: Member, mark: Byte)
    requires MemberStands(doc, p, m, mark)
    ensures At(doc, p, MemberText(m)) && p + |MemberText(m)| == MemberEnd(p, m) - 1
    ensures MemberEnd(p, m) - 1 < |doc| && doc[MemberEnd(p, m) - 1] == mark
  {
    hide At, Text, QuotedText;
    SevenJoined(doc, p, m.before, QuotedText(m.key), m.beforeColon, 0x3A, m.afterColon, Text(m.tree), m.after);
  }

  lemma MembersJoined(doc: Bytes, p: nat, members: seq<Member>)
    requires members != [] && MemberStands(doc, p, members[0], if |members| == 1 then 0x7D else 0x2C)
    requires |members| > 1 ==> At(doc, MemberEnd(p, members[0]), MembersText(members[1..]))
    ensures At(doc, p, MembersText(members))
  {
    hide At, MemberText, MembersText, AfterMember, MemberStands, MemberEnd;
    var mark: Byte := if |members| == 1 then 0x7D else 0x2C;
    MembersTextIs(members);
    MemberJoined(doc, p, members[0], mark);
    AfterMemberStands(doc, p + |MemberText(members[0])|, members);
    AtJoined(doc, p, MemberText(members[0]), AfterMember(members));
  }

  /** A key, a colon and a value: where they stand when they are accepted. */
  lemma {:induction false} MemberIsText(x: Numerals, doc: Bytes, p: nat) returns (m: Member)
    requires p <= |doc| && ParseProperty(x, doc, SkipSpace(doc, p)).Success?
    ensures MemberFits(x, m)
    ensures var read := ParseProperty(x, doc, SkipSpace(doc, p));
      && read.pos + |m.after| == SkipSpace(doc, read.pos)
      && (SkipSpace(doc, read.pos) < |doc| ==> MemberStands(doc, p, m, doc[SkipSpace(doc, read.pos)]))
      && MemberEnd(p, m) == SkipSpace(doc, read.pos) + 1
    decreases |doc| - p, 1
  {
    hide At, Text, ParseExpr, WellFormed, Blank, SkipSpace, ValueOf, ParseString, QuotedText, AllAllowed;
    var first := SkipSpace(doc, p);
    var before := SkippedIsBlank(doc, p);
    assert first < |doc| && doc[first] == 0x22;
    var key := ParseString(doc, first + 1, []);
    var ts := StringIsText(x, doc, first);
    StringTreeIsRead(x, ts, doc, first);
    var beforeColon := SkippedIsBlank(doc, key.pos);
    var colon := SkipSpace(doc, key.pos);
    assert colon < |doc| && doc[colon] == 0x3A;
    var afterColon := SkippedIsBlank(doc, colon + 1);
    var start := SkipSpace(doc, colon + 1);
    var value := ParseExpr(x, doc, start);
    var t := ExprIsText(x, doc, start);
    var after := SkippedIsBlank(doc, value.pos);
    m := Member(before, ts, beforeColon, afterColon, t, after);
  }

  lemma {:induction false} MembersAreText(x: Numerals, doc: Bytes, p: nat, done: seq<Property>) returns (members: seq<Member>)
    requires p <= |doc| && ParseProperties(x, doc, SkipSpace(doc, p), done).Success?
    ensures members != [] && MembersFit(x, members) && At(doc, p, MembersText(members))
    decreases |doc| - p, 2
  {
    hide At, Text, MembersText, ParseExpr, ParseProperty, MemberFits, SkipSpace, Insert, MemberStands, MemberEnd;
    var first := SkipSpace(doc, p);
    var read := ParseProperty(x, doc, first);
    var m := MemberIsText(x, doc, p);
    var mark := SkipSpace(doc, read.pos);
    assert mark < |doc| && doc[mark] in {0x2C, 0x7D};
    members := [m];
    if doc[mark] == 0x2C {
      var rest := MembersAreText(x, doc, mark + 1, Insert(done, read.value.key, read.value.value));
      members := [m] + rest;
      assert members[1..] == rest;
    }
    MembersJoined(doc, p, members);
  }

  /** What is accepted is a text of the grammar. */
  lemma {:induction false} ExprIsText(x: Numerals, doc: Bytes, p: nat) returns (t: Tree)
    requires p <= |doc| && ParseExpr(x, doc, p).Success?
    ensures WellFormed(x, t) && At(doc, SkipSpace(doc, p), Text(t))
    ensures ParseExpr(x, doc, p) == Success(ValueOf(x, t), SkipSpace(doc, p) + |Text(t)|)
    decreases |doc| - p, 0
  {
    hide At, ItemsText, MembersText, QuotedText, ItemsFit, MembersFit, ItemFits, MemberFits, SkipSpace, AllAllowed, ParseItems,
      ParseProperties, ParseString, Numeral, Stops;
    var start := SkipSpace(doc, p);
    LeadingSpaceIsSkipped(x, doc, p);
    SkippedIsSpace(doc, p);
    var c := doc[start];
    if c in {0x6E, 0x74, 0x66} {
      t := WordIsText(x, doc, start);
    } else if c == 0x22 {
      var ts := StringIsText(x, doc, start);
      t := StringTree(ts);
    } else if c == 0x5B || c == 0x7B {
      t := ContainerIsText(x, doc, start);
    } else {
      t := NumberIsText(x, doc, start);
    }
    TreeIsRead(x, t, doc, start);
  }

  lemma {:induction false} ContainerIsText(x: Numerals, doc: Bytes, p: nat) returns (t: Tree)
    requires p < |doc| && (doc[p] == 0x5B || doc[p] == 0x7B) && SkipSpace(doc, p) == p && ParseExpr(x, doc, p).Success?
    ensures !t.NumberTree? && WellFormed(x, t) && At(doc, p, Text(t))
    decreases |doc| - p - 1, 3
  {
    hide At, ItemsText, MembersText, ItemsFit, MembersFit, ParseItems, ParseProperties, SkipSpace;
    var first := SkipSpace(doc, p + 1);
    if first < |doc| && ((doc[p] == 0x5B && doc[first] == 0x5D) || (doc[p] == 0x7B && doc[first] == 0x7D)) {
      t := EmptyContainerIsText(x, doc, p);
    } else if doc[p] == 0x5B {
      var items := ItemsAreText(x, doc, p + 1, []);
      t := ArrayTree(items);
      BracketsJoined(doc, p, 0x5B, ItemsText(items));
      ItemsFitMeans(x, items);
    } else {
      var members := MembersAreText(x, doc, p + 1, []);
      t := ObjectTree(members);
      BracketsJoined(doc, p, 0x7B, MembersText(members));
      MembersFitMeans(x, members);
    }
  }

  lemma ItemsFitMeans(x: Numerals, items: seq<Item>)
    requires items != [] && ItemsFit(x, items)
    ensures WellFormed(x, ArrayTree(items))
  {
  }

  lemma MembersFitMeans(x: Numerals, members: seq<Member>)
    requires members != [] && MembersFit(x, members)
    ensures WellFormed(x, ObjectTree(members))
  {
  }

  // ---------------------------------------------------------------- whole documents

  /** doc is a text of the grammar for e with white space around it. */
  ghost predicate Writes(x: Numerals, doc: Bytes, before: Bytes, t: Tree, after: Bytes, e: Expr) {
    && Blank(before) && Blank(after) && WellFormed(x, t)
    && doc == before + (Text(t) + after) && ValueOf(x, t) == e
  }

  lemma TextOfTreeParses(x: Numerals, doc: Bytes, before: Bytes, t: Tree, after: Bytes, e: Expr)
    requires Writes(x, doc, before, t, after, e)
    ensures Parse(x, doc) == Success(e, |doc|)
  {
    hide ParseExpr, Text, WellFormed, ValueOf, At, Blank, SkipSpace, AllSpace, IsSpace, Stops;
    var start, end := |before|, |before| + |Text(t)|;
    WholeDocument(doc);
    AtParts(doc, 0, before, Text(t) + after);
    AtParts(doc, start, Text(t), after);
    StartIsFound(x, t, doc, start);
    TextStarts(x, t);
    BlankIsSkipped(doc, 0, before);
    BlankIsSpace(after);
    SkipsExactly(doc, end, after);
    BlankStops(doc, end, after);
    TreeIsRead(x, t, doc, start);
    LeadingSpaceIsSkipped(x, doc, 0);
  }

  lemma BlankStops(doc: Bytes, p: nat, ws: Bytes)
    requires Blank(ws) && At(doc, p, ws) && p + |ws| == |doc|
    ensures Stops(doc, p)
  {
    if ws != [] {
      AtByte(doc, p, ws, 0);
    }
  }

  lemma WholeDocument(doc: Bytes)
    ensures At(doc, 0, doc)
  {
    assert doc[0..|doc|] == doc;
  }

  lemma ParsedIsText(x: Numerals, doc: Bytes) returns (before: Bytes, t: Tree, after: Bytes)
    requires Parse(x, doc).Success?
    ensures Writes(x, doc, before, t, after, Parse(x, doc).value) && Parse(x, doc).pos == |doc|
  {
    hide ParseExpr, Text, WellFormed, ValueOf;
    var start := SkipSpace(doc, 0);
    before := SkippedIsBlank(doc, 0);
    t := ExprIsText(x, doc, 0);
    var end := start + |Text(t)|;
    after := SkippedIsBlank(doc, end);
    AtJoined(doc, start, Text(t), after);
    AtJoined(doc, 0, before, Text(t) + after);
    WholeDocument(doc);
  }

  /** parse() accepts the documents of the grammar and no others, each as the value it writes down. */
  lemma ParsesIffInGrammar(x: Numerals, doc: Bytes, e: Expr)
    ensures (Parse(x, doc).Success? && Parse(x, doc).value == e) <==>
            exists before, t, after :: Writes(x, doc, before, t, after, e)
  {
    hide Writes, Parse;
    if Parse(x, doc).Success? && Parse(x, doc).value == e {
      var before, t, after := ParsedIsText(x, doc);
    }
    if exists before, t, after :: Writes(x, doc, before, t, after, e) {
      var before, t, after :| Writes(x, doc, before, t, after, e);
      TextOfTreeParses(x, doc, before, t, after, e);
    }
  }
}
