/** The printed text of a value as a text of the grammar, in the compact form and in the pretty form. */
module JsonLayout {
  import opened Options
  import opened ByteText
  import opened Json
  import opened JsonText
  import opened JsonUnicode
  import opened JsonStrings
  import opened JsonGrammar

  // ---------------------------------------------------------------- strings as they are printed

  /** The digits 0 to 9 and a to f. */
  const DIGITS: Bytes := [48, 49, 50, 51, 52, 53, 54, 55, 56, 57, 97, 98, 99, 100, 101, 102]

  /** Quotes and backslashes after a backslash, three control characters as \t, \n and \r, the others
      as \u with four lower-case digits, and everything else as it is. */
  function PrintedSpelling(c: Byte): Spelling {
    if c == 0x22 || c == 0x5C then Short(c)
    else if c >= 0x20 then Plain(c)
    else if c == 0x09 then Short(0x74)
    else if c == 0x0A then Short(0x6E)
    else if c == 0x0D then Short(0x72)
    else Unit(48, 48, DIGITS[c / 16], DIGITS[c % 16])
  }

  function PrintedSpellings(s: Bytes): (ts: seq<Spelling>)
    ensures |ts| == |s| && forall i :: 0 <= i < |s| ==> ts[i] == PrintedSpelling(s[i])
  {
    if s == [] then [] else [PrintedSpelling(s[0])] + PrintedSpellings(s[1..])
  }

  lemma DigitsAre(v: nat)
    requires v < 16
    ensures HexDigit(v) == DIGITS[v] && HexChar(DIGITS[v]) && DigitValue(DIGITS[v]) == v
  {
  }

  lemma EscapedIsSpelled(c: Byte)
    ensures Escaped(c) == Spelled(PrintedSpelling(c)) && Allowed(PrintedSpelling(c))
  {
    hide HexDigit, HexChar, DigitValue;
    if c < 0x20 {
      DigitsAre(c / 16);
      DigitsAre(c % 16);
      DigitsAre(0);
    }
  }

  lemma OneSpellingMeans(s: Spelling, c: Byte, rest: seq<Spelling>)
    requires AllAllowed(rest) && Allowed(s) && (s.Plain? ==> s.c == c) && (s.Short? ==> ShortMeans(s.letter) == c)
    requires s.Unit? ==> UnitValue(s) == c < 0x80
    ensures AllAllowed([s] + rest) && Meaning([s] + rest) == [c] + Meaning(rest)
  {
    var all := [s] + rest;
    assert all[0] == s && all[1..] == rest;
  }

  lemma SpellingMeans(c: Byte, rest: seq<Spelling>)
    requires AllAllowed(rest)
    ensures AllAllowed([PrintedSpelling(c)] + rest) && Meaning([PrintedSpelling(c)] + rest) == [c] + Meaning(rest)
  {
    hide HexDigit, HexChar, DigitValue, Escaped, Meaning, AllAllowed;
    EscapedIsSpelled(c);
    if c < 0x20 {
      DigitsAre(c / 16);
      DigitsAre(c % 16);
      DigitsAre(0);
    }
    OneSpellingMeans(PrintedSpelling(c), c, rest);
  }

  /** What quote() writes is a spelling of the string, character by character. */
  lemma {:induction false} QuotedIsSpelled(s: Bytes)
    ensures AllAllowed(PrintedSpellings(s)) && Meaning(PrintedSpellings(s)) == s
    ensures EscapedAll(s) == SpelledAll(PrintedSpellings(s))
    ensures Quoted(s) == QuotedText(PrintedSpellings(s))
  {
    hide Escaped, Spelled, Meaning, PrintedSpelling, Allowed, AllAllowed;
    if s == [] {
      NothingSpelled();
    } else {
      EscapedIsSpelled(s[0]);
      QuotedIsSpelled(s[1..]);
      SpellingMeans(s[0], PrintedSpellings(s[1..]));
      assert s == [s[0]] + s[1..];
      assert PrintedSpellings(s)[1..] == PrintedSpellings(s[1..]);
    }
    Reassociated([0x22], EscapedAll(s), [0x22]);
  }

  lemma NothingSpelled()
    ensures AllAllowed([]) && Meaning([]) == []
  {
  }

  // ---------------------------------------------------------------- the layout

  /** In the pretty form every element and every closing bracket stands on a line of its own, indented
      by the amount for each level; the level's indentation is an unsigned 32-bit number. */
  function Break(layout: Layout, depth: nat): Bytes {
    match layout
    case Compact => []
    case Pretty(amount) => [0x0A] + seq(amount * depth % 0x1_0000_0000, _ => 0x20)
  }

  /** The white space and the order of the printed text. */
  function TreeOf(x: Numerals, e: Expr, layout: Layout, depth: nat): Tree
    decreases e
  {
    match e
    case Null => NullTree
    case Boolean(b) => if b then TrueTree else FalseTree
    case Number(d) => NumberTree(x.format(d))
    case String(s) => StringTree(PrintedSpellings(s))
    case Array(items) => if items == [] then EmptyArray([]) else ArrayTree(ItemTrees(x, items, layout, depth))
    case Object(ps) => if ps == [] then EmptyObject([]) else ObjectTree(MemberTrees(x, ps, layout, depth))
  }

  function ItemTrees(x: Numerals, items: seq<Expr>, layout: Layout, depth: nat): (trees: seq<Item>)
    ensures |trees| == |items|
    decreases items
  {
    if items == [] then []
    else
      [Item(Break(layout, depth + 1), TreeOf(x, items[0], layout, depth + 1),
            if |items| == 1 then Break(layout, depth) else [])] + ItemTrees(x, items[1..], layout, depth)
  }

  function MemberTrees(x: Numerals, ps: seq<Property>, layout: Layout, depth: nat): (trees: seq<Member>)
    ensures |trees| == |ps|
    decreases ps
  {
    if ps == [] then []
    else
      [Member(Break(layout, depth + 1), PrintedSpellings(ps[0].key), [], if layout.Compact? then [] else [0x20],
              TreeOf(x, ps[0].value, layout, depth + 1), if |ps| == 1 then Break(layout, depth) else [])]
      + MemberTrees(x, ps[1..], layout, depth)
  }

  /** The indenter's level at a depth. */
  predicate LevelAt(layout: Layout, depth: nat, level: nat) {
    layout.Pretty? ==> level == layout.amount * depth % 0x1_0000_0000
  }

  lemma WrapsOnce(a: nat, b: nat)
    ensures (a % 0x1_0000_0000 + b) % 0x1_0000_0000 == (a + b) % 0x1_0000_0000
  {
  }

  lemma DeeperLevel(layout: Layout, depth: nat, level: nat)
    requires LevelAt(layout, depth, level)
    ensures LevelAt(layout, depth + 1, Deeper(layout, level))
  {
    if layout.Pretty? {
      WrapsOnce(layout.amount * depth, layout.amount);
      assert layout.amount * depth + layout.amount == layout.amount * (depth + 1);
    }
  }

  lemma BreakIsLineBreak(layout: Layout, depth: nat, level: nat)
    requires LevelAt(layout, depth, level)
    ensures LineBreak(layout, level) == Break(layout, depth) && Blank(Break(layout, depth))
  {
  }

  lemma GapIsSpace(layout: Layout)
    ensures Gap(layout) == if layout.Compact? then [] else [0x20]
  {
  }

  lemma Regrouped(a: Bytes, b: Bytes, c: Bytes, d: Bytes, close: Bytes, e: Bytes, f: Bytes)
    requires d + close == e + f
    ensures (a + (b + (c + d))) + close == a + ((b + (c + e)) + f)
  {
    Reassociated(a, b + (c + d), close);
    Reassociated(b, c + d, close);
    Reassociated(c, d, close);
    Reassociated(b, c + e, f);
    Reassociated(c, e, f);
  }

  // ---------------------------------------------------------------- printing writes that text

  lemma PrintedItemsAre(x: Numerals, items: seq<Expr>, layout: Layout, level: nat, first: bool)
    ensures items == [] ==> PrintItems(x, items, layout, level, first) == []
    ensures items != [] ==> (PrintItems(x, items, layout, level, first)
      == (if first then [] else [0x2C])
         + (LineBreak(layout, level) + (Print(x, items[0], layout, level) + PrintItems(x, items[1..], layout, level, false))))
  {
  }

  lemma ItemTreesAre(x: Numerals, items: seq<Expr>, layout: Layout, depth: nat)
    requires items != []
    ensures var trees := ItemTrees(x, items, layout, depth);
      && trees[0] == Item(Break(layout, depth + 1), TreeOf(x, items[0], layout, depth + 1),
                          if |items| == 1 then Break(layout, depth) else [])
      && trees[1..] == ItemTrees(x, items[1..], layout, depth)
  {
  }

  lemma {:induction false} ItemsArePrinted(x: Numerals, items: seq<Expr>, layout: Layout, depth: nat, level: nat, inner: nat, first: bool)
    requires items != [] && LevelAt(layout, depth, level) && LevelAt(layout, depth + 1, inner)
    ensures PrintItems(x, items, layout, inner, first) + (LineBreak(layout, level) + [0x5D])
         == (if first then [] else [0x2C]) + ItemsText(ItemTrees(x, items, layout, depth))
    decreases items, 0
  {
    hide Print, PrintItems, LineBreak, Break, TreeOf, ItemTrees, ItemsText, Text, LevelAt;
    var trees := ItemTrees(x, items, layout, depth);
    var sep, close: Bytes := if first then [] else [0x2C], LineBreak(layout, level) + [0x5D];
    var rest := PrintItems(x, items[1..], layout, inner, false);
    PrintedItemsAre(x, items, layout, inner, first);
    ItemTreesAre(x, items, layout, depth);
    ItemsTextIs(trees);
    TreeIsPrinted(x, items[0], layout, depth + 1, inner);
    BreakIsLineBreak(layout, depth, level);
    BreakIsLineBreak(layout, depth + 1, inner);
    if |items| == 1 {
      PrintedItemsAre(x, items[1..], layout, inner, false);
      assert rest + close == close;
    } else {
      ItemsArePrinted(x, items[1..], layout, depth, level, inner, false);
      assert [] + AfterFirst(trees) == AfterFirst(trees);
    }
    Regrouped(sep, LineBreak(layout, inner), Print(x, items[0], layout, inner), rest, close, trees[0].after, AfterFirst(trees));
  }

  lemma PrintedPropertiesAre(x: Numerals, ps: seq<Property>, layout: Layout, level: nat, first: bool)
    ensures ps == [] ==> PrintProperties(x, ps, layout, level, first) == []
    ensures ps != [] ==> (PrintProperties(x, ps, layout, level, first)
      == (if first then [] else [0x2C]) + (LineBreak(layout, level)
         + (Quoted(ps[0].key) + ([0x3A] + (Gap(layout)
         + (Print(x, ps[0].value, layout, level) + PrintProperties(x, ps[1..], layout, level, false)))))))
  {
  }

  lemma MemberTreesAre(x: Numerals, ps: seq<Property>, layout: Layout, depth: nat)
    requires ps != []
    ensures var trees := MemberTrees(x, ps, layout, depth);
      && trees[0] == Member(Break(layout, depth + 1), PrintedSpellings(ps[0].key), [], if layout.Compact? then [] else [0x20],
                            TreeOf(x, ps[0].value, layout, depth + 1), if |ps| == 1 then Break(layout, depth) else [])
      && trees[1..] == MemberTrees(x, ps[1..], layout, depth)
  {
  }

  lemma RegroupedMember(a: Bytes, b: Bytes, key: Bytes, gap: Bytes, c: Bytes, d: Bytes, close: Bytes, e: Bytes, f: Bytes)
    requires d + close == e + f
    ensures (a + (b + (key + ([0x3A] + (gap + (c + d)))))) + close
         == a + ((b + (key + ([] + ([0x3A] + (gap + (c + e)))))) + f)
  {
    var tail, tail2 := gap + (c + d), gap + (c + e);
    Regrouped(gap, [], c, d, close, e, f);
    assert gap + ([] + (c + d)) == tail && [] + (c + e) == c + e && [] + ([0x3A] + tail2) == [0x3A] + tail2;
    Reassociated(gap, c + e, f);
    assert tail + close == tail2 + f;
    Regrouped(a, b, key + [0x3A], tail, close, tail2, f);
    Reassociated(key, [0x3A], tail);
    Reassociated(key, [0x3A], tail2);
  }

  lemma {:induction false} MembersArePrinted(x: Numerals, ps: seq<Property>, layout: Layout, depth: nat, level: nat, inner: nat,
                                             first: bool)
    requires ps != [] && LevelAt(layout, depth, level) && LevelAt(layout, depth + 1, inner)
    ensures PrintProperties(x, ps, layout, inner, first) + (LineBreak(layout, level) + [0x7D])
         == (if first then [] else [0x2C]) + MembersText(MemberTrees(x, ps, layout, depth))
    decreases ps, 0
  {
    hide Print, PrintProperties, LineBreak, Break, TreeOf, MemberTrees, MembersText, Text, LevelAt, Quoted, QuotedText, Gap;
    var trees := MemberTrees(x, ps, layout, depth);
    var sep, close: Bytes := if first then [] else [0x2C], LineBreak(layout, level) + [0x7D];
    var rest := PrintProperties(x, ps[1..], layout, inner, false);
    PrintedPropertiesAre(x, ps, layout, inner, first);
    MemberTreesAre(x, ps, layout, depth);
    MembersTextIs(trees);
    QuotedIsSpelled(ps[0].key);
    GapIsSpace(layout);
    TreeIsPrinted(x, ps[0].value, layout, depth + 1, inner);
    BreakIsLineBreak(layout, depth, level);
    BreakIsLineBreak(layout, depth + 1, inner);
    if |ps| == 1 {
      PrintedPropertiesAre(x, ps[1..], layout, inner, false);
      assert rest + close == close;
    } else {
      MembersArePrinted(x, ps[1..], layout, depth, level, inner, false);
      assert [] + AfterMember(trees) == AfterMember(trees);
    }
    RegroupedMember(sep, LineBreak(layout, inner), Quoted(ps[0].key), Gap(layout), Print(x, ps[0].value, layout, inner), rest, close,
                    trees[0].after, AfterMember(trees));
  }

  /** The printer writes the text with that layout, whatever the indent amount. */
  lemma {:induction false} TreeIsPrinted(x: Numerals, e: Expr, layout: Layout, depth: nat, level: nat)
    requires LevelAt(layout, depth, level)
    ensures Print(x, e, layout, level) == Text(TreeOf(x, e, layout, depth))
    decreases e, 1
  {
    hide LineBreak, Break, PrintItems, PrintProperties, ItemTrees, MemberTrees, ItemsText, MembersText, LevelAt, Quoted, QuotedText;
    DeeperLevel(layout, depth, level);
    match e
    case Array(items) =>
      ArrayTextIs(x, items, layout, level);
      if items == [] {
        PrintedItemsAre(x, items, layout, Deeper(layout, level), true);
      } else {
        ItemsArePrinted(x, items, layout, depth, level, Deeper(layout, level), true);
      }
    case Object(ps) =>
      ObjectTextIs(x, ps, layout, level);
      if ps == [] {
        PrintedPropertiesAre(x, ps, layout, Deeper(layout, level), true);
      } else {
        MembersArePrinted(x, ps, layout, depth, level, Deeper(layout, level), true);
      }
    case String(s) => QuotedIsSpelled(s);
    case _ =>
  }
}
