/** The parser undoes the printer, in the compact form and for every indent amount. */
module JsonRoundTrip {
  import opened Options
  import opened ByteText
  import opened Json
  import opened JsonText
  import opened JsonStrings
  import opened JsonGrammar
  import opened JsonLayout

  // ---------------------------------------------------------------- what can be printed

  predicate Ascending(ps: seq<Property>) {
    forall i, j :: 0 <= i < j < |ps| ==> TextLess(ps[i].key, ps[j].key)
  }

  /** "%g" yields number characters that strtod reads back as the same double. */
  predicate RoundTrips(x: Numerals, d: Double) {
    && x.format(d) != []
    && (forall i :: 0 <= i < |x.format(d)| ==> IsNumberChar(x.format(d)[i]))
    && x.strtod(x.format(d)) == Some(d)
  }

  /** Objects are maps sorted by key, and every number survives its own text. */
  predicate Printable(x: Numerals, e: Expr)
    decreases e
  {
    match e
    case Number(d) => RoundTrips(x, d)
    case Array(items) => forall i :: 0 <= i < |items| ==> Printable(x, items[i])
    case Object(ps) => Ascending(ps) && forall i :: 0 <= i < |ps| ==> Printable(x, ps[i].value)
    case _ => true
  }

  // ---------------------------------------------------------------- keys

  lemma {:induction false} LargestKeyGoesLast(ps: seq<Property>, key: Bytes, value: Expr)
    requires Ascending(ps + [Property(key, value)])
    ensures Insert(ps, key, value) == ps + [Property(key, value)]
  {
    var all := ps + [Property(key, value)];
    if ps != [] {
      assert TextLess(all[0].key, all[|ps|].key);
      TextOrderIsStrict(ps[0].key, key);
      assert all[1..] == ps[1..] + [Property(key, value)];
      LargestKeyGoesLast(ps[1..], key, value);
    } else {
      assert all == [Property(key, value)];
    }
  }

  /** Insertion is a map update: afterwards the key has the new value, and every other key its old one. */
  lemma {:induction false} InsertUpdatesOneKey(ps: seq<Property>, key: Bytes, value: Expr)
    requires Ascending(ps)
    ensures Ascending(Insert(ps, key, value))
    ensures forall q :: q in Insert(ps, key, value) <==> q == Property(key, value) || (q in ps && q.key != key)
  {
    if ps == [] {
    } else if ps[0].key == key {
      assert ps == [ps[0]] + ps[1..];
      forall i | 0 < i < |ps| ensures ps[i].key != key {
        TextOrderIsStrict(ps[0].key, ps[i].key);
      }
    } else if TextLess(key, ps[0].key) {
      forall i | 0 <= i < |ps| ensures TextLess(key, ps[i].key) && ps[i].key != key {
        if i > 0 { TextOrderIsTransitive(key, ps[0].key, ps[i].key); }
        TextOrderIsStrict(key, ps[i].key);
      }
    } else {
      InsertUpdatesOneKey(ps[1..], key, value);
      TextOrderIsTotal(key, ps[0].key);
      assert ps == [ps[0]] + ps[1..];
      var rest := Insert(ps[1..], key, value);
      forall j | 0 <= j < |rest| ensures TextLess(ps[0].key, rest[j].key) {
        assert rest[j] in rest;
        if rest[j] != Property(key, value) {
          assert rest[j] in ps[1..];
        }
      }
    }
  }

  // ---------------------------------------------------------------- printed text is a text for the value

  lemma ItemFitsAt(x: Numerals, items: seq<Expr>, layout: Layout, depth: nat)
    requires items != [] && WellFormed(x, TreeOf(x, items[0], layout, depth + 1))
    ensures ItemFits(x, ItemTrees(x, items, layout, depth)[0])
    ensures ItemTrees(x, items, layout, depth)[0].tree == TreeOf(x, items[0], layout, depth + 1)
  {
    hide TreeOf, WellFormed;
  }

  lemma {:induction false} ItemTreesHold(x: Numerals, items: seq<Expr>, layout: Layout, depth: nat)
    requires forall i :: 0 <= i < |items| ==> Printable(x, items[i])
    ensures ItemsFit(x, ItemTrees(x, items, layout, depth))
    ensures ValuesOf(x, ItemTrees(x, items, layout, depth)) == items
    decreases items, 0
  {
    hide TreeOf, WellFormed, ItemFits, ValueOf, Printable;
    var trees := ItemTrees(x, items, layout, depth);
    if items != [] {
      TreeHolds(x, items[0], layout, depth + 1);
      ItemFitsAt(x, items, layout, depth);
      ItemTreesHold(x, items[1..], layout, depth);
      ItemTreesAre(x, items, layout, depth);
      assert trees == [trees[0]] + trees[1..];
      assert ValuesOf(x, trees)[1..] == ValuesOf(x, trees[1..]);
      assert items == [items[0]] + items[1..];
    }
  }

  lemma MemberFitsAt(x: Numerals, ps: seq<Property>, layout: Layout, depth: nat)
    requires ps != [] && WellFormed(x, TreeOf(x, ps[0].value, layout, depth + 1))
    ensures var m := MemberTrees(x, ps, layout, depth)[0];
      && MemberFits(x, m) && m.tree == TreeOf(x, ps[0].value, layout, depth + 1)
      && AllAllowed(m.key) && Meaning(m.key) == ps[0].key
  {
    hide TreeOf, WellFormed, Meaning;
    QuotedIsSpelled(ps[0].key);
  }

  lemma {:induction false} MemberTreesHold(x: Numerals, ps: seq<Property>, layout: Layout, depth: nat)
    requires forall i :: 0 <= i < |ps| ==> Printable(x, ps[i].value)
    ensures MembersFit(x, MemberTrees(x, ps, layout, depth))
    ensures forall i :: 0 <= i < |ps| ==> MemberHolds(x, MemberTrees(x, ps, layout, depth)[i], ps[i])
    decreases ps, 0
  {
    hide TreeOf, WellFormed, MemberFits, ValueOf, Printable, Meaning, AllAllowed;
    var trees := MemberTrees(x, ps, layout, depth);
    if ps != [] {
      TreeHolds(x, ps[0].value, layout, depth + 1);
      MemberFitsAt(x, ps, layout, depth);
      MemberTreesHold(x, ps[1..], layout, depth);
      MemberTreesAre(x, ps, layout, depth);
      assert trees == [trees[0]] + trees[1..];
      assert forall i :: 0 < i < |ps| ==> trees[i] == trees[1..][i - 1] && ps[i] == ps[1..][i - 1];
    }
  }

  /** The member writes the property down. */
  predicate MemberHolds(x: Numerals, m: Member, p: Property) {
    AllAllowed(m.key) && WellFormed(x, m.tree) && Meaning(m.key) == p.key && ValueOf(x, m.tree) == p.value
  }

  lemma {:induction false} MembersGather(x: Numerals, trees: seq<Member>, ps: seq<Property>, n: nat)
    requires n <= |ps| == |trees| && Ascending(ps) && MembersFit(x, trees)
    requires forall i :: 0 <= i < |ps| ==> MemberHolds(x, trees[i], ps[i])
    ensures MembersFit(x, trees[..n]) && Gathered(x, trees[..n]) == ps[..n]
    decreases n
  {
    hide MemberFits;
    if n > 0 {
      MembersGather(x, trees, ps, n - 1);
      assert trees[..n][..n - 1] == trees[..n - 1] && trees[..n][n - 1] == trees[n - 1];
      assert MemberHolds(x, trees[n - 1], ps[n - 1]);
      assert ps[..n] == ps[..n - 1] + [Property(ps[n - 1].key, ps[n - 1].value)];
      LargestKeyGoesLast(ps[..n - 1], ps[n - 1].key, ps[n - 1].value);
    }
  }

  lemma ObjectHolds(x: Numerals, ps: seq<Property>, layout: Layout, depth: nat)
    requires ps != [] && Ascending(ps) && MembersFit(x, MemberTrees(x, ps, layout, depth))
    requires forall i :: 0 <= i < |ps| ==> MemberHolds(x, MemberTrees(x, ps, layout, depth)[i], ps[i])
    ensures WellFormed(x, TreeOf(x, Object(ps), layout, depth)) && ValueOf(x, TreeOf(x, Object(ps), layout, depth)) == Object(ps)
  {
    hide MemberTrees, MemberFits, MemberHolds, Gathered;
    var trees := MemberTrees(x, ps, layout, depth);
    MembersGather(x, trees, ps, |ps|);
    assert trees[..|ps|] == trees && ps[..|ps|] == ps;
  }

  /** The layout changes nothing about the value. */
  lemma {:induction false} TreeHolds(x: Numerals, e: Expr, layout: Layout, depth: nat)
    requires Printable(x, e)
    ensures WellFormed(x, TreeOf(x, e, layout, depth)) && ValueOf(x, TreeOf(x, e, layout, depth)) == e
    decreases e, 1
  {
    hide ItemTrees, MemberTrees, ItemFits, MemberFits, MemberHolds, Meaning, PrintedSpellings, AllAllowed;
    match e
    case Array(items) => if items != [] { ItemTreesHold(x, items, layout, depth); }
    case Object(ps) =>
      if ps != [] {
        MemberTreesHold(x, ps, layout, depth);
        ObjectHolds(x, ps, layout, depth);
      }
    case String(s) => QuotedIsSpelled(s);
    case _ =>
  }

  // ---------------------------------------------------------------- the round trip

  lemma LevelIsSomewhere(layout: Layout)
    ensures LevelAt(layout, 0, 0)
  {
  }

  /** Printed text is read back wherever it stands, if no number character follows it. */
  lemma PrintedParses(x: Numerals, e: Expr, layout: Layout, depth: nat, level: nat, doc: Bytes, p: nat)
    requires Printable(x, e) && LevelAt(layout, depth, level) && At(doc, p, Print(x, e, layout, level))
    requires Stops(doc, p + |Print(x, e, layout, level)|)
    ensures ParseExpr(x, doc, p) == Success(e, p + |Print(x, e, layout, level)|)
  {
    hide ParseExpr, Print, Text, TreeOf, WellFormed, ValueOf, At, Stops;
    TreeIsPrinted(x, e, layout, depth, level);
    TreeHolds(x, e, layout, depth);
    TreeIsRead(x, TreeOf(x, e, layout, depth), doc, p);
  }

  /** The printed text starts with the value. */
  lemma PrintedStarts(x: Numerals, e: Expr, layout: Layout)
    requires Printable(x, e)
    ensures Print(x, e, layout, 0) != [] && !IsSpace(Print(x, e, layout, 0)[0])
  {
    hide Print, Text, TreeOf, WellFormed, ValueOf;
    LevelIsSomewhere(layout);
    TreeIsPrinted(x, e, layout, 0, 0);
    TreeHolds(x, e, layout, 0);
    TextStarts(x, TreeOf(x, e, layout, 0));
  }

  /** The round trip, in the compact form and in the pretty form for every indent amount. */
  lemma RoundTrip(x: Numerals, e: Expr, layout: Layout)
    requires Printable(x, e)
    ensures var text := Print(x, e, layout, 0); Parse(x, text) == Success(e, |text|)
  {
    hide Print, Text, TreeOf, WellFormed, ValueOf, Parse;
    var t := TreeOf(x, e, layout, 0);
    LevelIsSomewhere(layout);
    TreeIsPrinted(x, e, layout, 0, 0);
    TreeHolds(x, e, layout, 0);
    assert [] + (Text(t) + []) == Text(t);
    TextOfTreeParses(x, Text(t), [], t, [], e);
  }

  /** Hence different values never have the same text, whatever their layouts. */
  lemma PrintingIsInjective(x: Numerals, e: Expr, f: Expr, layout: Layout, other: Layout)
    requires Printable(x, e) && Printable(x, f)
    requires Print(x, e, layout, 0) == Print(x, f, other, 0)
    ensures e == f
  {
    RoundTrip(x, e, layout);
    RoundTrip(x, f, other);
  }

  // ---------------------------------------------------------------- what the parser builds

  /** Objects are sorted maps, however deep. */
  predicate Sorted(e: Expr) {
    match e
    case Array(items) => forall i :: 0 <= i < |items| ==> Sorted(items[i])
    case Object(ps) => Ascending(ps) && forall i :: 0 <= i < |ps| ==> Sorted(ps[i].value)
    case _ => true
  }

  /** Every number in e survives its own text. */
  predicate NumbersRoundTrip(x: Numerals, e: Expr) {
    match e
    case Number(d) => RoundTrips(x, d)
    case Array(items) => forall i :: 0 <= i < |items| ==> NumbersRoundTrip(x, items[i])
    case Object(ps) => forall i :: 0 <= i < |ps| ==> NumbersRoundTrip(x, ps[i].value)
    case _ => true
  }

  lemma {:induction false} SortedWithNumbersIsPrintable(x: Numerals, e: Expr)
    requires Sorted(e) && NumbersRoundTrip(x, e)
    ensures Printable(x, e)
    decreases e
  {
    match e
    case Array(items) =>
      forall i | 0 <= i < |items| ensures Printable(x, items[i]) { SortedWithNumbersIsPrintable(x, items[i]); }
    case Object(ps) =>
      forall i | 0 <= i < |ps| ensures Printable(x, ps[i].value) { SortedWithNumbersIsPrintable(x, ps[i].value); }
    case _ =>
  }

  lemma {:induction false} ParsedIsSorted(x: Numerals, doc: Bytes, p: nat)
    requires p <= |doc| && ParseExpr(x, doc, p).Success?
    ensures Sorted(ParseExpr(x, doc, p).value)
    decreases |doc| - p, 0
  {
    var start := SkipSpace(doc, p);
    var q := start + 1;
    var first := SkipSpace(doc, q);
    if doc[start] == OPEN_BRACKET && Peek(doc, first) != CLOSE_BRACKET {
      ParsedItemsAreSorted(x, doc, first, []);
    } else if doc[start] == OPEN_BRACE && Peek(doc, first) != CLOSE_BRACE {
      ParsedPropertiesAreSorted(x, doc, first, []);
    }
  }

  lemma {:induction false} ParsedItemsAreSorted(x: Numerals, doc: Bytes, p: nat, items: seq<Expr>)
    requires p <= |doc| && ParseItems(x, doc, p, items).Success?
    requires forall i :: 0 <= i < |items| ==> Sorted(items[i])
    ensures Sorted(ParseItems(x, doc, p, items).value)
    decreases |doc| - p, 1
  {
    ParsedIsSorted(x, doc, p);
    var item := ParseExpr(x, doc, p);
    var (c, q) := Next(doc, SkipSpace(doc, item.pos));
    if c == COMMA {
      ParsedItemsAreSorted(x, doc, SkipSpace(doc, q), items + [item.value]);
    }
  }

  lemma {:induction false} ParsedPropertyIsSorted(x: Numerals, doc: Bytes, p: nat)
    requires p <= |doc| && ParseProperty(x, doc, p).Success?
    ensures Sorted(ParseProperty(x, doc, p).value.value)
    decreases |doc| - p, 1
  {
    var (c, q) := Next(doc, p);
    var key := ParseString(doc, q, []);
    var (d, r) := Next(doc, SkipSpace(doc, key.pos));
    ParsedIsSorted(x, doc, SkipSpace(doc, r));
  }

  lemma {:induction false} ParsedPropertiesAreSorted(x: Numerals, doc: Bytes, p: nat, ps: seq<Property>)
    requires p <= |doc| && ParseProperties(x, doc, p, ps).Success?
    requires Sorted(Object(ps))
    ensures Sorted(ParseProperties(x, doc, p, ps).value)
    decreases |doc| - p, 2
  {
    var property := ParseProperty(x, doc, p);
    ParsedPropertyIsSorted(x, doc, p);
    var key, value := property.value.key, property.value.value;
    InsertUpdatesOneKey(ps, key, value);
    var more := Insert(ps, key, value);
    forall i | 0 <= i < |more| ensures Sorted(more[i].value) {
      assert more[i] in more;
    }
    var (e, t) := Next(doc, SkipSpace(doc, property.pos));
    if e == COMMA {
      ParsedPropertiesAreSorted(x, doc, SkipSpace(doc, t), more);
    }
  }

  /** Parsing what was printed from a parsed document changes nothing: no key is lost or reordered again. */
  lemma ReprintingIsStable(x: Numerals, doc: Bytes, layout: Layout)
    requires Parse(x, doc).Success? && NumbersRoundTrip(x, Parse(x, doc).value)
    ensures var e := Parse(x, doc).value; var text := Print(x, e, layout, 0); Parse(x, text) == Success(e, |text|)
  {
    ParsedIsSorted(x, doc, 0);
    SortedWithNumbersIsPrintable(x, Parse(x, doc).value);
    RoundTrip(x, Parse(x, doc).value, layout);
  }
}
