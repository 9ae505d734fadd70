/** The printer as it is written: it appends to a stream, and the indenter keeps a level. */
module JsonPrinter {
  import opened ByteText
  import opened Json

  const WIDTH := 0x1_0000_0000

  class Printer {
    const x: Numerals
    const layout: Layout
    var out: Bytes
    var level: nat

    constructor (x: Numerals, layout: Layout)
      ensures this.x == x && this.layout == layout && out == [] && level == 0
    {
      this.x := x;
      this.layout := layout;
      out, level := [], 0;
    }

    method Emit(text: Bytes)
      modifies `out
      ensures out == old(out) + text
    {
      out := out + text;
    }

    method Indent()
      modifies `level
      ensures level == Deeper(layout, old(level))
    {
      if layout.Pretty? { level := (level + layout.amount) % WIDTH; }
    }

    /** Subtraction on an unsigned int, which undoes the addition even when that wrapped. */
    method Outdent(ghost before: nat)
      requires before < WIDTH && level == Deeper(layout, before)
      modifies `level
      ensures level == before
    {
      if layout.Pretty? {
        OutdentUndoesIndent(before, layout.amount);
        level := (level - layout.amount) % WIDTH;
      }
    }

    method NewLine()
      modifies `out
      ensures out == old(out) + LineBreak(layout, level)
    {
      if layout.Pretty? {
        Emit([NEWLINE]);
        Emit(Spaces(level));
      }
    }

    method Quote(s: Bytes)
      modifies `out
      ensures out == old(out) + Quoted(s)
    {
      hide EscapedAll;
      Emit([QUOTE]);
      assert s[0..] == s;
      var i := 0;
      while i < |s|
        invariant i <= |s| && out + EscapedAll(s[i..]) == old(out) + [QUOTE] + EscapedAll(s)
      {
        ghost var before := out;
        var c := s[i];
        if c == 0x22 || c == 0x5C { Emit([BACKSLASH]); }
        if c >= 0x20 {
          Emit([c]);
        } else {
          Emit([BACKSLASH]);
          if c == TAB { Emit([LOWER_T]); }
          else if c == NEWLINE { Emit([LOWER_N]); }
          else if c == RETURN { Emit([LOWER_R]); }
          else {
            Emit([LOWER_U]);
            Emit([HexDigit(0), HexDigit(0), HexDigit(c / 16), HexDigit(c % 16)]);
          }
        }
        assert out == before + Escaped(c);
        EscapedNext(before, s, i);
        i := i + 1;
      }
      NothingToEscape();
      assert s[|s|..] == [] && out == old(out) + [QUOTE] + EscapedAll(s);
      Emit([QUOTE]);
      Assembled(old(out), [QUOTE], EscapedAll(s), [QUOTE]);
    }

    method Print(e: Expr)
      requires level < WIDTH
      modifies this
      ensures out == old(out) + Json.Print(x, e, layout, old(level)) && level == old(level)
      decreases e, 1
    {
      match e {
        case Null => Emit([LOWER_N] + NULL_TAIL);
        case Boolean(b) => Emit(if b then [LOWER_T] + TRUE_TAIL else [LOWER_F] + FALSE_TAIL);
        case Number(d) => Emit(x.format(d));
        case String(s) => Quote(s);
        case Object(ps) => PrintObject(ps);
        case Array(items) => PrintArray(items);
      }
    }

    method PrintArray(items: seq<Expr>)
      requires level < WIDTH
      modifies this
      ensures out == old(out) + Json.Print(x, Array(items), layout, old(level)) && level == old(level)
      decreases items, 1
    {
      hide Json.Print, PrintItems, LineBreak, Deeper;
      ghost var start, outer := out, level;
      ghost var inner := Deeper(layout, level);
      DeeperIsUnsigned(layout, level);
      var comma := false;
      Emit([OPEN_BRACKET]);
      Indent();
      var i := 0;
      while i < |items|
        invariant i <= |items| && comma == (i > 0) && level == inner
        invariant out + PrintItems(x, items[i..], layout, inner, i == 0)
               == start + [OPEN_BRACKET] + PrintItems(x, items, layout, inner, true)
      {
        ghost var before := out;
        if comma { Emit([COMMA]); }
        comma := true;
        NewLine();
        Print(items[i]);
        NextItem(x, items, layout, inner, i, before);
        i := i + 1;
      }
      assert items[|items|..] == [];
      NoItems(x, items, layout, inner);
      Outdent(outer);
      ghost var filled := out;
      if comma { NewLine(); }
      Emit([CLOSE_BRACKET]);
      ghost var tail := (if items == [] then [] else LineBreak(layout, outer)) + [CLOSE_BRACKET];
      assert out == filled + tail;
      Assembled(start, [OPEN_BRACKET], PrintItems(x, items, layout, inner, true), tail);
      ArrayTextIs(x, items, layout, outer);
    }

    method PrintObject(ps: seq<Property>)
      requires level < WIDTH
      modifies this
      ensures out == old(out) + Json.Print(x, Object(ps), layout, old(level)) && level == old(level)
      decreases ps, 1
    {
      hide Json.Print, PrintProperties, LineBreak, Deeper, Quoted;
      ghost var start, outer := out, level;
      ghost var inner := Deeper(layout, level);
      DeeperIsUnsigned(layout, level);
      var comma := false;
      Emit([OPEN_BRACE]);
      Indent();
      var i := 0;
      while i < |ps|
        invariant i <= |ps| && comma == (i > 0) && level == inner
        invariant out + PrintProperties(x, ps[i..], layout, inner, i == 0)
               == start + [OPEN_BRACE] + PrintProperties(x, ps, layout, inner, true)
      {
        ghost var before := out;
        if comma { Emit([COMMA]); }
        comma := true;
        NewLine();
        Quote(ps[i].key);
        Emit([COLON]);
        if layout.Pretty? { Emit([SPACE]); }
        Print(ps[i].value);
        NextProperty(x, ps, layout, inner, i, before);
        i := i + 1;
      }
      assert ps[|ps|..] == [];
      NoProperties(x, ps, layout, inner);
      Outdent(outer);
      ghost var filled := out;
      if comma { NewLine(); }
      Emit([CLOSE_BRACE]);
      ghost var tail := (if ps == [] then [] else LineBreak(layout, outer)) + [CLOSE_BRACE];
      assert out == filled + tail;
      Assembled(start, [OPEN_BRACE], PrintProperties(x, ps, layout, inner, true), tail);
      ObjectTextIs(x, ps, layout, outer);
    }
  }

  lemma OutdentUndoesIndent(level: nat, amount: nat)
    requires level < WIDTH
    ensures ((level + amount) % WIDTH - amount) % WIDTH == level
  {
    var k := (level + amount) / WIDTH;
    assert (level + amount) % WIDTH - amount == level - k * WIDTH;
    Wraps(level, k);
  }

  lemma {:induction false} Wraps(level: nat, k: nat)
    requires level < WIDTH
    ensures (level - k * WIDTH) % WIDTH == level
  {
    if k > 0 {
      Wraps(level, k - 1);
      assert (level - k * WIDTH) == (level - (k - 1) * WIDTH) - WIDTH;
    }
  }

  lemma DeeperIsUnsigned(layout: Layout, level: nat)
    requires level < WIDTH
    ensures Deeper(layout, level) < WIDTH
  {
  }

  lemma Assembled(start: Bytes, open: Bytes, body: Bytes, tail: Bytes)
    ensures start + open + body + tail == start + (open + (body + tail)) == start + (open + body + tail)
  {
  }

  lemma NothingToEscape()
    ensures EscapedAll([]) == []
  {
  }

  lemma EscapedNext(before: Bytes, s: Bytes, i: nat)
    requires i < |s|
    ensures before + Escaped(s[i]) + EscapedAll(s[i + 1..]) == before + EscapedAll(s[i..])
  {
    assert s[i..][1..] == s[i + 1..];
  }

  lemma NextItem(x: Numerals, items: seq<Expr>, layout: Layout, level: nat, i: nat, before: Bytes)
    requires i < |items|
    ensures (if i > 0 then before + [COMMA] else before) + LineBreak(layout, level) + Json.Print(x, items[i], layout, level)
            + PrintItems(x, items[i + 1..], layout, level, false)
         == before + PrintItems(x, items[i..], layout, level, i == 0)
  {
    hide Json.Print, LineBreak;
    assert items[i..][1..] == items[i + 1..];
  }

  lemma NextProperty(x: Numerals, ps: seq<Property>, layout: Layout, level: nat, i: nat, before: Bytes)
    requires i < |ps|
    ensures (if i > 0 then before + [COMMA] else before) + LineBreak(layout, level) + Quoted(ps[i].key) + [COLON] + Gap(layout)
            + Json.Print(x, ps[i].value, layout, level) + PrintProperties(x, ps[i + 1..], layout, level, false)
         == before + PrintProperties(x, ps[i..], layout, level, i == 0)
  {
    hide Json.Print, LineBreak, Quoted, Gap;
    assert ps[i..][1..] == ps[i + 1..];
  }

  lemma NoItems(x: Numerals, items: seq<Expr>, layout: Layout, level: nat)
    ensures PrintItems(x, [], layout, level, items == []) == []
  {
  }

  lemma NoProperties(x: Numerals, ps: seq<Property>, layout: Layout, level: nat)
    ensures PrintProperties(x, [], layout, level, ps == []) == []
  {
  }
}
