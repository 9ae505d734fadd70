/** Text at a place in a document, and how the parser's smallest loops get past it. */
module JsonText {
  import opened Options
  import opened ByteText
  import opened Json

  predicate At(doc: Bytes, p: nat, text: Bytes) {
    p + |text| <= |doc| && doc[p..p + |text|] == text
  }

  lemma AtParts(doc: Bytes, p: nat, a: Bytes, b: Bytes)
    requires At(doc, p, a + b)
    ensures At(doc, p, a) && At(doc, p + |a|, b) && p + |a| + |b| <= |doc|
  {
    assert doc[p..p + |a|] == (a + b)[..|a|];
    assert doc[p + |a|..p + |a| + |b|] == (a + b)[|a|..];
  }

  lemma AtJoined(doc: Bytes, p: nat, a: Bytes, b: Bytes)
    requires At(doc, p, a) && At(doc, p + |a|, b)
    ensures At(doc, p, a + b)
  {
    assert doc[p..p + |a| + |b|] == doc[p..p + |a|] + doc[p + |a|..p + |a| + |b|];
  }

  lemma AtByte(doc: Bytes, p: nat, text: Bytes, i: nat)
    requires At(doc, p, text) && i < |text|
    ensures p + |text| <= |doc| && doc[p + i] == text[i]
  {
    assert doc[p..p + |text|][i] == doc[p + i];
  }

  predicate AllSpace(ws: Bytes) { forall i :: 0 <= i < |ws| ==> IsSpace(ws[i]) }

  lemma {:induction false} SkipsExactly(doc: Bytes, p: nat, ws: Bytes)
    requires AllSpace(ws) && At(doc, p, ws)
    requires p + |ws| == |doc| || !IsSpace(doc[p + |ws|])
    ensures SkipSpace(doc, p) == p + |ws|
    decreases |ws|
  {
    if ws != [] {
      AtByte(doc, p, ws, 0);
      assert ws == [ws[0]] + ws[1..];
      AtParts(doc, p, [ws[0]], ws[1..]);
      SkipsExactly(doc, p + 1, ws[1..]);
    }
  }

  /** What is skipped is white space, and all of it. */
  lemma {:induction false} SkippedIsSpace(doc: Bytes, p: nat)
    requires p <= |doc|
    ensures AllSpace(doc[p..SkipSpace(doc, p)]) && At(doc, p, doc[p..SkipSpace(doc, p)])
    ensures SkipSpace(doc, p) == |doc| || !IsSpace(doc[SkipSpace(doc, p)])
    ensures SkipSpace(doc, SkipSpace(doc, p)) == SkipSpace(doc, p)
    decreases |doc| - p
  {
    if p < |doc| && IsSpace(doc[p]) {
      SkippedIsSpace(doc, p + 1);
      assert doc[p..SkipSpace(doc, p)] == [doc[p]] + doc[p + 1..SkipSpace(doc, p + 1)];
    }
  }

  lemma NoSpaceToSkip(doc: Bytes, p: nat)
    requires p < |doc| && !IsSpace(doc[p])
    ensures SkipSpace(doc, p) == p
  {
  }

  /** A number could not continue at q. */
  predicate Stops(doc: Bytes, q: nat) { q <= |doc| && (q == |doc| || !IsNumberChar(doc[q])) }

  lemma {:induction false} NumberEndsWhereTextDoes(doc: Bytes, p: nat, text: Bytes)
    requires At(doc, p, text) && forall i :: 0 <= i < |text| ==> IsNumberChar(text[i])
    requires Stops(doc, p + |text|)
    ensures NumberEnd(doc, p) == p + |text|
    decreases |text|
  {
    if text != [] {
      AtByte(doc, p, text, 0);
      assert text == [text[0]] + text[1..];
      AtParts(doc, p, [text[0]], text[1..]);
      NumberEndsWhereTextDoes(doc, p + 1, text[1..]);
    }
  }

  lemma {:induction false} NumberIsARun(doc: Bytes, p: nat)
    requires p <= |doc|
    ensures Stops(doc, NumberEnd(doc, p))
    ensures forall i :: p <= i < NumberEnd(doc, p) ==> IsNumberChar(doc[i])
    decreases |doc| - p
  {
    if p < |doc| && IsNumberChar(doc[p]) {
      NumberIsARun(doc, p + 1);
    }
  }

  lemma {:induction false} WordIsRead(doc: Bytes, p: nat, rest: Bytes)
    requires At(doc, p, rest)
    ensures ParseWord(doc, p, rest) == Success((), p + |rest|)
    decreases |rest|
  {
    if rest != [] {
      AtByte(doc, p, rest, 0);
      assert rest == [rest[0]] + rest[1..];
      AtParts(doc, p, [rest[0]], rest[1..]);
      WordIsRead(doc, p + 1, rest[1..]);
    }
  }

  lemma {:induction false} ReadWordIsThere(doc: Bytes, p: nat, rest: Bytes)
    requires p <= |doc| && ParseWord(doc, p, rest).Success?
    ensures At(doc, p, rest)
    decreases |rest|
  {
    if rest != [] {
      ReadWordIsThere(doc, p + 1, rest[1..]);
      assert At(doc, p, [rest[0]]);
      AtJoined(doc, p, [rest[0]], rest[1..]);
      assert rest == [rest[0]] + rest[1..];
    }
  }
}
