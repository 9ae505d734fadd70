/** The fragment of POSIX regular expressions that queries are turned into: what it matches, how it is
    written, and that what is written is read back. */
module PosixRegex {
  import opened Options
  import opened ByteText
  import opened SymbolTokens

  /** One character; [[:alnum:]]*; a group with a question mark. */
  datatype Re = Lit(c: Byte) | AlnumStar | Opt(body: seq<Re>)

  predicate IsAlnum(c: Byte) { Classify(c) != Misc }

  predicate AllAlnum(s: Bytes) { forall i :: 0 <= i < |s| ==> IsAlnum(s[i]) }

  /** The words of one piece, and of pieces in sequence. */
  predicate Accepts(re: Re, s: Bytes)
    decreases re, 0
  {
    match re
    case Lit(c) => s == [c]
    case AlnumStar => AllAlnum(s)
    case Opt(body) => s == [] || AcceptsAll(body, s)
  }

  predicate AcceptsAll(res: seq<Re>, s: Bytes)
    decreases res, 0
  {
    if res == [] then s == []
    else exists k :: 0 <= k <= |s| && Accepts(res[0], s[..k]) && AcceptsAll(res[1..], s[k..])
  }

  /** Regex::match with a leading ^: some beginning of s is a word. */
  predicate MatchesFront(res: seq<Re>, s: Bytes) {
    exists n :: 0 <= n <= |s| && AcceptsAll(res, s[..n])
  }

  const ALNUM_STAR_TEXT: Bytes :=
    [0x5B, 0x5B, 0x3A, 0x61, 0x6C, 0x6E, 0x75, 0x6D, 0x3A, 0x5D, 0x5D, 0x2A]

  /** POSIX notation; the literals used are letters, digits and spaces, which stand for themselves. */
  function Notation(re: Re): Bytes
    decreases re, 0
  {
    match re
    case Lit(c) => [c]
    case AlnumStar => ALNUM_STAR_TEXT
    case Opt(body) => [0x28] + NotationAll(body) + [0x29, 0x3F]
  }

  function NotationAll(res: seq<Re>): Bytes
    decreases res, 0
  {
    if res == [] then [] else Notation(res[0]) + NotationAll(res[1..])
  }

  lemma NotationStarts(a: seq<Re>)
    requires a != []
    ensures NotationAll(a) == Notation(a[0]) + NotationAll(a[1..])
  {
  }

  lemma {:induction false} NotationJoins(a: seq<Re>, b: seq<Re>)
    ensures NotationAll(a + b) == NotationAll(a) + NotationAll(b)
  {
    hide Notation, NotationAll;
    if a == [] {
      assert a + b == b;
      NothingWritten();
    } else {
      NotationJoins(a[1..], b);
      NotationStarts(a);
      NotationStarts(a + b);
      assert (a + b)[0] == a[0] && (a + b)[1..] == a[1..] + b;
      Reassociated(Notation(a[0]), NotationAll(a[1..]), NotationAll(b));
    }
  }

  // ---------------------------------------------------------------- reading the notation

  /** Letters, digits and the space stand for themselves. */
  predicate StandsForItself(c: Byte) {
    48 <= c <= 57 || 65 <= c <= 90 || 97 <= c <= 122 || c == 32
  }

  /** [[:alnum:]]* */
  const ALNUM_CLASS: Bytes := [91, 91, 58, 97, 108, 110, 117, 109, 58, 93, 93, 42]

  /** Reads a pattern up to its end, or inside a group up to the closing parenthesis, which is consumed. */
  function Read(text: Bytes, grouped: bool): (r: Option<(seq<Re>, Bytes)>)
    ensures r.Some? ==> |r.value.1| <= |text|
    decreases |text|
  {
    if text == [] then (if grouped then None else Some(([], [])))
    else if grouped && text[0] == 41 then Some(([], text[1..]))
    else if text[0] == 40 then
      match Read(text[1..], true)
      case None => None
      case Some((body, rest)) =>
        if rest == [] || rest[0] != 63 then None else Prepended(Opt(body), Read(rest[1..], grouped))
    else if ALNUM_CLASS <= text then Prepended(AlnumStar, Read(text[|ALNUM_CLASS|..], grouped))
    else if StandsForItself(text[0]) then Prepended(Lit(text[0]), Read(text[1..], grouped))
    else None
  }

  function Prepended(re: Re, rest: Option<(seq<Re>, Bytes)>): (r: Option<(seq<Re>, Bytes)>)
    ensures r.Some? ==> rest.Some? && r.value.1 == rest.value.1
  {
    match rest
    case None => None
    case Some((more, left)) => Some(([re] + more, left))
  }

  function PrependedAll(res: seq<Re>, rest: Option<(seq<Re>, Bytes)>): Option<(seq<Re>, Bytes)> {
    match rest
    case None => None
    case Some((more, left)) => Some((res + more, left))
  }

  /** All characters stand for themselves. */
  predicate Plain(re: Re)
    decreases re, 0
  {
    match re
    case Lit(c) => StandsForItself(c)
    case AlnumStar => true
    case Opt(body) => AllPlain(body)
  }

  predicate AllPlain(res: seq<Re>)
    decreases res, 0
  {
    res == [] || (Plain(res[0]) && AllPlain(res[1..]))
  }

  lemma {:induction false} GroupIsRead(body: seq<Re>, tail: Bytes, grouped: bool)
    requires AllPlain(body)
    ensures Read(Notation(Opt(body)) + tail, grouped) == Prepended(Opt(body), Read(tail, grouped))
    decreases body, 1
  {
    hide NotationAll;
    var text, inner := Notation(Opt(body)) + tail, NotationAll(body);
    var close := [41] + ([63] + tail);
    assert text[0] == 40 && text[1..] == inner + close;
    NotationIsRead(body, close, true);
    GroupCloses([63] + tail);
    assert ([63] + tail)[1..] == tail;
    assert body + [] == body;
  }

  lemma GroupCloses(rest: Bytes)
    ensures Read([41] + rest, true) == Some(([], rest))
  {
    assert ([41] + rest)[1..] == rest;
  }

  lemma AtomIsRead(re: Re, tail: Bytes, grouped: bool)
    requires Plain(re) && !re.Opt?
    ensures Read(Notation(re) + tail, grouped) == Prepended(re, Read(tail, grouped))
  {
    var text := Notation(re) + tail;
    if re.Lit? {
      assert text[0] == re.c && text[1..] == tail;
    } else {
      assert ALNUM_STAR_TEXT == ALNUM_CLASS;
      assert text[..12] == ALNUM_CLASS && text[12..] == tail && text[0] == 91;
    }
  }

  /** What is written for a pattern is read as that pattern, whatever follows. */
  lemma {:induction false} NotationIsRead(res: seq<Re>, tail: Bytes, grouped: bool)
    requires AllPlain(res)
    ensures Read(NotationAll(res) + tail, grouped) == PrependedAll(res, Read(tail, grouped))
    decreases res, 0
  {
    hide Notation, NotationAll, Read;
    if res == [] {
      NothingWritten();
      assert [] + tail == tail;
      NothingPrepended(Read(tail, grouped));
    } else {
      var re, more := res[0], res[1..];
      NotationStarts(res);
      Reassociated(Notation(re), NotationAll(more), tail);
      NotationIsRead(more, tail, grouped);
      if re.Opt? {
        GroupIsRead(re.body, NotationAll(more) + tail, grouped);
      } else {
        AtomIsRead(re, NotationAll(more) + tail, grouped);
      }
      PrependedInTurn(res, Read(tail, grouped));
    }
  }

  lemma NothingWritten()
    ensures NotationAll([]) == []
  {
  }

  lemma NothingPrepended(rest: Option<(seq<Re>, Bytes)>)
    ensures PrependedAll([], rest) == rest
  {
    if rest.Some? {
      assert [] + rest.value.0 == rest.value.0;
    }
  }

  lemma PrependedInTurn(res: seq<Re>, rest: Option<(seq<Re>, Bytes)>)
    requires res != []
    ensures Prepended(res[0], PrependedAll(res[1..], rest)) == PrependedAll(res, rest)
  {
    if rest.Some? {
      assert res == [res[0]] + res[1..];
      Reassociated([res[0]], res[1..], rest.value.0);
    }
  }

  /** llvm::Regex on a pattern of this fragment that starts with ^. */
  predicate RegexMatches(pattern: Bytes, s: Bytes) {
    && pattern != [] && pattern[0] == 94
    && var read := Read(pattern[1..], false);
       read.Some? && MatchesFront(read.value.0, s)
  }

  /** Compiling the written pattern gives the pattern. */
  lemma WrittenPatternMatches(res: seq<Re>, s: Bytes)
    requires AllPlain(res)
    ensures RegexMatches([94] + NotationAll(res), s) <==> MatchesFront(res, s)
  {
    hide NotationAll, MatchesFront;
    var pattern := [94] + NotationAll(res);
    assert pattern[1..] == NotationAll(res) && NotationAll(res) + [] == NotationAll(res);
    NotationIsRead(res, [], false);
    assert res + [] == res;
  }
}
