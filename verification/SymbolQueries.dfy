/** Queries as regular expressions over tokenised symbols, and what they match. */
module SymbolQueries {
  import opened ByteText
  import opened SymbolTokens
  import opened PosixRegex

  // ---------------------------------------------------------------- queryRegexp

  /** The rest of a symbol token, and a space. */
  const GAP: seq<Re> := [AlnumStar, Lit(SPACE)]

  /** The characters after the first of a query token: each may start a new symbol token. */
  function MorePattern(q: Bytes): seq<Re> {
    if q == [] then [] else [Opt(GAP), Lit(q[0])] + MorePattern(q[1..])
  }

  function TokenPattern(q: Bytes): seq<Re> {
    if q == [] then [] else [Lit(q[0])] + MorePattern(q[1..])
  }

  /** Each query token after the first must start a new symbol token. */
  function LaterPattern(qs: seq<Bytes>): seq<Re> {
    if qs == [] then [] else GAP + (TokenPattern(qs[0]) + LaterPattern(qs[1..]))
  }

  function QueryPattern(qs: seq<Bytes>): seq<Re> {
    if qs == [] then [] else TokenPattern(qs[0]) + LaterPattern(qs[1..])
  }

  const GAP_TEXT: Bytes := ALNUM_STAR_TEXT + [SPACE]
  const OPTIONAL_GAP_TEXT: Bytes := [0x28] + GAP_TEXT + [0x29, 0x3F]

  lemma GapNotation()
    ensures NotationAll(GAP) == GAP_TEXT && Notation(Opt(GAP)) == OPTIONAL_GAP_TEXT
  {
    assert GAP[1..] == [Lit(SPACE)] && GAP[1..][1..] == [];
    assert NotationAll(GAP[1..]) == [SPACE];
  }

  lemma MoreNotation(q: Bytes)
    requires q != []
    ensures NotationAll(MorePattern(q)) == OPTIONAL_GAP_TEXT + [q[0]] + NotationAll(MorePattern(q[1..]))
  {
    GapNotation();
    var two := [Opt(GAP), Lit(q[0])];
    NotationJoins(two, MorePattern(q[1..]));
    assert two[1..] == [Lit(q[0])] && two[1..][1..] == [];
    assert NotationAll(two[1..]) == [q[0]];
    assert NotationAll(two) == OPTIONAL_GAP_TEXT + [q[0]];
  }

  method QueryRegexp(tokens: seq<Bytes>) returns (result: Bytes)
    ensures result == NotationAll(QueryPattern(tokens))
  {
    hide NotationAll, Notation, MorePattern, TokenPattern, LaterPattern, QueryPattern;
    result := [];
    var i := 0;
    while i < |tokens|
      invariant i <= |tokens|
      invariant result + NotationAll(if i == 0 then QueryPattern(tokens) else LaterPattern(tokens[i..]))
             == NotationAll(QueryPattern(tokens))
    {
      ghost var before := result;
      if i > 0 { result := result + GAP_TEXT; }
      ghost var written := result;
      var token := tokens[i];
      var j := 0;
      while j < |token|
        invariant j <= |token|
        invariant result + NotationAll(if j == 0 then TokenPattern(token) else MorePattern(token[j..]))
               == written + NotationAll(TokenPattern(token))
      {
        ghost var start := result;
        if j > 0 { result := result + OPTIONAL_GAP_TEXT; }
        result := result + [token[j]];
        CharacterIsAppended(token, j, start);
        j := j + 1;
      }
      NothingMore(token);
      assert result == written + NotationAll(TokenPattern(token)) by { assert result + [] == result; }
      TokenIsAppended(tokens, i, before);
      i := i + 1;
    }
    NothingMore([]);
    assert tokens[|tokens|..] == [] && result + [] == result;
  }

  lemma NothingMore(token: Bytes)
    ensures NotationAll([]) == [] && MorePattern([]) == [] && TokenPattern([]) == [] && LaterPattern([]) == []
      && QueryPattern([]) == []
    ensures token[|token|..] == []
  {
  }

  lemma CharacterIsAppended(token: Bytes, j: nat, start: Bytes)
    requires j < |token|
    ensures (if j > 0 then start + OPTIONAL_GAP_TEXT else start) + [token[j]] + NotationAll(MorePattern(token[j + 1..]))
         == start + NotationAll(if j == 0 then TokenPattern(token) else MorePattern(token[j..]))
  {
    if j == 0 {
      NotationJoins([Lit(token[0])], MorePattern(token[1..]));
      assert NotationAll([Lit(token[0])]) == [token[0]];
    } else {
      MoreNotation(token[j..]);
      assert token[j..][1..] == token[j + 1..];
    }
  }

  lemma LaterNotation(qs: seq<Bytes>)
    requires qs != []
    ensures NotationAll(LaterPattern(qs)) == GAP_TEXT + (NotationAll(TokenPattern(qs[0])) + NotationAll(LaterPattern(qs[1..])))
  {
    hide NotationAll, TokenPattern;
    GapNotation();
    NotationJoins(GAP, TokenPattern(qs[0]) + LaterPattern(qs[1..]));
    NotationJoins(TokenPattern(qs[0]), LaterPattern(qs[1..]));
  }

  lemma TokenIsAppended(tokens: seq<Bytes>, i: nat, before: Bytes)
    requires i < |tokens|
    ensures (if i > 0 then before + GAP_TEXT else before) + NotationAll(TokenPattern(tokens[i])) + NotationAll(LaterPattern(tokens[i + 1..]))
         == before + NotationAll(if i == 0 then QueryPattern(tokens) else LaterPattern(tokens[i..]))
  {
    hide NotationAll, TokenPattern, LaterPattern;
    var token, rest := NotationAll(TokenPattern(tokens[i])), NotationAll(LaterPattern(tokens[i + 1..]));
    if i == 0 {
      NotationJoins(TokenPattern(tokens[0]), LaterPattern(tokens[1..]));
      Reassociated(before, token, rest);
    } else {
      LaterNotation(tokens[i..]);
      assert tokens[i..][0] == tokens[i] && tokens[i..][1..] == tokens[i + 1..];
      Reassociated(before + GAP_TEXT, token, rest);
      Reassociated(before, GAP_TEXT, token + rest);
    }
  }

  // ---------------------------------------------------------------- the pattern as text

  lemma {:induction false} MorePatternIsPlain(q: Bytes)
    requires AllAlnum(q)
    ensures AllPlain(MorePattern(q))
    decreases |q|
  {
    if q != [] {
      MorePatternIsPlain(q[1..]);
      GapIsPlain();
      var rest := [Lit(q[0])] + MorePattern(q[1..]);
      assert IsAlnum(q[0]) && rest[1..] == MorePattern(q[1..]);
      assert MorePattern(q)[1..] == rest;
    }
  }

  lemma GapIsPlain()
    ensures AllPlain(GAP) && Plain(Opt(GAP))
  {
    var space := [Lit(SPACE)];
    assert space[1..] == [] && AllPlain([]) && Plain(Lit(SPACE));
    assert AllPlain(space);
    assert GAP[1..] == space && Plain(AlnumStar);
    assert AllPlain(GAP);
  }

  lemma {:induction false} PlainJoins(a: seq<Re>, b: seq<Re>)
    requires AllPlain(a) && AllPlain(b)
    ensures AllPlain(a + b)
    decreases |a|
  {
    if a == [] {
      assert a + b == b;
    } else {
      PlainJoins(a[1..], b);
      assert (a + b)[1..] == a[1..] + b;
    }
  }

  lemma TokenPatternIsPlain(q: Bytes)
    requires IsToken(q)
    ensures AllPlain(TokenPattern(q))
  {
    TokenIsAlnum(q);
    MorePatternIsPlain(q[1..]);
    assert IsAlnum(q[0]) && TokenPattern(q)[1..] == MorePattern(q[1..]);
  }

  lemma {:induction false} LaterPatternIsPlain(qs: seq<Bytes>)
    requires AreTokens(qs)
    ensures AllPlain(LaterPattern(qs))
    decreases |qs|
  {
    hide AllPlain, IsToken, TokenPattern;
    if qs == [] {
      NoPatternIsPlain();
    } else {
      TokenPatternIsPlain(qs[0]);
      LaterPatternIsPlain(qs[1..]);
      GapIsPlain();
      PlainJoins(TokenPattern(qs[0]), LaterPattern(qs[1..]));
      PlainJoins(GAP, TokenPattern(qs[0]) + LaterPattern(qs[1..]));
    }
  }

  lemma NoPatternIsPlain()
    ensures AllPlain([])
  {
  }

  /** Tokens have no character with a meaning of its own in a regular expression. */
  lemma QueryPatternIsPlain(qs: seq<Bytes>)
    requires AreTokens(qs)
    ensures AllPlain(QueryPattern(qs))
  {
    if qs != [] {
      TokenPatternIsPlain(qs[0]);
      LaterPatternIsPlain(qs[1..]);
      PlainJoins(TokenPattern(qs[0]), LaterPattern(qs[1..]));
    }
  }

  /** The header's example: [fe f] becomes f([[:alnum:]]* )?e[[:alnum:]]* f. */
  lemma PatternOfFeF()
    ensures NotationAll(QueryPattern([[102, 101], [102]])) ==
      [102, 40, 91, 91, 58, 97, 108, 110, 117, 109, 58, 93, 93, 42, 32, 41, 63, 101,
       91, 91, 58, 97, 108, 110, 117, 109, 58, 93, 93, 42, 32, 102]
  {
    hide NotationAll, MorePattern, TokenPattern, LaterPattern, QueryPattern;
    var q: Bytes, f: Bytes := [102, 101], [102];
    NothingMore([]);
    PatternOfTwo(q);
    PatternOfOne(f);
    LaterNotation([f]);
    assert [f][1..] == [] && [q, f][1..] == [f];
    NotationJoins(TokenPattern(q), LaterPattern([f]));
    PatternOfTwoTokens(q, f);
    assert [q[0]] + OPTIONAL_GAP_TEXT + [q[1]] == [102, 40, 91, 91, 58, 97, 108, 110, 117, 109, 58, 93, 93, 42, 32, 41, 63, 101];
    assert GAP_TEXT + (f + []) == [91, 91, 58, 97, 108, 110, 117, 109, 58, 93, 93, 42, 32, 102];
  }

  lemma PatternOfTwoTokens(q: Bytes, f: Bytes)
    ensures QueryPattern([q, f]) == TokenPattern(q) + LaterPattern([f])
  {
    assert [q, f][1..] == [f];
  }

  lemma PatternOfOne(q: Bytes)
    requires |q| == 1
    ensures NotationAll(TokenPattern(q)) == q
  {
    hide NotationAll, MorePattern, TokenPattern;
    NothingMore([]);
    CharacterIsAppended(q, 0, []);
    assert q[1..] == [] && [] + [q[0]] + [] == q;
    assert [] + NotationAll(TokenPattern(q)) == NotationAll(TokenPattern(q));
  }

  lemma PatternOfTwo(q: Bytes)
    requires |q| == 2
    ensures NotationAll(TokenPattern(q)) == [q[0]] + OPTIONAL_GAP_TEXT + [q[1]]
  {
    hide NotationAll, MorePattern, TokenPattern;
    NothingMore([]);
    CharacterIsAppended(q, 0, []);
    CharacterIsAppended(q, 1, [q[0]]);
    assert q[2..] == [];
    assert [] + NotationAll(TokenPattern(q)) == NotationAll(TokenPattern(q));
    assert [q[0]] + OPTIONAL_GAP_TEXT + [q[1]] + [] == [q[0]] + OPTIONAL_GAP_TEXT + [q[1]];
    assert [] + [q[0]] == [q[0]];
  }

  // ---------------------------------------------------------------- what a query should find

  /** The query tokens cut into non-empty pieces. */
  predicate Cuts(pieces: seq<seq<Bytes>>, qs: seq<Bytes>) {
    && |pieces| == |qs|
    && forall i :: 0 <= i < |qs| ==> Flatten(pieces[i]) == qs[i] && NonEmpty(pieces[i])
  }

  predicate NonEmpty(ps: seq<Bytes>) { forall i :: 0 <= i < |ps| ==> ps[i] != [] }

  function InOrder(pieces: seq<seq<Bytes>>): seq<Bytes> {
    if pieces == [] then [] else pieces[0] + InOrder(pieces[1..])
  }

  /** Piece by piece, prefixes of consecutive tokens from the first, each token used once. */
  predicate StartTokens(ps: seq<Bytes>, ts: seq<Bytes>) {
    |ps| <= |ts| && forall i :: 0 <= i < |ps| ==> ps[i] <= ts[i]
  }

  ghost predicate Finds(qs: seq<Bytes>, ts: seq<Bytes>) {
    exists pieces :: Cuts(pieces, qs) && StartTokens(InOrder(pieces), ts)
  }

  /** What is left of a query fits what is left of a symbol: q of the current query token, t of the current symbol token. */
  predicate Fits(q: Bytes, qs: seq<Bytes>, t: Bytes, ts: seq<Bytes>)
    decreases |qs|, |q|
  {
    if q == [] then qs == [] || FitsNext(qs, ts)
    else
      || (t != [] && t[0] == q[0] && Fits(q[1..], qs, t[1..], ts))
      || (ts != [] && ts[0] != [] && ts[0][0] == q[0] && Fits(q[1..], qs, ts[0][1..], ts[1..]))
  }

  predicate FitsNext(qs: seq<Bytes>, ts: seq<Bytes>)
    requires qs != []
    decreases |qs| - 1, |qs[0]|
  {
    && ts != [] && qs[0] != [] && ts[0] != [] && ts[0][0] == qs[0][0]
    && Fits(qs[0][1..], qs[1..], ts[0][1..], ts[1..])
  }

  // ---------------------------------------------------------------- cuts and fits

  lemma {:induction false} FitGivesCut(q: Bytes, qs: seq<Bytes>, t: Bytes, ts: seq<Bytes>)
    returns (a: Bytes, more: seq<Bytes>, pieces: seq<seq<Bytes>>)
    requires Fits(q, qs, t, ts)
    ensures a + Flatten(more) == q && a <= t && NonEmpty(more)
    ensures Cuts(pieces, qs) && StartTokens(more + InOrder(pieces), ts)
    decreases |qs|, |q|
  {
    if q == [] {
      a, more := [], [];
      if qs == [] {
        pieces := [];
      } else {
        pieces := FitGivesCutNext(qs, ts);
        assert [] + InOrder(pieces) == InOrder(pieces);
      }
    } else if t != [] && t[0] == q[0] && Fits(q[1..], qs, t[1..], ts) {
      a, more, pieces := FitGivesCut(q[1..], qs, t[1..], ts);
      Prepended(q[0], a, Flatten(more), q);
      PrefixGrows(a, t);
      a := [q[0]] + a;
    } else {
      a, more, pieces := FitGivesCut(q[1..], qs, ts[0][1..], ts[1..]);
      Prepended(q[0], a, Flatten(more), q);
      PrefixGrows(a, ts[0]);
      PieceStarts([q[0]] + a, more + InOrder(pieces), ts);
      assert [[q[0]] + a] + more + InOrder(pieces) == [[q[0]] + a] + (more + InOrder(pieces));
      more := [[q[0]] + a] + more;
      a := [];
      assert [] + Flatten(more) == Flatten(more);
    }
  }

  lemma {:induction false} FitGivesCutNext(qs: seq<Bytes>, ts: seq<Bytes>) returns (pieces: seq<seq<Bytes>>)
    requires qs != [] && FitsNext(qs, ts)
    ensures Cuts(pieces, qs) && StartTokens(InOrder(pieces), ts)
    decreases |qs| - 1, |qs[0]|
  {
    var q := qs[0];
    var a, more, later := FitGivesCut(q[1..], qs[1..], ts[0][1..], ts[1..]);
    Prepended(q[0], a, Flatten(more), q);
    PrefixGrows(a, ts[0]);
    var first := [[q[0]] + a] + more;
    pieces := [first] + later;
    assert InOrder(pieces) == [[q[0]] + a] + (more + InOrder(later));
    PieceStarts([q[0]] + a, more + InOrder(later), ts);
  }

  lemma Prepended(c: Byte, a: Bytes, b: Bytes, q: Bytes)
    requires q != [] && q[0] == c && a + b == q[1..]
    ensures [c] + a + b == q
  {
    assert q == [q[0]] + q[1..];
    assert [c] + a + b == [c] + (a + b);
  }

  lemma PrefixGrows(a: Bytes, t: Bytes)
    requires t != [] && a <= t[1..]
    ensures [t[0]] + a <= t
  {
    assert t == [t[0]] + t[1..];
  }

  lemma PieceStarts(p: Bytes, ps: seq<Bytes>, ts: seq<Bytes>)
    requires ts != [] && p <= ts[0] && StartTokens(ps, ts[1..])
    ensures StartTokens([p] + ps, ts)
  {
  }

  lemma {:induction false} CutGivesFit(q: Bytes, qs: seq<Bytes>, t: Bytes, ts: seq<Bytes>,
                                       a: Bytes, more: seq<Bytes>, pieces: seq<seq<Bytes>>)
    requires a + Flatten(more) == q && a <= t && NonEmpty(more)
    requires Cuts(pieces, qs) && StartTokens(more + InOrder(pieces), ts) && NonEmpty(qs)
    ensures Fits(q, qs, t, ts)
    decreases |qs|, |q|
  {
    if a != [] {
      assert (a + Flatten(more))[1..] == a[1..] + Flatten(more);
      CutGivesFit(q[1..], qs, t[1..], ts, a[1..], more, pieces);
    } else if more != [] {
      var p, rest := more[0], more[1..];
      assert more + InOrder(pieces) == [p] + (rest + InOrder(pieces));
      assert [p] + rest == more && [] + Flatten(more) == q;
      SplitPiece(p, rest, q);
      StartsSplit(p, rest + InOrder(pieces), ts);
      CutGivesFit(q[1..], qs, ts[0][1..], ts[1..], p[1..], rest, pieces);
    } else {
      assert [] + InOrder(pieces) == InOrder(pieces);
      if qs != [] { CutGivesFitNext(qs, ts, pieces); }
    }
  }

  lemma {:induction false} CutGivesFitNext(qs: seq<Bytes>, ts: seq<Bytes>, pieces: seq<seq<Bytes>>)
    requires qs != [] && NonEmpty(qs) && Cuts(pieces, qs) && StartTokens(InOrder(pieces), ts)
    ensures FitsNext(qs, ts)
    decreases |qs| - 1, |qs[0]|
  {
    var q := qs[0];
    assert q != [] && pieces[0] != [];
    var p, rest := pieces[0][0], pieces[0][1..];
    assert InOrder(pieces) == [p] + (rest + InOrder(pieces[1..]));
    SplitPiece(p, rest, q);
    StartsSplit(p, rest + InOrder(pieces[1..]), ts);
    CutGivesFit(q[1..], qs[1..], ts[0][1..], ts[1..], p[1..], rest, pieces[1..]);
  }

  lemma SplitPiece(p: Bytes, rest: seq<Bytes>, q: Bytes)
    requires p != [] && Flatten([p] + rest) == q
    ensures q != [] && q[0] == p[0] && q[1..] == p[1..] + Flatten(rest)
  {
    assert ([p] + rest)[1..] == rest;
  }

  lemma StartsSplit(p: Bytes, ps: seq<Bytes>, ts: seq<Bytes>)
    requires p != [] && StartTokens([p] + ps, ts)
    ensures ts != [] && p <= ts[0] && ts[0] != [] && ts[0][0] == p[0] && p[1..] <= ts[0][1..]
      && StartTokens(ps, ts[1..])
  {
    assert ([p] + ps)[0] == p && p <= ts[0];
    forall i | 0 <= i < |ps| ensures ps[i] <= ts[1..][i] {
      assert ([p] + ps)[i + 1] == ps[i];
    }
  }

  // ---------------------------------------------------------------- patterns and fits

  /** MatchesFront, piece by piece. */
  ghost predicate Front(res: seq<Re>, s: Bytes)
    decreases |res|
  {
    res == [] || exists k :: 0 <= k <= |s| && Accepts(res[0], s[..k]) && Front(res[1..], s[k..])
  }

  lemma {:induction false} FrontIsMatch(res: seq<Re>, s: Bytes)
    ensures MatchesFront(res, s) <==> Front(res, s)
    decreases |res|
  {
    hide Accepts;
    if res == [] {
      assert AcceptsAll(res, s[..0]);
    } else {
      if MatchesFront(res, s) {
        var n :| 0 <= n <= |s| && AcceptsAll(res, s[..n]);
        var k :| 0 <= k <= n && Accepts(res[0], s[..n][..k]) && AcceptsAll(res[1..], s[..n][k..]);
        assert s[..n][..k] == s[..k] && s[..n][k..] == s[k..][..n - k];
        FrontIsMatch(res[1..], s[k..]);
      }
      if Front(res, s) {
        var k :| 0 <= k <= |s| && Accepts(res[0], s[..k]) && Front(res[1..], s[k..]);
        FrontIsMatch(res[1..], s[k..]);
        var m :| 0 <= m <= |s[k..]| && AcceptsAll(res[1..], s[k..][..m]);
        assert s[..k + m][..k] == s[..k] && s[..k + m][k..] == s[k..][..m];
        assert AcceptsAll(res, s[..k + m]);
      }
    }
  }

  lemma LitStep(c: Byte, rest: seq<Re>, s: Bytes)
    ensures Front([Lit(c)] + rest, s) <==> s != [] && s[0] == c && Front(rest, s[1..])
  {
    var res := [Lit(c)] + rest;
    assert res[1..] == rest;
    if Front(res, s) {
      var k :| 0 <= k <= |s| && Accepts(res[0], s[..k]) && Front(res[1..], s[k..]);
      assert |s[..k]| == 1 && s[..k][0] == c;
    }
    if s != [] && s[0] == c && Front(rest, s[1..]) {
      assert s[..1] == [c];
      assert Accepts(res[0], s[..1]);
    }
  }

  lemma GapStep(rest: seq<Re>, s: Bytes)
    ensures Front(GAP + rest, s) <==> exists j :: 0 <= j < |s| && AllAlnum(s[..j]) && s[j] == SPACE && Front(rest, s[j + 1..])
  {
    var res, tail := GAP + rest, [Lit(SPACE)] + rest;
    assert res[0] == AlnumStar && res[1..] == tail;
    if Front(res, s) {
      var k :| 0 <= k <= |s| && Accepts(res[0], s[..k]) && Front(res[1..], s[k..]);
      LitStep(SPACE, rest, s[k..]);
      assert s[k..][1..] == s[k + 1..] && s[k] == s[k..][0];
    }
    if j :| 0 <= j < |s| && AllAlnum(s[..j]) && s[j] == SPACE && Front(rest, s[j + 1..]) {
      assert s[j..][1..] == s[j + 1..] && s[j] == s[j..][0];
      LitStep(SPACE, rest, s[j..]);
      assert Accepts(res[0], s[..j]);
    }
  }

  lemma GapWordEnds(w: Bytes)
    requires AcceptsAll(GAP, w)
    ensures w != [] && AllAlnum(w[..|w| - 1]) && w[|w| - 1] == SPACE
  {
    assert GAP[1..] == [Lit(SPACE)] && GAP[1..][1..] == [];
    var k :| 0 <= k <= |w| && Accepts(GAP[0], w[..k]) && AcceptsAll(GAP[1..], w[k..]);
    SpaceWord(w[k..]);
    assert w == w[..k] + [SPACE];
  }

  lemma SpaceWord(v: Bytes)
    ensures AcceptsAll([Lit(SPACE)], v) <==> v == [SPACE]
  {
    var res := [Lit(SPACE)];
    assert res[1..] == [];
    if AcceptsAll(res, v) {
      var m :| 0 <= m <= |v| && Accepts(res[0], v[..m]) && AcceptsAll(res[1..], v[m..]);
      assert v == v[..m] + v[m..];
    }
    if v == [SPACE] {
      assert v[..1] == [SPACE] && v[1..] == [];
      assert Accepts(res[0], v[..1]);
    }
  }

  lemma GapWordIs(w: Bytes)
    requires w != [] && AllAlnum(w[..|w| - 1]) && w[|w| - 1] == SPACE
    ensures AcceptsAll(GAP, w)
  {
    var k := |w| - 1;
    assert GAP[1..] == [Lit(SPACE)];
    assert w[k..] == [SPACE];
    SpaceWord(w[k..]);
    assert Accepts(GAP[0], w[..k]);
  }

  lemma OptIsTaken(rest: seq<Re>, s: Bytes)
    requires Front([Opt(GAP)] + rest, s)
    ensures Front(rest, s) || Front(GAP + rest, s)
  {
    hide AllAlnum, AcceptsAll;
    var res := [Opt(GAP)] + rest;
    assert res[0] == Opt(GAP) && res[1..] == rest;
    var k :| 0 <= k <= |s| && Accepts(res[0], s[..k]) && Front(res[1..], s[k..]);
    if s[..k] == [] {
      assert s[k..] == s;
    } else {
      GapWordEnds(s[..k]);
      assert s[..k][..k - 1] == s[..k - 1];
      GapStep(rest, s);
      assert Front(rest, s[(k - 1) + 1..]);
    }
  }

  lemma OptIsSkipped(rest: seq<Re>, s: Bytes)
    requires Front(rest, s)
    ensures Front([Opt(GAP)] + rest, s)
  {
    hide AllAlnum, AcceptsAll;
    var res := [Opt(GAP)] + rest;
    assert res[1..] == rest && s[0..] == s && s[..0] == [];
    assert Accepts(res[0], s[..0]);
  }

  lemma GapIsOptional(rest: seq<Re>, s: Bytes)
    requires Front(GAP + rest, s)
    ensures Front([Opt(GAP)] + rest, s)
  {
    hide AllAlnum, AcceptsAll;
    GapStep(rest, s);
    var j :| 0 <= j < |s| && AllAlnum(s[..j]) && s[j] == SPACE && Front(rest, s[j + 1..]);
    var res, w := [Opt(GAP)] + rest, s[..j + 1];
    assert res[0] == Opt(GAP) && res[1..] == rest && w[..j] == s[..j];
    GapWordIs(w);
    assert Accepts(res[0], w);
  }

  lemma OptStep(rest: seq<Re>, s: Bytes)
    ensures Front([Opt(GAP)] + rest, s) <==> Front(rest, s) || Front(GAP + rest, s)
  {
    hide Front;
    if Front([Opt(GAP)] + rest, s) { OptIsTaken(rest, s); }
    if Front(rest, s) { OptIsSkipped(rest, s); }
    if Front(GAP + rest, s) { GapIsOptional(rest, s); }
  }

  /** Only the end of the current symbol token is followed by a space. */
  lemma SpaceEndsToken(t: Bytes, ts: seq<Bytes>, j: nat)
    requires AllAlnum(t) && j < |t + Spaced(ts)| && AllAlnum((t + Spaced(ts))[..j]) && (t + Spaced(ts))[j] == SPACE
    ensures j == |t| && ts != []
  {
    var s := t + Spaced(ts);
    assert j < |t| ==> s[j] == t[j] && IsAlnum(s[j]);
    assert |t| < j ==> s[..j][|t|] == s[|t|] && IsAlnum(s[|t|]);
    assert ts != [] ==> s[|t|] == SPACE;
  }

  lemma GapAt(rest: seq<Re>, t: Bytes, ts: seq<Bytes>)
    requires AllAlnum(t)
    ensures Front(GAP + rest, t + Spaced(ts)) <==> ts != [] && Front(rest, ts[0] + Spaced(ts[1..]))
  {
    hide Front;
    var s := t + Spaced(ts);
    GapStep(rest, s);
    if j :| 0 <= j < |s| && AllAlnum(s[..j]) && s[j] == SPACE && Front(rest, s[j + 1..]) {
      SpaceEndsToken(t, ts, j);
      assert s[j + 1..] == ts[0] + Spaced(ts[1..]);
    }
    if ts != [] && Front(rest, ts[0] + Spaced(ts[1..])) {
      assert s[..|t|] == t && s[|t|] == SPACE && s[|t| + 1..] == ts[0] + Spaced(ts[1..]);
    }
  }

  lemma TokenIsAlnum(t: Bytes)
    requires IsToken(t)
    ensures t != [] && AllAlnum(t) && AllAlnum(t[1..])
  {
  }

  /** A literal letter or digit at the start of a symbol token, or of what is left of one. */
  lemma LetterAt(c: Byte, rest: seq<Re>, t: Bytes, ts: seq<Bytes>)
    requires IsAlnum(c)
    ensures Front([Lit(c)] + rest, t + Spaced(ts)) <==> t != [] && t[0] == c && Front(rest, t[1..] + Spaced(ts))
  {
    hide Front;
    var s := t + Spaced(ts);
    LitStep(c, rest, s);
    if t != [] {
      assert s[1..] == t[1..] + Spaced(ts);
    } else if ts != [] {
      assert s[0] == SPACE;
    }
  }

  lemma PatternsRegroup(q: Bytes, later: seq<Re>)
    ensures q == [] ==> MorePattern(q) + later == later
    ensures q != [] ==> MorePattern(q) + later == [Opt(GAP)] + ([Lit(q[0])] + (MorePattern(q[1..]) + later))
    ensures q != [] ==> TokenPattern(q) + later == [Lit(q[0])] + (MorePattern(q[1..]) + later)
  {
    if q == [] {
      assert [] + later == later;
    } else {
      var rest := MorePattern(q[1..]);
      assert MorePattern(q) == [Opt(GAP), Lit(q[0])] + rest;
      hide MorePattern;
      assert [Opt(GAP), Lit(q[0])] == [Opt(GAP)] + [Lit(q[0])];
      Reassociated([Opt(GAP), Lit(q[0])], rest, later);
      Reassociated([Opt(GAP)], [Lit(q[0])], rest + later);
      Reassociated([Lit(q[0])], rest, later);
    }
  }

  lemma {:induction false} PatternIsFit(q: Bytes, qs: seq<Bytes>, t: Bytes, ts: seq<Bytes>)
    requires AllAlnum(q) && AreTokens(qs) && AllAlnum(t) && AreTokens(ts)
    ensures Front(MorePattern(q) + LaterPattern(qs), t + Spaced(ts)) <==> Fits(q, qs, t, ts)
    decreases |qs|, |q|
  {
    hide Front, MorePattern, TokenPattern, IsToken, AllAlnum, Spaced;
    var later := LaterPattern(qs);
    PatternsRegroup(q, later);
    if q == [] {
      if qs == [] {
        EmptyPatternMatches(t + Spaced(ts));
      } else {
        GapAt(TokenPattern(qs[0]) + LaterPattern(qs[1..]), t, ts);
        if ts != [] { NextPatternIsFit(qs, ts); }
      }
    } else {
      var rest := MorePattern(q[1..]) + later;
      FirstIsAlnum(q);
      OptStep([Lit(q[0])] + rest, t + Spaced(ts));
      GapAt([Lit(q[0])] + rest, t, ts);
      LetterAt(q[0], rest, t, ts);
      if t != [] {
        FirstIsAlnum(t);
        PatternIsFit(q[1..], qs, t[1..], ts);
      }
      if ts != [] {
        TokenIsAlnum(ts[0]);
        LetterAt(q[0], rest, ts[0], ts[1..]);
        PatternIsFit(q[1..], qs, ts[0][1..], ts[1..]);
      }
    }
  }

  lemma FirstIsAlnum(q: Bytes)
    requires q != [] && AllAlnum(q)
    ensures IsAlnum(q[0]) && AllAlnum(q[1..])
  {
  }

  lemma EmptyPatternMatches(s: Bytes)
    ensures Front([], s)
  {
  }

  lemma {:induction false} NextPatternIsFit(qs: seq<Bytes>, ts: seq<Bytes>)
    requires qs != [] && AreTokens(qs) && ts != [] && AreTokens(ts)
    ensures Front(TokenPattern(qs[0]) + LaterPattern(qs[1..]), ts[0] + Spaced(ts[1..])) <==> FitsNext(qs, ts)
    decreases |qs| - 1, |qs[0]|
  {
    hide Front, MorePattern, TokenPattern, LaterPattern, IsToken, AllAlnum, Spaced;
    var q, later := qs[0], LaterPattern(qs[1..]);
    TokenIsAlnum(q);
    TokenIsAlnum(ts[0]);
    FirstIsAlnum(q);
    PatternsRegroup(q, later);
    LetterAt(q[0], MorePattern(q[1..]) + later, ts[0], ts[1..]);
    PatternIsFit(q[1..], qs[1..], ts[0][1..], ts[1..]);
  }

  lemma TokensAreNonEmpty(ts: seq<Bytes>)
    requires AreTokens(ts)
    ensures NonEmpty(ts)
  {
    forall i | 0 <= i < |ts| ensures ts[i] != [] { assert IsToken(ts[i]); }
  }

  lemma FindsIsFit(qs: seq<Bytes>, ts: seq<Bytes>)
    requires qs != [] && NonEmpty(qs)
    ensures Finds(qs, ts) <==> FitsNext(qs, ts)
  {
    hide FitsNext, StartTokens;
    if Finds(qs, ts) {
      var pieces :| Cuts(pieces, qs) && StartTokens(InOrder(pieces), ts);
      CutGivesFitNext(qs, ts, pieces);
    }
    if FitsNext(qs, ts) {
      var pieces := FitGivesCutNext(qs, ts);
    }
  }

  /** The anchored regular expression of a query matches a joined symbol exactly when the query tokens can be cut into
      non-empty prefixes of consecutive symbol tokens, from the first, using each once. */
  lemma RegexpMeansPrefixes(qs: seq<Bytes>, ts: seq<Bytes>)
    requires AreTokens(qs) && AreTokens(ts)
    ensures MatchesFront(QueryPattern(qs), Join(ts)) <==> Finds(qs, ts)
  {
    FrontIsMatch(QueryPattern(qs), Join(ts));
    TokensAreNonEmpty(qs);
    if qs == [] {
      EmptyPatternMatches(Join(ts));
      assert Cuts([], qs) && StartTokens(InOrder([]), ts);
    } else {
      FindsIsFit(qs, ts);
      if ts == [] {
        assert IsToken(qs[0]);
        PatternsRegroup(qs[0], LaterPattern(qs[1..]));
        LitStep(qs[0][0], MorePattern(qs[0][1..]) + LaterPattern(qs[1..]), []);
      } else {
        NextPatternIsFit(qs, ts);
      }
    }
  }

  // ---------------------------------------------------------------- the index

  /** `symbol` stands for the symbol and its signals. */
  datatype Entry = Entry(joined: Bytes, name: Bytes, symbol: nat)

  /** What a search should return of the symbols: those whose tokens the query finds, in order. */
  ghost function Found(entries: seq<Entry>, query: Bytes): seq<nat> {
    if entries == [] then []
    else (if Finds(Tokens(query), Tokens(entries[0].name)) then [entries[0].symbol] else []) + Found(entries[1..], query)
  }

  class MemSymbolIndex {
    var symbols: seq<Entry>

    ghost predicate Valid()
      reads this
    {
      forall i :: 0 <= i < |symbols| ==> symbols[i].joined == Join(Tokens(symbols[i].name))
    }

    constructor (names: seq<(Bytes, nat)>)
      ensures Valid() && |symbols| == |names|
      ensures forall i :: 0 <= i < |names| ==> symbols[i].name == names[i].0 && symbols[i].symbol == names[i].1
    {
      symbols := [];
      new;
      var i := 0;
      while i < |names|
        invariant i == |symbols| <= |names| && Valid()
        invariant forall k :: 0 <= k < i ==> symbols[k].name == names[k].0 && symbols[k].symbol == names[k].1
      {
        var tokens := Tokenize(names[i].0);
        symbols := symbols + [Entry(Join(tokens), names[i].0, names[i].1)];
        i := i + 1;
      }
    }

    /** Compiles the written pattern and tries it on every symbol. */
    method Search(query: Bytes) returns (results: seq<nat>)
      requires Valid()
      ensures results == Found(symbols, query)
    {
      hide Join, Tokens, Finds, MatchesFront, QueryPattern, RegexMatches;
      var tokens := Tokenize(query);
      var regexp := QueryRegexp(tokens);
      var pattern := [0x5E] + regexp;
      TokensAreTokens(query);
      QueryPatternIsPlain(tokens);
      results := [];
      var i := 0;
      while i < |symbols|
        invariant i <= |symbols| && results + Found(symbols[i..], query) == Found(symbols, query)
      {
        ghost var before := results;
        TokensAreTokens(symbols[i].name);
        WrittenPatternMatches(QueryPattern(tokens), symbols[i].joined);
        RegexpMeansPrefixes(tokens, Tokens(symbols[i].name));
        if RegexMatches(pattern, symbols[i].joined) { results := results + [symbols[i].symbol]; }
        FoundNext(symbols, i, query, before);
        i := i + 1;
      }
      assert symbols[i..] == [];
      assert results + [] == results;
    }
  }

  lemma FoundNext(entries: seq<Entry>, i: nat, query: Bytes, before: seq<nat>)
    requires i < |entries|
    ensures (if Finds(Tokens(query), Tokens(entries[i].name)) then before + [entries[i].symbol] else before) + Found(entries[i + 1..], query)
         == before + Found(entries[i..], query)
  {
    hide Finds, Tokens;
    assert entries[i..][1..] == entries[i + 1..];
  }

  lemma {:induction false} WholeTokensAreCuts(ts: seq<Bytes>)
    requires NonEmpty(ts)
    ensures var pieces := seq(|ts|, i requires 0 <= i < |ts| => [ts[i]]); Cuts(pieces, ts) && InOrder(pieces) == ts
  {
    var pieces := seq(|ts|, i requires 0 <= i < |ts| => [ts[i]]);
    if ts != [] {
      WholeTokensAreCuts(ts[1..]);
      var rest := seq(|ts[1..]|, i requires 0 <= i < |ts[1..]| => [ts[1..][i]]);
      assert pieces[1..] == rest && pieces[0] == [ts[0]];
      assert InOrder(pieces) == [ts[0]] + ts[1..];
    }
    forall i | 0 <= i < |ts| ensures Flatten(pieces[i]) == ts[i] && NonEmpty(pieces[i]) {
      assert pieces[i] == [ts[i]] && pieces[i][1..] == [];
    }
  }

  /** A symbol is found by its own name. */
  lemma OwnNameFinds(name: Bytes)
    ensures Finds(Tokens(name), Tokens(name))
    ensures MatchesFront(QueryPattern(Tokens(name)), Join(Tokens(name)))
  {
    var ts := Tokens(name);
    TokensAreTokens(name);
    TokensAreNonEmpty(ts);
    WholeTokensAreCuts(ts);
    RegexpMeansPrefixes(ts, ts);
    var pieces := seq(|ts|, i requires 0 <= i < |ts| => [ts[i]]);
    assert Cuts(pieces, ts) && StartTokens(InOrder(pieces), ts);
  }
}
