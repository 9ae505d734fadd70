/** Words annotated with brackets around their matched stretches. */
module AnnotatedWords {
  import opened Options
  import opened ByteText
  import opened AlignmentTable

  datatype Piece = Open | Close | Letter(c: Byte)

  function Written(p: Piece): Bytes {
    match p { case Open => [91] case Close => [93] case Letter(c) => [c] }
  }

  function Render(ps: seq<Piece>): Bytes {
    if ps == [] then [] else Render(ps[..|ps| - 1]) + Written(ps[|ps| - 1])
  }

  lemma {:induction false} RenderOfSum(p: seq<Piece>, q: seq<Piece>)
    ensures Render(p + q) == Render(p) + Render(q)
  {
    if q == [] {
      assert p + q == p;
    } else {
      hide Written;
      var n := |q| - 1;
      RenderOfSum(p, q[..n]);
      assert (p + q)[..|p + q| - 1] == p + q[..n];
      Reassociated(Render(p), Render(q[..n]), Written(q[n]));
    }
  }

  lemma RenderParts(p: seq<Piece>, q: seq<Piece>, r: seq<Piece>)
    ensures Render(p + q + r) == Render(p) + Render(q) + Render(r)
  {
    RenderOfSum(p + q, r);
    RenderOfSum(p, q);
  }

  /** The bracket, if any, in front of the last letter. */
  function Marker(a: seq<bool>): seq<Piece>
    requires a != []
  {
    var n := |a| - 1;
    if a[n] && (n == 0 || !a[n - 1]) then [Open]
    else if !a[n] && n > 0 && a[n - 1] then [Close]
    else []
  }

  function Pieces(word: Bytes, a: seq<bool>): seq<Piece>
    requires |a| == |word|
  {
    if word == [] then []
    else
      var n := |word| - 1;
      Pieces(word[..n], a[..n]) + Marker(a) + [Letter(word[n])]
  }

  function Bracketed(word: Bytes, a: seq<bool>): seq<Piece>
    requires |a| == |word|
  {
    Pieces(word, a) + if LastAction(a) then [Close] else []
  }

  function Letters(ps: seq<Piece>): Bytes {
    if ps == [] then []
    else Letters(ps[..|ps| - 1]) + if ps[|ps| - 1].Letter? then [ps[|ps| - 1].c] else []
  }

  /** Reads an annotated word: each letter with whether it is inside brackets; None if the brackets
      do not alternate. The boolean says whether a bracket is open at the end. */
  function ReadBrackets(ps: seq<Piece>): Option<(seq<bool>, bool)> {
    if ps == [] then Some(([], false))
    else match (ReadBrackets(ps[..|ps| - 1]), ps[|ps| - 1])
      case (Some((inside, open)), Open) => if open then None else Some((inside, true))
      case (Some((inside, open)), Close) => if open then Some((inside, false)) else None
      case (Some((inside, open)), Letter(_)) => Some((inside + [open], open))
      case (None, _) => None
  }

  lemma AppendPiece(ps: seq<Piece>, p: Piece)
    ensures (ps + [p])[..|ps + [p]| - 1] == ps
  {
  }

  lemma PiecesGrow(word: Bytes, a: seq<bool>, i: nat)
    requires i < |a| == |word|
    ensures Pieces(word[..i + 1], a[..i + 1]) == Pieces(word[..i], a[..i]) + Marker(a[..i + 1]) + [Letter(word[i])]
  {
    assert word[..i + 1][..i] == word[..i] && a[..i + 1][..i] == a[..i];
  }

  lemma RenderOne(p: Piece)
    ensures Render([p]) == match p { case Open => [91] case Close => [93] case Letter(c) => [c] }
    ensures Render([]) == []
  {
    assert [p][..0] == [];
  }

  method Annotate(word: Bytes, a: seq<bool>) returns (result: Bytes)
    requires |a| == |word| > 0
    ensures result == Render(Bracketed(word, a))
  {
    hide Render, Pieces;
    RenderOne(Open);
    RenderOne(Close);
    assert Pieces([], []) == [] by { PiecesOfNothing(); }
    result := [];
    for i := 0 to |word|
      invariant result == Render(Pieces(word[..i], a[..i]))
    {
      PiecesGrow(word, a, i);
      RenderParts(Pieces(word[..i], a[..i]), Marker(a[..i + 1]), [Letter(word[i])]);
      RenderOne(Letter(word[i]));
      if a[i] && (i == 0 || !a[i - 1]) {
        result := result + [91];
      }
      if !a[i] && i > 0 && a[i - 1] {
        result := result + [93];
      }
      result := result + [word[i]];
    }
    assert word[..|word|] == word && a[..|word|] == a;
    RenderOfSum(Pieces(word, a), if LastAction(a) then [Close] else []);
    if a[|word| - 1] {
      result := result + [93];
    }
  }

  lemma PiecesOfNothing()
    ensures Pieces([], []) == [] && Render([]) == []
  {
  }

  lemma ReadMarker(before: seq<Piece>, a: seq<bool>)
    requires a != [] && ReadBrackets(before) == Some((a[..|a| - 1], LastAction(a[..|a| - 1])))
    ensures ReadBrackets(before + Marker(a)) == Some((a[..|a| - 1], LastAction(a)))
    ensures Letters(before + Marker(a)) == Letters(before)
  {
    if Marker(a) == [] {
      assert before + Marker(a) == before;
    } else {
      AppendPiece(before, Marker(a)[0]);
    }
  }

  lemma ReadLetter(before: seq<Piece>, c: Byte, inside: seq<bool>, open: bool)
    requires ReadBrackets(before) == Some((inside, open))
    ensures ReadBrackets(before + [Letter(c)]) == Some((inside + [open], open))
    ensures Letters(before + [Letter(c)]) == Letters(before) + [c]
  {
    AppendPiece(before, Letter(c));
  }

  lemma SplitLast<T>(s: seq<T>)
    requires s != []
    ensures s[..|s| - 1] + [s[|s| - 1]] == s
  {
  }

  lemma {:induction false} PiecesRead(word: Bytes, a: seq<bool>)
    requires |a| == |word|
    ensures Letters(Pieces(word, a)) == word
    ensures ReadBrackets(Pieces(word, a)) == Some((a, LastAction(a)))
  {
    if word != [] {
      var n := |word| - 1;
      PiecesRead(word[..n], a[..n]);
      PiecesReadOneMore(word, a, Pieces(word[..n], a[..n]));
    }
  }

  lemma PiecesReadOneMore(word: Bytes, a: seq<bool>, before: seq<Piece>)
    requires |a| == |word| > 0 && Letters(before) == word[..|word| - 1]
    requires ReadBrackets(before) == Some((a[..|a| - 1], LastAction(a[..|a| - 1])))
    ensures var ps := before + Marker(a) + [Letter(word[|word| - 1])];
            Letters(ps) == word && ReadBrackets(ps) == Some((a, LastAction(a)))
  {
    hide ReadBrackets, Letters;
    ReadMarker(before, a);
    ReadLetter(before + Marker(a), word[|word| - 1], a[..|a| - 1], LastAction(a));
    SplitLast(a);
    SplitLast(word);
  }

  /** Without the inserted brackets the annotation is the word, and the brackets, which alternate
      and are all closed, enclose exactly the matched letters. */
  lemma BracketsMarkTheMatches(word: Bytes, a: seq<bool>)
    requires |a| == |word|
    ensures Letters(Bracketed(word, a)) == word
    ensures ReadBrackets(Bracketed(word, a)) == Some((a, false))
  {
    PiecesRead(word, a);
    if LastAction(a) {
      AppendPiece(Pieces(word, a), Close);
    } else {
      assert Bracketed(word, a) == Pieces(word, a);
    }
  }
}
