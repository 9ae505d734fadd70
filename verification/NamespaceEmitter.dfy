/** The namespaces that are opened and closed around moved declarations. */
module NamespaceEmitter {
  import opened Options
  import opened ByteText

  /** A declaration and the namespaces it is in, the outermost first. */
  datatype Moved = Moved(namespaces: seq<Bytes>, decl: nat)

  /** What is written, piece by piece. */
  datatype Piece = Open(name: Bytes) | Close(name: Bytes) | Blank | Text(decl: nat)

  /** Reads the pieces as a compiler would: every closing piece names the namespace it closes, and every declaration is
      in the namespaces open around it. None if the pieces do not nest. */
  function Read(pieces: seq<Piece>, around: seq<Bytes>): Option<(seq<Moved>, seq<Bytes>)>
    decreases |pieces|
  {
    if pieces == [] then Some(([], around))
    else
      match pieces[0]
      case Open(name) => Read(pieces[1..], around + [name])
      case Close(name) =>
        if around == [] || around[|around| - 1] != name then None else Read(pieces[1..], around[..|around| - 1])
      case Blank => Read(pieces[1..], around)
      case Text(decl) =>
        match Read(pieces[1..], around)
        case None => None
        case Some((decls, left)) => Some(([Moved(around, decl)] + decls, left))
  }

  lemma {:induction false} ReadingContinues(pieces: seq<Piece>, more: seq<Piece>, around: seq<Bytes>)
    requires Read(pieces, around).Some?
    requires Read(more, Read(pieces, around).value.1).Some?
    ensures var first := Read(pieces, around).value;
      var second := Read(more, first.1).value;
      Read(pieces + more, around) == Some((first.0 + second.0, second.1))
    decreases |pieces|
  {
    if pieces == [] {
      assert pieces + more == more;
      assert [] + Read(more, around).value.0 == Read(more, around).value.0;
    } else {
      assert (pieces + more)[1..] == pieces[1..] + more;
      match pieces[0]
      case Open(name) => ReadingContinues(pieces[1..], more, around + [name]);
      case Close(_) => ReadingContinues(pieces[1..], more, around[..|around| - 1]);
      case Blank => ReadingContinues(pieces[1..], more, around);
      case Text(decl) =>
        ReadingContinues(pieces[1..], more, around);
        var rest := Read(pieces[1..], around).value.0;
        var second := Read(more, Read(pieces, around).value.1).value.0;
        assert [Moved(around, decl)] + rest + second == [Moved(around, decl)] + (rest + second);
    }
  }

  /** One more piece. */
  lemma OneMore(pieces: seq<Piece>, piece: Piece, decls: seq<Moved>, around: seq<Bytes>)
    requires Read(pieces, []) == Some((decls, around)) && (piece.Close? ==> around != [] && around[|around| - 1] == piece.name)
    ensures Read(pieces + [piece], []) ==
      match piece
      case Open(name) => Some((decls, around + [name]))
      case Close(_) => Some((decls, around[..|around| - 1]))
      case Blank => Some((decls, around))
      case Text(decl) => Some((decls + [Moved(around, decl)], around))
  {
    assert [piece][1..] == [];
    assert piece.Text? ==> [Moved(around, piece.decl)] + [] == [Moved(around, piece.decl)];
    assert Read([], if piece.Open? then around + [piece.name] else around).Some?;
    ReadingContinues(pieces, [piece], []);
    assert decls + [] == decls;
  }

  /** Length of the common beginning. */
  method CommonPrefix(a: seq<Bytes>, b: seq<Bytes>) returns (n: nat)
    ensures n <= |a| && n <= |b| && a[..n] == b[..n]
    ensures n < |a| && n < |b| ==> a[n] != b[n]
  {
    n := 0;
    while n < |a| && n < |b| && a[n] == b[n]
      invariant n <= |a| && n <= |b| && a[..n] == b[..n]
    {
      n := n + 1;
    }
  }

  // ---------------------------------------------------------------- from one declaration to the next

  /** The closing pieces of namespaces, the innermost first. */
  function Closers(names: seq<Bytes>): seq<Piece> {
    if names == [] then [] else [Close(names[|names| - 1])] + Closers(names[..|names| - 1])
  }

  function Openers(names: seq<Bytes>): seq<Piece> {
    if names == [] then [] else [Open(names[0])] + Openers(names[1..])
  }

  function Common(a: seq<Bytes>, b: seq<Bytes>): (n: nat)
    ensures n <= |a| && n <= |b| && a[..n] == b[..n]
    ensures n < |a| && n < |b| ==> a[n] != b[n]
  {
    if a == [] || b == [] || a[0] != b[0] then 0
    else
      assert a == [a[0]] + a[1..] && b == [b[0]] + b[1..];
      1 + Common(a[1..], b[1..])
  }

  /** What is written between a declaration in `current` and one in `wanted`. */
  function Between(current: seq<Bytes>, wanted: seq<Bytes>): seq<Piece> {
    var n := Common(current, wanted);
    Closers(current[n..]) + ((if n < |current| then [Blank] else [])
      + (Openers(wanted[n..]) + (if n == |wanted| then [Blank] else [])))
  }

  function Written(moved: seq<Moved>, current: seq<Bytes>): seq<Piece> {
    if moved == [] then Closers(current)
    else Between(current, moved[0].namespaces) + ([Text(moved[0].decl)] + Written(moved[1..], moved[0].namespaces))
  }

  lemma {:induction false} CommonOfJoined(c: seq<Bytes>, a: seq<Bytes>, b: seq<Bytes>)
    requires a == [] || b == [] || a[0] != b[0]
    ensures Common(c + a, c + b) == |c|
  {
    if c == [] {
      assert c + a == a && c + b == b;
    } else {
      assert (c + a)[1..] == c[1..] + a && (c + b)[1..] == c[1..] + b;
      CommonOfJoined(c[1..], a, b);
    }
  }

  /** Declarations in one namespace are grouped: only a blank line separates them. Otherwise no
      namespace that both are in is closed, an empty line follows closing pieces, and another one
      comes before a declaration for which nothing is opened. */
  lemma TransitionsAreShort(c: seq<Bytes>, a: seq<Bytes>, b: seq<Bytes>)
    requires a == [] || b == [] || a[0] != b[0]
    ensures Between(c, c) == [Blank]
    ensures b != [] ==> Between(c, c + b) == Openers(b)
    ensures a != [] ==> Between(c + a, c) == Closers(a) + [Blank, Blank]
    ensures a != [] && b != [] ==> Between(c + a, c + b) == Closers(a) + ([Blank] + Openers(b))
  {
    CommonOfJoined(c, [], []);
    CommonOfJoined(c, a, b);
    CommonOfJoined(c, [], b);
    CommonOfJoined(c, a, []);
    assert c + [] == c && (c + a)[|c|..] == a && (c + b)[|c|..] == b && c[|c|..] == [];
    assert [] + ([] + (Openers(b) + [])) == Openers(b);
    assert Closers(a) + ([Blank] + ([] + [Blank])) == Closers(a) + [Blank, Blank];
    assert [] + ([] + ([] + [Blank])) == [Blank];
    assert Openers(b) + [] == Openers(b);
  }

  /** Closes namespaces from the innermost, down to the first n. */
  method CloseTo(code: seq<Piece>, current: seq<Bytes>, n: nat, ghost decls: seq<Moved>) returns (r: seq<Piece>)
    requires n <= |current| && Read(code, []) == Some((decls, current))
    ensures Read(r, []) == Some((decls, current[..n]))
    ensures r == code + Closers(current[n..])
  {
    r := code;
    var k := |current|;
    assert current[..k] == current;
    while k > n
      invariant n <= k <= |current| && Read(r, []) == Some((decls, current[..k]))
      invariant r + Closers(current[n..k]) == code + Closers(current[n..])
    {
      OneMore(r, Close(current[k - 1]), decls, current[..k]);
      assert current[..k][..k - 1] == current[..k - 1];
      assert current[n..k][..k - 1 - n] == current[n..k - 1];
      r := r + [Close(current[k - 1])];
      k := k - 1;
    }
    assert r + [] == r;
  }

  /** Opens namespaces from the n-th on. */
  method OpenFrom(code: seq<Piece>, wanted: seq<Bytes>, n: nat, ghost decls: seq<Moved>) returns (r: seq<Piece>)
    requires n <= |wanted| && Read(code, []) == Some((decls, wanted[..n]))
    ensures Read(r, []) == Some((decls, wanted))
    ensures r == code + Openers(wanted[n..])
  {
    r := code;
    var k := n;
    while k < |wanted|
      invariant n <= k <= |wanted| && Read(r, []) == Some((decls, wanted[..k]))
      invariant r + Openers(wanted[k..]) == code + Openers(wanted[n..])
    {
      OneMore(r, Open(wanted[k]), decls, wanted[..k]);
      assert wanted[..k] + [wanted[k]] == wanted[..k + 1];
      assert wanted[k..][1..] == wanted[k + 1..];
      r := r + [Open(wanted[k])];
      k := k + 1;
    }
    assert wanted[..k] == wanted && wanted[k..] == [] && r + [] == r;
  }

  lemma {:induction false} CommonIs(a: seq<Bytes>, b: seq<Bytes>, n: nat)
    requires n <= |a| && n <= |b| && a[..n] == b[..n] && (n < |a| && n < |b| ==> a[n] != b[n])
    ensures Common(a, b) == n
    decreases n
  {
    if n > 0 {
      assert a[..n][0] == b[..n][0] && a[1..][..n - 1] == a[..n][1..] && b[1..][..n - 1] == b[..n][1..];
      CommonIs(a[1..], b[1..], n - 1);
    }
  }

  lemma TurnIsWritten(done: seq<Piece>, between: seq<Piece>, text: Piece, rest: seq<Piece>)
    ensures done + between + [text] + rest == done + (between + ([text] + rest))
  {
    Reassociated(done + between, [text], rest);
    Reassociated(done, between, [text] + rest);
  }

  lemma BetweenInTurn(code: seq<Piece>, a: seq<Piece>, b: seq<Piece>, c: seq<Piece>, d: seq<Piece>)
    ensures code + a + b + c + d == code + (a + (b + (c + d)))
  {
    Reassociated(code + a + b, c, d);
    Reassociated(code + a, b, c + d);
    Reassociated(code, a, b + (c + d));
  }

  /** Up to the place of the next declaration. */
  method MoveTo(code: seq<Piece>, current: seq<Bytes>, wanted: seq<Bytes>, ghost decls: seq<Moved>) returns (r: seq<Piece>)
    requires Read(code, []) == Some((decls, current))
    ensures Read(r, []) == Some((decls, wanted)) && r == code + Between(current, wanted)
  {
    hide Closers, Openers;
    var n := CommonPrefix(current, wanted);
    CommonIs(current, wanted, n);
    r := CloseTo(code, current, n, decls);
    ghost var blank, last: seq<Piece> := if n < |current| then [Blank] else [], if n == |wanted| then [Blank] else [];
    if n < |current| {
      OneMore(r, Blank, decls, current[..n]);
      r := r + [Blank];
    }
    assert r == code + Closers(current[n..]) + blank;
    r := OpenFrom(r, wanted, n, decls);
    if n == |wanted| {
      OneMore(r, Blank, decls, wanted);
      r := r + [Blank];
    }
    assert r == code + Closers(current[n..]) + blank + Openers(wanted[n..]) + last;
    BetweenInTurn(code, Closers(current[n..]), blank, Openers(wanted[n..]), last);
  }

  /** The pieces nest, every declaration comes out in its own namespaces, in order, and nothing is left open. */
  method CreateInsertedReplacements(moved: seq<Moved>) returns (code: seq<Piece>)
    ensures Read(code, []) == Some((moved, []))
    ensures code == Written(moved, [])
  {
    hide Between, Closers;
    code := [];
    var current: seq<Bytes> := [];
    var i := 0;
    assert moved[0..] == moved;
    while i < |moved|
      invariant i <= |moved| && Read(code, []) == Some((moved[..i], current))
      invariant code + Written(moved[i..], current) == Written(moved, [])
    {
      ghost var done, before := moved[..i], code;
      var wanted := moved[i].namespaces;
      code := MoveTo(code, current, wanted, done);
      OneMore(code, Text(moved[i].decl), done, wanted);
      assert moved[..i] + [moved[i]] == moved[..i + 1];
      assert moved[i..][0] == moved[i] && moved[i..][1..] == moved[i + 1..];
      TurnIsWritten(before, Between(current, wanted), Text(moved[i].decl), Written(moved[i + 1..], wanted));
      code := code + [Text(moved[i].decl)];
      current := wanted;
      i := i + 1;
    }
    assert moved[..i] == moved && moved[i..] == [];
    code := CloseTo(code, current, 0, moved);
    assert current[0..] == current;
  }
}
