/** Splitting symbol names and queries into tokens. */
module SymbolTokens {
  import opened ByteText

  datatype CharType = Upper | Lower | Digit | Misc

  function Classify(c: Byte): CharType {
    if 0x41 <= c <= 0x5A then Upper
    else if 0x61 <= c <= 0x7A then Lower
    else if 0x30 <= c <= 0x39 then Digit
    else Misc
  }

  predicate All(s: Bytes, t: CharType) { forall i :: 0 <= i < |s| ==> Classify(s[i]) == t }

  function LowerChar(c: Byte): Byte { if Classify(c) == Upper then c + 0x20 else c }

  function Lowered(s: Bytes): (r: Bytes)
    ensures |r| == |s|
    ensures forall i :: 0 <= i < |s| ==> r[i] == LowerChar(s[i])
  {
    if s == [] then [] else [LowerChar(s[0])] + Lowered(s[1..])
  }

  // ---------------------------------------------------------------- what a token is

  /** How many characters of type t come first. */
  function Run(s: Bytes, t: CharType): (n: nat)
    ensures n <= |s| && All(s[..n], t) && (n < |s| ==> Classify(s[n]) != t)
  {
    if s == [] || Classify(s[0]) != t then 0
    else
      assert s == [s[0]] + s[1..];
      1 + Run(s[1..], t)
  }

  /** A capital that a lower-case letter follows belongs to the word of that letter. */
  function TokenLength(s: Bytes): (n: nat)
    requires s != [] && Classify(s[0]) != Misc
    ensures 1 <= n <= |s|
  {
    var t := Classify(s[0]);
    var n := Run(s, t);
    if t == Upper && n < |s| && Classify(s[n]) == Lower then
      if n == 1 then 1 + Run(s[1..], Lower) else n - 1
    else n
  }

  /** The tokens of a text, by looking ahead: the specification of the state machine. */
  function Tokens(s: Bytes): seq<Bytes>
    decreases |s|
  {
    if s == [] then []
    else if Classify(s[0]) == Misc then Tokens(s[1..])
    else [Lowered(s[..TokenLength(s)])] + Tokens(s[TokenLength(s)..])
  }

  // ---------------------------------------------------------------- the state machine

  datatype State = Empty | OneBig | BigWord | SmallWord | Number

  /** What the pending text looks like in each state. */
  predicate Pending(state: State, s: Bytes) {
    match state
    case Empty => All(s, Misc)
    case OneBig => |s| == 1 && All(s, Upper)
    case BigWord => |s| >= 2 && All(s, Upper)
    case SmallWord => s != [] && (All(s, Lower) || (|s| >= 2 && Classify(s[0]) == Upper && All(s[1..], Lower)))
    case Number => s != [] && All(s, Digit)
  }

  /** Whether a character of type t would be added to the pending text. */
  predicate Extends(state: State, t: CharType) {
    match state
    case Empty => t == Misc
    case OneBig => t == Upper || t == Lower
    case BigWord => t == Upper || t == Lower
    case SmallWord => t == Lower
    case Number => t == Digit
  }

  lemma {:induction false} RunIs(s: Bytes, n: nat, t: CharType)
    requires n <= |s| && All(s[..n], t) && (n < |s| ==> Classify(s[n]) != t)
    ensures Run(s, t) == n
  {
    if n > 0 {
      assert Classify(s[..n][0]) == t;
      assert s[1..][..n - 1] == s[..n][1..];
      RunIs(s[1..], n - 1, t);
    }
  }

  /** What is pending in a state is the next token when the text does not extend it. */
  lemma PendingIsToken(state: State, s: Bytes, n: nat)
    requires n <= |s| && state != Empty && Pending(state, s[..n]) && (n < |s| ==> !Extends(state, Classify(s[n])))
    ensures Classify(s[0]) != Misc && TokenLength(s) == n
  {
    var p := s[..n];
    assert s[0] == p[0];
    if state == SmallWord && !All(p, Lower) {
      assert p[1..] == s[1..][..n - 1];
      RunIs(s[1..], n - 1, Lower);
      assert Classify(p[1..][0]) == Lower && s[1] == p[1..][0];
      assert All(s[..1], Upper);
      RunIs(s, 1, Upper);
    } else {
      assert Classify(p[0]) == (if state == SmallWord then Lower else if state == Number then Digit else Upper);
      RunIs(s, n, Classify(s[0]));
    }
  }

  lemma CapitalStartsItsWord(s: Bytes, n: nat)
    requires 2 <= n < |s| && All(s[..n], Upper) && Classify(s[n]) == Lower
    ensures Classify(s[0]) == Upper && TokenLength(s) == n - 1
  {
    assert Classify(s[..n][0]) == Upper;
    RunIs(s, n, Upper);
  }

  lemma {:induction false} MiscIsSkipped(s: Bytes, n: nat)
    requires n <= |s| && All(s[..n], Misc)
    ensures Tokens(s) == Tokens(s[n..])
    decreases n
  {
    if n == 0 {
      assert s[0..] == s;
    } else {
      assert Classify(s[..n][0]) == Misc;
      assert s[1..][..n - 1] == s[..n][1..];
      MiscIsSkipped(s[1..], n - 1);
      assert s[1..][n - 1..] == s[n..];
    }
  }

  /** Flush(): the pending text becomes a token unless there is none. */
  lemma FlushedText(state: State, text: Bytes, start: nat, end: nat, result: seq<Bytes>)
    requires start <= end <= |text| && Pending(state, text[start..end])
    requires end < |text| ==> state == Empty || !Extends(state, Classify(text[end]))
    ensures result + Tokens(text[start..])
         == (if state == Empty then result else result + [Lowered(text[start..end])]) + Tokens(text[end..])
  {
    hide Tokens, TokenLength, Lowered, Classify, Extends, All;
    var s, n := text[start..], end - start;
    assert s[..n] == text[start..end] && s[n..] == text[end..];
    assert n < |s| ==> s[n] == text[end];
    if state == Empty {
      MiscIsSkipped(s, n);
    } else {
      PendingIsToken(state, s, n);
      PendingIsNonEmpty(state, text[start..end]);
      FirstToken(s, n);
      Reassociated(result, [Lowered(text[start..end])], Tokens(text[end..]));
    }
  }

  lemma PendingIsNonEmpty(state: State, s: Bytes)
    requires state != Empty && Pending(state, s)
    ensures s != []
  {
  }

  lemma AllGrows(s: Bytes, c: Byte, t: CharType)
    requires All(s, t) && Classify(c) == t
    ensures All(s + [c], t)
  {
  }

  /** One more character that extends what is pending. */
  lemma PendingGrows(state: State, text: Bytes, start: nat, i: nat, next: State)
    requires start <= i < |text| && Pending(state, text[start..i])
    requires var t := Classify(text[i]);
      || (t == Misc && state == Empty && next == Empty)
      || (t == Lower && (state == OneBig || state == SmallWord) && next == SmallWord)
      || (t == Upper && (state == OneBig || state == BigWord) && next == BigWord)
      || (t == Digit && state == Number && next == Number)
    ensures Pending(next, text[start..i + 1])
  {
    var s, r := text[start..i], text[start..i + 1];
    assert r == s + [text[i]];
    if next == SmallWord {
      if state == SmallWord && All(s, Lower) {
        AllGrows(s, text[i], Lower);
      } else {
        assert r[1..] == s[1..] + [text[i]];
        AllGrows(s[1..], text[i], Lower);
        assert r[0] == s[0];
      }
    } else {
      AllGrows(s, text[i], Classify(text[i]));
    }
  }

  method Flush(text: Bytes, state: State, start: nat, end: nat, result: seq<Bytes>) returns (r: seq<Bytes>)
    requires start <= end <= |text|
    ensures r == if state == Empty then result else result + [Lowered(text[start..end])]
  {
    r := result;
    if state != Empty { r := r + [Lowered(text[start..end])]; }
  }

  method Tokenize(text: Bytes) returns (result: seq<Bytes>)
    ensures result == Tokens(text)
  {
    hide Tokens, Pending, Lowered, Classify;
    result := [];
    var state, start, i := Empty, 0, 0;
    assert text[0..] == text;
    EmptyIsPending(text, 0);
    while i < |text|
      invariant 0 <= start <= i <= |text|
      invariant Pending(state, text[start..i])
      invariant result + Tokens(text[start..]) == Tokens(text)
    {
      var t := Classify(text[i]);
      if t == Misc {
        FlushedText(state, text, start, i, result);
        result := Flush(text, state, start, i, result);
        state, start := Empty, i;
        EmptyIsPending(text, i);
      } else if t == Lower {
        if state == BigWord {
          // FOOBar: the first token is FOO.
          LastCapitalIsFlushed(text, start, i, result);
          result := Flush(text, state, start, i - 1, result);
          state, start := OneBig, i - 1;
        } else if state == Empty || state == Number {
          FlushedText(state, text, start, i, result);
          result := Flush(text, state, start, i, result);
          start := i;
        }
        if state == OneBig || state == SmallWord {
          PendingGrows(state, text, start, i, SmallWord);
        } else {
          OneIsPending(text, i, SmallWord);
        }
        state := SmallWord;
      } else if t == Upper {
        if state == OneBig || state == BigWord {
          PendingGrows(state, text, start, i, BigWord);
          state := BigWord;
        } else {
          FlushedText(state, text, start, i, result);
          result := Flush(text, state, start, i, result);
          OneIsPending(text, i, OneBig);
          state, start := OneBig, i;
        }
      } else if state != Number {
        FlushedText(state, text, start, i, result);
        result := Flush(text, state, start, i, result);
        OneIsPending(text, i, Number);
        state, start := Number, i;
      } else {
        PendingGrows(state, text, start, i, Number);
      }
      if t == Misc { PendingGrows(Empty, text, start, i, Empty); }
      i := i + 1;
    }
    FlushedText(state, text, start, i, result);
    result := Flush(text, state, start, i, result);
    NothingIsLeft(text);
    assert result + [] == result;
  }

  lemma EmptyIsPending(text: Bytes, i: nat)
    requires i <= |text|
    ensures Pending(Empty, text[i..i])
  {
  }

  lemma OneIsPending(text: Bytes, i: nat, state: State)
    requires i < |text|
    requires state == (match Classify(text[i]) case Upper => OneBig case Lower => SmallWord case Digit => Number case Misc => Empty)
    ensures Pending(state, text[i..i + 1])
  {
    assert text[i..i + 1] == [text[i]];
  }

  lemma NothingIsLeft(text: Bytes)
    ensures Tokens(text[|text|..]) == []
  {
  }

  lemma FirstToken(s: Bytes, n: nat)
    requires s != [] && Classify(s[0]) != Misc && TokenLength(s) == n
    ensures Tokens(s) == [Lowered(s[..n])] + Tokens(s[n..])
  {
  }

  lemma LastCapitalIsFlushed(text: Bytes, start: nat, i: nat, result: seq<Bytes>)
    requires start <= i < |text| && Pending(BigWord, text[start..i]) && Classify(text[i]) == Lower
    ensures start < i - 1 && Pending(OneBig, text[i - 1..i])
    ensures result + Tokens(text[start..]) == result + [Lowered(text[start..i - 1])] + Tokens(text[i - 1..])
  {
    hide Tokens, TokenLength, Lowered, Classify, Run;
    var s, n := text[start..], i - start;
    assert |text[start..i]| == n >= 2;
    assert s[..n] == text[start..i] && s[n] == text[i];
    CapitalStartsItsWord(s, n);
    FirstToken(s, n - 1);
    LastOfAll(text[start..i]);
    assert text[i - 1..i] == [text[i - 1]] && text[i - 1] == text[start..i][n - 1];
    assert s[..n - 1] == text[start..i - 1] && s[n - 1..] == text[i - 1..];
  }

  lemma LastOfAll(s: Bytes)
    requires s != [] && All(s, Upper)
    ensures Classify(s[|s| - 1]) == Upper
  {
  }

  // ---------------------------------------------------------------- what is promised of tokens

  function Flatten(parts: seq<Bytes>): Bytes {
    if parts == [] then [] else parts[0] + Flatten(parts[1..])
  }

  function Alphanumerics(s: Bytes): Bytes {
    if s == [] then [] else (if Classify(s[0]) == Misc then [] else [s[0]]) + Alphanumerics(s[1..])
  }

  lemma NoAlphanumerics()
    ensures Alphanumerics([]) == []
  {
  }

  lemma AlphanumericsStep(s: Bytes)
    requires s != []
    ensures Alphanumerics(s) == (if Classify(s[0]) == Misc then [] else [s[0]]) + Alphanumerics(s[1..])
  {
  }

  lemma {:induction false} AlphanumericsJoin(s: Bytes, t: Bytes)
    ensures Alphanumerics(s + t) == Alphanumerics(s) + Alphanumerics(t)
  {
    hide Classify, Alphanumerics;
    if s == [] {
      assert s + t == t;
      NoAlphanumerics();
      assert [] + Alphanumerics(t) == Alphanumerics(t);
    } else {
      AlphanumericsJoin(s[1..], t);
      assert (s + t)[1..] == s[1..] + t;
      AlphanumericsStep(s);
      AlphanumericsStep(s + t);
      Reassociated(if Classify(s[0]) == Misc then [] else [s[0]], Alphanumerics(s[1..]), Alphanumerics(t));
    }
  }

  lemma {:induction false} AlphanumericsOfToken(s: Bytes)
    requires forall i :: 0 <= i < |s| ==> Classify(s[i]) != Misc
    ensures Alphanumerics(s) == s
  {
    if s != [] {
      AlphanumericsOfToken(s[1..]);
      assert s == [s[0]] + s[1..];
    }
  }

  /** One digit run, one upper-case run, or one lower-case run that a capital may start. */
  predicate Shaped(s: Bytes) {
    s != [] && (All(s, Digit) || All(s, Upper) || All(s, Lower) || (Classify(s[0]) == Upper && All(s[1..], Lower)))
  }

  lemma TokenIsShaped(s: Bytes)
    requires s != [] && Classify(s[0]) != Misc
    ensures Shaped(s[..TokenLength(s)])
    ensures forall i :: 0 <= i < TokenLength(s) ==> Classify(s[i]) != Misc
  {
    var n, t, token := TokenLength(s), Run(s, Classify(s[0])), s[..TokenLength(s)];
    assert token[0] == s[0];
    if n <= t {
      assert token == s[..t][..n];
    } else {
      assert token[1..] == s[1..][..n - 1];
    }
    forall i | 0 <= i < n ensures Classify(s[i]) != Misc {
      assert s[i] == token[i];
      if i > 0 { assert token[i] == token[1..][i - 1]; }
    }
  }

  lemma LoweredJoins(s: Bytes, t: Bytes)
    ensures Lowered(s + t) == Lowered(s) + Lowered(t)
  {
  }

  /** No alphanumeric character is lost, repeated or moved. */
  lemma {:induction false} TokensConserveText(s: Bytes)
    ensures Flatten(Tokens(s)) == Lowered(Alphanumerics(s))
    decreases |s|
  {
    if s == [] {
    } else if Classify(s[0]) == Misc {
      TokensConserveText(s[1..]);
    } else {
      var n := TokenLength(s);
      var head, tail := s[..n], s[n..];
      TokensConserveText(tail);
      TokenIsShaped(s);
      assert s == head + tail;
      AlphanumericsJoin(head, tail);
      AlphanumericsOfToken(head);
      LoweredJoins(head, Alphanumerics(tail));
      assert Tokens(s)[0] == Lowered(head) && Tokens(s)[1..] == Tokens(tail);
    }
  }

  /** Every token is the lower-case form of a shaped stretch of the text. */
  lemma {:induction false} TokensAreShapedSlices(s: Bytes, k: nat) returns (i: nat, j: nat)
    requires k < |Tokens(s)|
    ensures i < j <= |s| && Shaped(s[i..j]) && Tokens(s)[k] == Lowered(s[i..j])
    decreases |s|
  {
    if Classify(s[0]) == Misc {
      i, j := TokensAreShapedSlices(s[1..], k);
      i, j := ShiftedSlice(s, 1, i, j);
    } else if k == 0 {
      TokenIsShaped(s);
      i, j := 0, TokenLength(s);
    } else {
      i, j := TokensAreShapedSlices(s[TokenLength(s)..], k - 1);
      i, j := ShiftedSlice(s, TokenLength(s), i, j);
    }
  }

  lemma ShiftedSlice(s: Bytes, n: nat, i: nat, j: nat) returns (i': nat, j': nat)
    requires n <= |s| && i < j <= |s| - n
    ensures i' == i + n && j' == j + n && s[n..][i..j] == s[i'..j']
  {
    i', j' := i + n, j + n;
  }

  /** Non-empty, and all digits or all lower-case letters. */
  predicate IsToken(t: Bytes) {
    t != [] && (All(t, Digit) || All(t, Lower))
  }

  predicate AreTokens(ts: seq<Bytes>) { forall i :: 0 <= i < |ts| ==> IsToken(ts[i]) }

  lemma ShapedIsToken(s: Bytes)
    requires Shaped(s)
    ensures IsToken(Lowered(s))
  {
    var t := Lowered(s);
    if !All(s, Digit) {
      forall i | 0 <= i < |t| ensures Classify(t[i]) == Lower {
        if i > 0 && !All(s, Upper) && !All(s, Lower) { assert s[i] == s[1..][i - 1]; }
      }
    } else {
      assert forall i :: 0 <= i < |s| ==> t[i] == s[i];
    }
  }

  lemma {:induction false} TokensAreTokens(s: Bytes)
    ensures AreTokens(Tokens(s))
    decreases |s|
  {
    if s == [] {
    } else if Classify(s[0]) == Misc {
      TokensAreTokens(s[1..]);
    } else {
      TokenIsShaped(s);
      ShapedIsToken(s[..TokenLength(s)]);
      TokensAreTokens(s[TokenLength(s)..]);
    }
  }

  const SPACE: Byte := 0x20

  /** llvm::join with single spaces. */
  function Join(ts: seq<Bytes>): Bytes {
    if ts == [] then [] else ts[0] + Spaced(ts[1..])
  }

  function Spaced(ts: seq<Bytes>): Bytes {
    if ts == [] then [] else [SPACE] + ts[0] + Spaced(ts[1..])
  }

  lemma TokenIsRead(t: Bytes, rest: Bytes)
    requires IsToken(t) && (rest == [] || rest[0] == SPACE)
    ensures Tokens(t + rest) == [t] + Tokens(rest)
  {
    hide Tokens;
    var s, n := t + rest, |t|;
    assert s[..n] == t && s[n..] == rest && s[0] == t[0];
    assert Classify(t[0]) == Digit || Classify(t[0]) == Lower;
    assert n < |s| ==> s[n] == SPACE;
    RunIs(s, n, Classify(t[0]));
    FirstToken(s, n);
    assert Lowered(t) == t;
  }

  lemma {:induction false} SpacedTokensAreRead(t: Bytes, ts: seq<Bytes>)
    requires IsToken(t) && AreTokens(ts)
    ensures Tokens(t + Spaced(ts)) == [t] + ts
    decreases |ts|
  {
    hide TokenLength, Lowered, IsToken;
    var rest := Spaced(ts);
    TokenIsRead(t, rest);
    if ts != [] {
      assert rest[0] == SPACE && rest[1..] == ts[0] + Spaced(ts[1..]);
      SpacedTokensAreRead(ts[0], ts[1..]);
      assert [ts[0]] + ts[1..] == ts;
    }
  }

  /** Tokenising the joined tokens of a text gives them back. */
  lemma TokensAreStable(s: Bytes)
    ensures Tokens(Join(Tokens(s))) == Tokens(s)
  {
    var ts := Tokens(s);
    TokensAreTokens(s);
    if ts != [] {
      SpacedTokensAreRead(ts[0], ts[1..]);
      assert [ts[0]] + ts[1..] == ts;
    }
  }

  // ---------------------------------------------------------------- where tokens begin and end

  predicate CapitalLetter(c: Byte) { 65 <= c <= 90 }
  predicate SmallLetter(c: Byte) { 97 <= c <= 122 }
  predicate Numeric(c: Byte) { 48 <= c <= 57 }
  predicate Alphanumeric(c: Byte) { CapitalLetter(c) || SmallLetter(c) || Numeric(c) }

  /** Between two alphanumeric characters a new token begins where digits and letters meet, where a
      capital follows a small letter, and before the last of several capitals if a small letter follows it. */
  predicate Divided(s: Bytes, i: nat)
    requires 0 < i < |s|
  {
    || Numeric(s[i - 1]) != Numeric(s[i])
    || (SmallLetter(s[i - 1]) && CapitalLetter(s[i]))
    || (CapitalLetter(s[i - 1]) && CapitalLetter(s[i]) && i + 1 < |s| && SmallLetter(s[i + 1]))
  }

  function WordEnd(s: Bytes, i: nat): (end: nat)
    requires 0 < i <= |s|
    ensures i <= end <= |s|
    decreases |s| - i
  {
    if i == |s| || !Alphanumeric(s[i]) || Divided(s, i) then i else WordEnd(s, i + 1)
  }

  function SmallForm(c: Byte): Byte { if CapitalLetter(c) then c + 32 else c }

  /** The stretches between the divisions, in small letters. */
  function WordsFrom(s: Bytes, p: nat): seq<Bytes>
    requires p <= |s|
    decreases |s| - p
  {
    if p == |s| then []
    else if !Alphanumeric(s[p]) then WordsFrom(s, p + 1)
    else
      var end := WordEnd(s, p + 1);
      [InSmallLetters(s[p..end])] + WordsFrom(s, end)
  }

  function InSmallLetters(s: Bytes): (r: Bytes)
    ensures |r| == |s| && forall i :: 0 <= i < |s| ==> r[i] == SmallForm(s[i])
  {
    if s == [] then [] else [SmallForm(s[0])] + InSmallLetters(s[1..])
  }

  lemma {:induction false} WordEndIs(s: Bytes, i: nat, end: nat)
    requires 0 < i <= end <= |s|
    requires forall k :: i <= k < end ==> Alphanumeric(s[k]) && !Divided(s, k)
    requires end == |s| || !Alphanumeric(s[end]) || Divided(s, end)
    ensures WordEnd(s, i) == end
    decreases end - i
  {
    if i < end {
      WordEndIs(s, i + 1, end);
    }
  }

  lemma RunOf(s: Bytes, p: nat, t: CharType, n: nat)
    requires p <= |s| && n == Run(s[p..], t)
    ensures p + n <= |s| && (forall k :: p <= k < p + n ==> Classify(s[k]) == t)
    ensures p + n < |s| ==> Classify(s[p + n]) != t
  {
    forall k | p <= k < p + n
      ensures Classify(s[k]) == t
    {
      assert s[p..][..n][k - p] == s[k];
    }
    assert p + n < |s| ==> s[p..][n] == s[p + n];
  }

  /** A run of one class, none of whose characters begins a new token. */
  lemma RunHasNoDivision(s: Bytes, p: nat, end: nat, t: CharType)
    requires p < end <= |s| && t != Misc && (forall k :: p <= k < end ==> Classify(s[k]) == t)
    requires t == Upper ==> end == |s| || Classify(s[end]) != Lower
    requires end < |s| ==> Classify(s[end]) != t
    ensures WordEnd(s, p + 1) == end
  {
    forall k | p + 1 <= k < end
      ensures Alphanumeric(s[k]) && !Divided(s, k)
    {
      assert Classify(s[k]) == t && Classify(s[k - 1]) == t;
    }
    assert Classify(s[end - 1]) == t;
    WordEndIs(s, p + 1, end);
  }

  /** A capital and the small letters after it. */
  lemma CapitalHasNoDivision(s: Bytes, p: nat, end: nat)
    requires p + 1 < end <= |s| && Classify(s[p]) == Upper && forall k :: p + 1 <= k < end ==> Classify(s[k]) == Lower
    requires end < |s| ==> Classify(s[end]) != Lower
    ensures WordEnd(s, p + 1) == end
  {
    forall k | p + 1 <= k < end
      ensures Alphanumeric(s[k]) && !Divided(s, k)
    {
      assert Classify(s[k]) == Lower && (k > p + 1 ==> Classify(s[k - 1]) == Lower);
    }
    assert Classify(s[end - 1]) == Lower;
    WordEndIs(s, p + 1, end);
  }

  /** Several capitals, the last of which starts the next token. */
  lemma CapitalsEndBeforeTheLast(s: Bytes, p: nat, end: nat)
    requires p < end && end + 1 < |s| && (forall k :: p <= k <= end ==> Classify(s[k]) == Upper) && Classify(s[end + 1]) == Lower
    ensures WordEnd(s, p + 1) == end
  {
    forall k | p + 1 <= k < end
      ensures Alphanumeric(s[k]) && !Divided(s, k)
    {
      assert Classify(s[k]) == Upper && Classify(s[k - 1]) == Upper && Classify(s[k + 1]) == Upper;
    }
    assert Classify(s[end]) == Upper && Classify(s[end - 1]) == Upper;
    WordEndIs(s, p + 1, end);
  }

  lemma LengthOfToken(s: Bytes)
    requires s != [] && Classify(s[0]) != Misc
    ensures var t := Classify(s[0]);
      var n := Run(s, t);
      TokenLength(s) ==
        if t == Upper && n < |s| && Classify(s[n]) == Lower then (if n == 1 then 1 + Run(s[1..], Lower) else n - 1) else n
  {
  }

  /** The length found by looking ahead is that of the stretch up to the next division. */
  lemma TokenEndsAtDivision(s: Bytes, p: nat)
    requires p < |s| && Classify(s[p]) != Misc
    ensures WordEnd(s, p + 1) == p + TokenLength(s[p..])
  {
    hide Run, WordEnd, Classify, TokenLength;
    var rest := s[p..];
    LengthOfToken(rest);
    var t := Classify(rest[0]);
    var n := Run(rest, t);
    assert rest[0] == s[p];
    RunOf(s, p, t, n);
    assert p + n < |s| ==> rest[n] == s[p + n];
    if t == Upper && p + n < |s| && Classify(s[p + n]) == Lower {
      if n == 1 {
        assert rest[1..] == s[p + 1..];
        var m := Run(s[p + 1..], Lower);
        RunOf(s, p + 1, Lower, m);
        CapitalHasNoDivision(s, p, p + 1 + m);
      } else {
        CapitalsEndBeforeTheLast(s, p, p + n - 1);
      }
    } else {
      RunHasNoDivision(s, p, p + n, t);
    }
  }

  /** The tokens are the stretches between the divisions, and nothing else. */
  lemma {:induction false} TokensAreWords(s: Bytes, p: nat)
    requires p <= |s|
    ensures Tokens(s[p..]) == WordsFrom(s, p)
    decreases |s| - p
  {
    hide TokenLength, WordEnd;
    if p < |s| {
      var rest := s[p..];
      assert rest[0] == s[p];
      if Classify(s[p]) == Misc {
        assert rest[1..] == s[p + 1..];
        TokensAreWords(s, p + 1);
      } else {
        TokenEndsAtDivision(s, p);
        var n := TokenLength(rest);
        assert rest[n..] == s[p + n..];
        TokensAreWords(s, p + n);
        assert rest[..n] == s[p..p + n];
        assert Lowered(rest[..n]) == InSmallLetters(rest[..n]);
      }
    }
  }

  lemma TokensOfAText(s: Bytes)
    ensures Tokens(s) == WordsFrom(s, 0)
  {
    assert s[0..] == s;
    TokensAreWords(s, 0);
  }

  lemma InSmallLettersOfThree(s: Bytes)
    requires |s| == 3
    ensures InSmallLetters(s) == [SmallForm(s[0]), SmallForm(s[1]), SmallForm(s[2])]
  {
  }

  /** The source's example: the first token of FOOBar is foo, not foob. */
  lemma TokensOfFooBar()
    ensures Tokens([70, 79, 79, 66, 97, 114]) == [[102, 111, 111], [98, 97, 114]]
  {
    hide WordEnd, InSmallLetters, Tokens;
    var s: Bytes := [70, 79, 79, 66, 97, 114];
    TokensOfAText(s);
    WordEndIs(s, 1, 3);
    WordEndIs(s, 4, 6);
    InSmallLettersOfThree(s[0..3]);
    InSmallLettersOfThree(s[3..6]);
    assert WordsFrom(s, 6) == [];
    assert WordsFrom(s, 3) == [InSmallLetters(s[3..6])];
  }
}
