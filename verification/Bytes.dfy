/** Text is handled as bytes throughout the modelled sources. */
module ByteText {
  type Byte = b: int | 0 <= b < 256
  type Bytes = seq<Byte>

  /** Byte-wise order, a prefix first, as StringRef and std::string compare. */
  predicate TextLess(a: Bytes, b: Bytes) {
    b != [] && (a == [] || a[0] < b[0] || (a[0] == b[0] && TextLess(a[1..], b[1..])))
  }

  lemma {:induction false} TextOrderIsStrict(a: Bytes, b: Bytes)
    requires TextLess(a, b)
    ensures a != b && !TextLess(b, a)
  {
    if a != [] && a[0] == b[0] {
      TextOrderIsStrict(a[1..], b[1..]);
    }
  }

  lemma {:induction false} TextOrderIsTransitive(a: Bytes, b: Bytes, c: Bytes)
    requires TextLess(a, b) && TextLess(b, c)
    ensures TextLess(a, c)
  {
    if a != [] && a[0] == b[0] == c[0] {
      TextOrderIsTransitive(a[1..], b[1..], c[1..]);
    }
  }

  lemma {:induction false} TextOrderIsTotal(a: Bytes, b: Bytes)
    ensures a == b || TextLess(a, b) || TextLess(b, a)
  {
    if a != [] && b != [] && a[0] == b[0] {
      TextOrderIsTotal(a[1..], b[1..]);
      assert a == [a[0]] + a[1..] && b == [b[0]] + b[1..];
    }
  }

  /** Lower-case hexadecimal digits, as llvm::write_hex prints them. */
  function HexDigit(v: nat): Byte
    requires v < 16
  {
    if v < 10 then 0x30 + v else 0x61 + v - 10
  }

  lemma Reassociated<T>(a: seq<T>, b: seq<T>, c: seq<T>)
    ensures a + b + c == a + (b + c)
  {
  }
}
