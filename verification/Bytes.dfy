/** Byte strings, the XOR of the stream cipher, and the fixed-width integers of the wire formats. */
module Bytes {
  type byte = b: nat | b < 256

  datatype Option<+T> = None | Some(value: T)

  /** Bitwise exclusive or of two `n`-bit numbers, least significant bit first. */
  function XorBits(n: nat, a: nat, b: nat): (c: nat) {
    if n == 0 then 0 else (a + b) % 2 + 2 * XorBits(n - 1, a / 2, b / 2)
  }

  function Xor(a: byte, b: byte): (c: byte) {
    XorBitsBound(8, a, b);
    assert Pow2(8) == 256;
    XorBits(8, a, b)
  }

  lemma XorBitsBound(n: nat, a: nat, b: nat)
    ensures XorBits(n, a, b) < Pow2(n)
  {
    if n > 0 { XorBitsBound(n - 1, a / 2, b / 2); }
  }

  function Pow2(n: nat): (p: nat) {
    if n == 0 then 1 else 2 * Pow2(n - 1)
  }

  lemma DigitSplit(low: nat, high: nat)
    requires low < 2
    ensures (low + 2 * high) % 2 == low && (low + 2 * high) / 2 == high
  {}

  lemma ParityTwice(a: nat, b: nat, c: nat)
    requires c % 2 == (a + b) % 2
    ensures (c + b) % 2 == a % 2
  {}

  lemma XorBitsUnfolds(n: nat, a: nat, b: nat)
    requires n > 0
    ensures XorBits(n, a, b) == (a + b) % 2 + 2 * XorBits(n - 1, a / 2, b / 2)
  {}

  lemma {:induction false} XorBitsTwice(n: nat, a: nat, b: nat)
    requires a < Pow2(n)
    ensures XorBits(n, XorBits(n, a, b), b) == a
  {
    if n > 0 {
      hide XorBits;
      XorBitsUnfolds(n, a, b);
      var low, high := (a + b) % 2, XorBits(n - 1, a / 2, b / 2);
      var c := low + 2 * high;
      DigitSplit(low, high);
      ParityTwice(a, b, c);
      XorBitsTwice(n - 1, a / 2, b / 2);
      XorBitsUnfolds(n, c, b);
    }
  }

  lemma {:induction false} XorBitsCommute(n: nat, a: nat, b: nat)
    ensures XorBits(n, a, b) == XorBits(n, b, a)
  {
    if n > 0 { XorBitsCommute(n - 1, a / 2, b / 2); }
  }

  /** The one fact the stream cipher needs: XOR with the same byte twice is the identity. */
  lemma XorTwice(a: byte, b: byte)
    ensures Xor(Xor(a, b), b) == a
    ensures Xor(a, b) == Xor(b, a)
  {
    assert Pow2(8) == 256;
    XorBitsTwice(8, a, b);
    XorBitsCommute(8, a, b);
  }

  function Concat(parts: seq<seq<byte>>): seq<byte> {
    if parts == [] then [] else parts[0] + Concat(parts[1..])
  }

  lemma {:induction false} XorBitsZero(n: nat, b: nat)
    requires b < Pow2(n)
    ensures XorBits(n, 0, b) == b
  {
    if n > 0 { XorBitsZero(n - 1, b / 2); }
  }

  lemma XorZero(b: byte)
    ensures Xor(0, b) == b
  {
    assert Pow2(8) == 256;
    XorBitsZero(8, b);
  }

  lemma Assoc(a: seq<byte>, b: seq<byte>, c: seq<byte>)
    ensures (a + b) + c == a + (b + c)
  {}

  lemma {:induction false} ConcatAppend(a: seq<seq<byte>>, b: seq<seq<byte>>)
    ensures Concat(a + b) == Concat(a) + Concat(b)
  {
    if a == [] {
      assert a + b == b;
    } else {
      ConcatAppend(a[1..], b);
      assert (a + b)[1..] == a[1..] + b;
      Assoc(a[0], Concat(a[1..]), Concat(b));
    }
  }

  lemma ConcatSnoc(a: seq<seq<byte>>, x: seq<byte>)
    ensures Concat(a + [x]) == Concat(a) + x
  {
    ConcatAppend(a, [x]);
    assert [x][1..] == [];
    assert Concat([x]) == x;
  }

  lemma ConcatPrefix(a: seq<seq<byte>>, n: nat)
    requires n <= |a|
    ensures Concat(a[..n]) <= Concat(a)
  {
    hide Concat;
    assert a[..n] + a[n..] == a;
    ConcatAppend(a[..n], a[n..]);
  }

  function Reversed(s: seq<byte>): (r: seq<byte>)
    ensures |r| == |s|
  {
    seq(|s|, i requires 0 <= i < |s| => s[|s| - 1 - i])
  }

  // Fixed-width integers ----------------------------------------------------

  function Be16(n: nat): (b: seq<byte>)
    ensures |b| == 2
  {
    [(n / 256) % 256, n % 256]
  }

  function FromBe16(hi: byte, lo: byte): nat {
    hi * 256 + lo
  }

  lemma Be16RoundTrip(n: nat)
    requires n < 0x1_0000
    ensures FromBe16(Be16(n)[0], Be16(n)[1]) == n
  {}
}
