/** Machine integers, big-endian words and the bitwise operations the components use,
    all on unbounded integers with explicit ranges. */
module Bytes {

  type u8 = x: int | 0 <= x < 0x100
  type u16 = x: int | 0 <= x < 0x1_0000
  type u32 = x: int | 0 <= x < 0x1_0000_0000
  type u64 = x: int | 0 <= x < 0x1_0000_0000_0000_0000

  type bytes = seq<u8>

  const MAX64: u64 := 0xFFFF_FFFF_FFFF_FFFF

  function Min(a: nat, b: nat): nat {
    if a < b then a else b
  }

  function Max(a: nat, b: nat): nat {
    if a < b then b else a
  }

  /** Addition that stops at the largest 64-bit number. */
  function SatAdd(a: u64, b: u64): u64 {
    Min(a + b, MAX64)
  }

  function HexDigit(n: nat): (c: char)
    requires n < 16
    ensures '0' <= c <= '9' || 'a' <= c <= 'f'
  {
    if n < 10 then '0' + (n as char) else 'a' + ((n - 10) as char)
  }

  /** A growable byte vector that encoders append to. */
  class ByteBuf {
    var data: bytes

    constructor ()
      ensures data == []
    {
      data := [];
    }
  }

  // ---- big-endian words ----

  function Pow256(k: nat): (r: nat)
    ensures r > 0
  {
    if k == 0 then 1 else 256 * Pow256(k - 1)
  }

  /** The `k` low-order bytes of `n`, most significant first. */
  function ToBe(n: nat, k: nat): (r: bytes)
    ensures |r| == k
  {
    if k == 0 then [] else ToBe(n / 256, k - 1) + [n % 256]
  }

  /** The number that a big-endian byte string denotes. */
  function FromBe(s: bytes): (n: nat)
    ensures n < Pow256(|s|)
  {
    if s == [] then 0 else FromBe(s[..|s| - 1]) * 256 + s[|s| - 1]
  }

  lemma {:induction false} FromToBe(n: nat, k: nat)
    requires n < Pow256(k)
    ensures FromBe(ToBe(n, k)) == n
  {
    if k == 0 {
    } else {
      FromToBe(n / 256, k - 1);
      assert ToBe(n, k)[..k - 1] == ToBe(n / 256, k - 1);
    }
  }

  lemma {:induction false} ToFromBe(s: bytes)
    ensures ToBe(FromBe(s), |s|) == s
  {
    if s == [] {
    } else {
      ToFromBe(s[..|s| - 1]);
      assert s == s[..|s| - 1] + [s[|s| - 1]];
    }
  }

  lemma {:induction false} PowValues()
    ensures Pow256(1) == 0x100
    ensures Pow256(2) == 0x1_0000
    ensures Pow256(4) == 0x1_0000_0000
    ensures Pow256(8) == 0x1_0000_0000_0000_0000
  {
    assert Pow256(0) == 1;
    assert Pow256(3) == 0x100_0000;
    assert Pow256(4) == 0x1_0000_0000;
    assert Pow256(5) == 0x100_0000_0000;
    assert Pow256(6) == 0x1_0000_0000_0000;
    assert Pow256(7) == 0x100_0000_0000_0000;
  }

  function Be16(n: u16): (r: bytes)
    ensures |r| == 2
  {
    [n / 256, n % 256]
  }

  function Word16(hi: u8, lo: u8): u16 {
    hi * 256 + lo
  }

  function Be32(n: u32): (r: bytes)
    ensures |r| == 4
  {
    ToBe(n, 4)
  }

  function Word32(s: bytes): (n: u32)
    requires |s| == 4
  {
    PowValues();
    FromBe(s)
  }

  function Be64(n: u64): (r: bytes)
    ensures |r| == 8
  {
    ToBe(n, 8)
  }

  function Word64(s: bytes): (n: u64)
    requires |s| == 8
  {
    PowValues();
    FromBe(s)
  }

  /** Writing a word and reading it back is the identity, in both directions. */
  lemma {:induction false} WordsRoundTrip32(n: u32)
    ensures Word32(Be32(n)) == n
  {
    PowValues();
    FromToBe(n, 4);
  }

  lemma {:induction false} WordsRoundTrip64(n: u64)
    ensures Word64(Be64(n)) == n
  {
    PowValues();
    FromToBe(n, 8);
  }

  lemma {:induction false} SliceOfSlice<T>(s: seq<T>, a: nat, b: nat, i: nat, j: nat)
    requires a <= b <= |s| && i <= j <= b - a
    ensures s[a..b][i..j] == s[a + i..a + j]
  {
    forall k | 0 <= k < j - i ensures s[a..b][i..j][k] == s[a + i..a + j][k] {
      assert s[a..b][i + k] == s[a + i + k];
    }
  }

  // ---- exclusive or ----

  predicate Odd(a: nat) { a % 2 == 1 }

  /** Exclusive or of the `w` low-order bits, one bit at a time. */
  function XorBits(a: nat, b: nat, w: nat): nat {
    if w == 0 then 0 else (if Odd(a) != Odd(b) then 1 else 0) + 2 * XorBits(a / 2, b / 2, w - 1)
  }

  function Pow2(w: nat): (r: nat)
    ensures r > 0
  {
    if w == 0 then 1 else 2 * Pow2(w - 1)
  }

  lemma {:induction false} XorBitsRange(a: nat, b: nat, w: nat)
    ensures XorBits(a, b, w) < Pow2(w)
  {
    if w == 0 {
    } else {
      XorBitsRange(a / 2, b / 2, w - 1);
    }
  }

  function Xor(a: u8, b: u8): u8 {
    XorBitsRange(a, b, 8);
    assert Pow2(8) == 2 * Pow2(7) == 4 * Pow2(6) == 8 * Pow2(5) == 16 * Pow2(4) == 256;
    XorBits(a, b, 8)
  }

  lemma {:induction false} XorBitsComm(a: nat, b: nat, w: nat)
    ensures XorBits(a, b, w) == XorBits(b, a, w)
  {
    if w == 0 {
    } else {
      XorBitsComm(a / 2, b / 2, w - 1);
    }
  }

  lemma {:induction false} XorBitsStep(a: nat, b: nat, w: nat)
    requires w > 0
    ensures Odd(XorBits(a, b, w)) == (Odd(a) != Odd(b))
    ensures XorBits(a, b, w) / 2 == XorBits(a / 2, b / 2, w - 1)
  {
  }

  lemma {:induction false} XorBitsAssoc(a: nat, b: nat, c: nat, w: nat)
    ensures XorBits(XorBits(a, b, w), c, w) == XorBits(a, XorBits(b, c, w), w)
  {
    if w == 0 {
    } else {
      XorBitsAssoc(a / 2, b / 2, c / 2, w - 1);
      XorBitsStep(a, b, w);
      XorBitsStep(b, c, w);
    }
  }

  lemma {:induction false} XorBitsZero(a: nat, w: nat)
    requires a < Pow2(w)
    ensures XorBits(a, 0, w) == a
  {
    if w == 0 {
    } else {
      XorBitsZero(a / 2, w - 1);
    }
  }

  lemma {:induction false} XorBitsSelf(a: nat, w: nat)
    ensures XorBits(a, a, w) == 0
  {
    if w == 0 {
    } else {
      XorBitsSelf(a / 2, w - 1);
    }
  }

  /** Bytes under exclusive or form a group in which every element is its own inverse. */
  lemma {:induction false} XorGroup(a: u8, b: u8, c: u8)
    ensures Xor(a, b) == Xor(b, a)
    ensures Xor(Xor(a, b), c) == Xor(a, Xor(b, c))
    ensures Xor(a, 0) == a && Xor(0, a) == a
    ensures Xor(a, a) == 0
  {
    XorBitsComm(a, b, 8);
    XorBitsComm(a, 0, 8);
    XorBitsAssoc(a, b, c, 8);
    assert Pow2(8) == 2 * Pow2(7) == 4 * Pow2(6) == 8 * Pow2(5) == 16 * Pow2(4) == 256;
    XorBitsZero(a, 8);
    XorBitsSelf(a, 8);
  }
}
