/** One's-complement sums of section 1 of RFC 1071, and the checksums built from them. */
module Checksum {
  import opened Bytes

  // ---- the arithmetic ----

  /** Sum of the big-endian 16-bit words; a last odd byte is the high half of a word. */
  function WordSum(data: bytes): nat {
    var n := |data|;
    if n == 0 then 0
    else if n % 2 == 1 then WordSum(data[..n - 1]) + Word16(data[n - 1], 0)
    else WordSum(data[..n - 2]) + Word16(data[n - 2], data[n - 1])
  }

  /** Add the carries back in until sixteen bits remain. */
  function FoldCarry(s: nat): u16 {
    if s < 0x1_0000 then s else FoldCarry(s % 0x1_0000 + s / 0x1_0000)
  }

  /** The representative of `s` in one's-complement arithmetic: zero only for zero. */
  function Ones(s: nat): u16 {
    if s == 0 then 0 else (s - 1) % 0xFFFF + 1
  }

  /** What the program computes: the sum is kept in 32 bits. */
  function OnesSum(data: bytes): u16 {
    FoldCarry(WordSum(data) % 0x1_0000_0000)
  }

  function Not16(w: u16): u16 {
    0xFFFF - w
  }

  lemma {:induction false} OnesPeriodic(s: nat, k: nat)
    requires s > 0
    ensures Ones(s + 0xFFFF * k) == Ones(s)
  {
    assert (s - 1 + 0xFFFF * k) % 0xFFFF == (s - 1) % 0xFFFF;
  }

  /** End-around carry computes the one's-complement representative. */
  lemma {:induction false} FoldIsOnes(s: nat)
    ensures FoldCarry(s) == Ones(s)
  {
    if s >= 0x1_0000 {
      var h, l := s / 0x1_0000, s % 0x1_0000;
      assert s == (h + l) + 0xFFFF * h;
      FoldIsOnes(h + l);
      OnesPeriodic(h + l, h);
    } else {
      SmallOnes(s);
    }
  }

  lemma {:induction false} SmallOnes(s: nat)
    requires s < 0x1_0000
    ensures Ones(s) == s
  {
  }

  lemma {:induction false} OnesShape(s: nat) returns (q: nat)
    requires s > 0
    ensures s == 0xFFFF * q + Ones(s) && 0 < Ones(s)
  {
    q := (s - 1) / 0xFFFF;
  }

  /** Sums may be folded early. */
  lemma {:induction false} OnesAdd(a: nat, b: nat)
    ensures Ones(Ones(a) + Ones(b)) == Ones(a + b)
  {
    if a > 0 {
      var p := OnesShape(a);
      if b > 0 {
        var q := OnesShape(b);
        assert a + b == Ones(a) + Ones(b) + 0xFFFF * (p + q);
        OnesPeriodic(Ones(a) + Ones(b), p + q);
      } else {
        SmallOnes(Ones(a));
      }
    } else {
      SmallOnes(Ones(b));
    }
  }

  /** A sum completed by the complement of its representative is all ones. */
  lemma {:induction false} OnesComplete(s: nat)
    ensures Ones(s + Not16(Ones(s))) == 0xFFFF
  {
    if s > 0 {
      var q := OnesShape(s);
      assert s + Not16(Ones(s)) == 0xFFFF + 0xFFFF * q;
      OnesPeriodic(0xFFFF, q);
    }
    SmallOnes(0xFFFF);
  }

  /** 65537 words cannot overflow 32 bits. */
  const MAX_SUMMED := 131074

  lemma {:induction false} WordSumBound(data: bytes)
    ensures 2 * WordSum(data) <= 0xFFFF * (|data| + 1)
    ensures |data| % 2 == 0 ==> 2 * WordSum(data) <= 0xFFFF * |data|
  {
    var n := |data|;
    if n == 0 {
    } else {
      WordSumBound(if n % 2 == 1 then data[..n - 1] else data[..n - 2]);
    }
  }

  /** Within that bound the 32-bit sum is the one's-complement sum. */
  lemma {:induction false} OnesSumIs(data: bytes)
    requires |data| <= MAX_SUMMED
    ensures OnesSum(data) == Ones(WordSum(data))
  {
    hide WordSum, FoldCarry, Ones;
    WordSumBound(data);
    FoldIsOnes(WordSum(data));
    assert WordSum(data) < 0x1_0000_0000;
  }

  /** Beyond it, exactly when the number of lost carries out of 32 bits is a multiple of 65535 and the sum was
      not wiped out. */
  lemma {:induction false} OverflowHarmlessWhen(data: bytes)
    ensures var s := WordSum(data);
            OnesSum(data) == Ones(s) <==>
            (s / 0x1_0000_0000) % 0xFFFF == 0 && (s % 0x1_0000_0000 == 0 ==> s == 0)
  {
    hide WordSum;
    var s := WordSum(data);
    var q, r := s / 0x1_0000_0000, s % 0x1_0000_0000;
    FoldIsOnes(r);
    if r > 0 {
      assert s == r + q + 0xFFFF * (0x1_0001 * q);
      OnesPeriodic(r + q, 0x1_0001 * q);
      SameOnes(r, q);
    } else if s > 0 {
      var k := OnesShape(s);
    }
  }

  lemma {:induction false} SameOnes(r: nat, q: nat)
    requires r > 0
    ensures Ones(r + q) == Ones(r) <==> q % 0xFFFF == 0
  {
    var a := OnesShape(r);
    var b := OnesShape(r + q);
    if Ones(r + q) == Ones(r) {
      assert q == 0xFFFF * (b - a);
    }
    if q % 0xFFFF == 0 {
      OnesPeriodic(r, q / 0xFFFF);
    }
  }

  // ---- words in packets ----

  /** `w` at `at`, high byte first. */
  function SetWord(p: bytes, at: nat, w: u16): (r: bytes)
    requires at + 2 <= |p|
    ensures |r| == |p|
    ensures forall i :: 0 <= i < |p| && i != at && i != at + 1 ==> r[i] == p[i]
    ensures r[at] == w / 256 && r[at + 1] == w % 256
  {
    p[at := w / 256][at + 1 := w % 256]
  }

  /** A word at an even place counts once. */
  lemma {:induction false} WordCounts(data: bytes, at: nat, w: u16)
    requires at % 2 == 0 && at + 2 <= |data|
    ensures WordSum(SetWord(data, at, w)) == WordSum(SetWord(data, at, 0)) + w
  {
    hide WordSum, SetWord;
    var n := |data|;
    var m := if n % 2 == 1 then n - 1 else n - 2;
    var full, zero := SetWord(data, at, w), SetWord(data, at, 0);
    LastWord(full, m);
    LastWord(zero, m);
    if at + 2 <= m {
      WordCounts(data[..m], at, w);
      PrefixSet(data, m, at, w);
      PrefixSet(data, m, at, 0);
    } else {
      assert full[..m] == zero[..m];
      WordParts(w);
    }
  }

  lemma {:induction false} WordParts(w: u16)
    ensures Word16(w / 256, w % 256) == w
  {
    assert w == 256 * (w / 256) + w % 256;
  }

  /** The last word, or the last odd byte, by its place. */
  lemma {:induction false} LastWord(data: bytes, m: nat)
    requires m % 2 == 0 && m < |data| <= m + 2
    ensures WordSum(data) == WordSum(data[..m]) + Word16(data[m], if m + 1 < |data| then data[m + 1] else 0)
  {
  }

  lemma {:induction false} PrefixSet(data: bytes, n: nat, at: nat, w: u16)
    requires at + 2 <= n <= |data|
    ensures SetWord(data, at, w)[..n] == SetWord(data[..n], at, w)
  {
  }

  lemma {:induction false} EvenSum(a: nat, b: nat)
    requires a % 2 == 0 && b % 2 == 0
    ensures (a + b) % 2 == 0
  {
  }

  /** Sums of even pieces add up. */
  lemma {:induction false} WordSumAppend(a: bytes, b: bytes)
    requires |a| % 2 == 0
    ensures WordSum(a + b) == WordSum(a) + WordSum(b)
  {
    var n := |b|;
    if n == 0 {
      assert a + b == a;
    } else {
      var m := if n % 2 == 1 then n - 1 else n - 2;
      var all := a + b;
      EvenSum(|a|, m);
      LastWord(b, m);
      LastWord(all, |a| + m);
      hide WordSum, Word16;
      WordSumAppend(a, b[..m]);
      assert all[..|a| + m] == a + b[..m];
      assert all[|a| + m] == b[m];
      assert m + 1 < n ==> all[|a| + m + 1] == b[m + 1];
    }
  }

  /** Filling in the checksum makes the data sum to all ones. */
  lemma {:induction false} ChecksumVerifies(data: bytes, at: nat)
    requires at % 2 == 0 && at + 2 <= |data| <= MAX_SUMMED
    ensures OnesSum(SetWord(data, at, Not16(OnesSum(SetWord(data, at, 0))))) == 0xFFFF
  {
    var zeroed := SetWord(data, at, 0);
    var c := Not16(OnesSum(zeroed));
    OnesSumIs(zeroed);
    OnesSumIs(SetWord(data, at, c));
    WordCounts(data, at, c);
    OnesComplete(WordSum(zeroed));
  }

  // ---- the program's loops ----

  lemma {:induction false} WrapAdd(a: nat, b: nat)
    ensures (a % 0x1_0000_0000 + b) % 0x1_0000_0000 == (a + b) % 0x1_0000_0000
  {
  }

  method OnesComplementSum(data: bytes) returns (r: u16)
    ensures r == OnesSum(data)
  {
    hide Word16, FoldCarry;
    var sum: u32 := 0;
    var i := 0;
    while i + 1 < |data|
      invariant 0 <= i <= |data| && i % 2 == 0
      invariant sum == WordSum(data[..i]) % 0x1_0000_0000
    {
      WrapAdd(WordSum(data[..i]), Word16(data[i], data[i + 1]));
      LastWord(data[..i + 2], i);
      assert data[..i + 2][..i] == data[..i];
      sum := (sum + Word16(data[i], data[i + 1])) % 0x1_0000_0000;
      i := i + 2;
    }
    if i < |data| {
      WrapAdd(WordSum(data[..i]), Word16(data[i], 0));
      LastWord(data, i);
      sum := (sum + Word16(data[i], 0)) % 0x1_0000_0000;
    } else {
      assert data[..i] == data;
    }
    r := Fold(sum);
  }

  method Fold(start: u32) returns (r: u16)
    ensures r == FoldCarry(start)
  {
    var sum := start;
    while sum / 0x1_0000 != 0
      invariant FoldCarry(sum) == FoldCarry(start)
      decreases sum
    {
      sum := sum % 0x1_0000 + sum / 0x1_0000;
    }
    r := sum;
  }

  method Store(p: array<u8>, at: nat, w: u16)
    requires at + 2 <= p.Length
    modifies p
    ensures p[..] == SetWord(old(p[..]), at, w)
  {
    p[at] := w / 256;
    p[at + 1] := w % 256;
  }
}
