/** IPv4 and IPv6 headers in raw packets, and the checksums over them. */
module IpPacket {
  import opened Bytes
  import opened Checksum

  const IPV4_MIN_HDR := 20
  const IPV6_HDR := 40
  const TCP_MIN_HDR := 20

  function IpVersion(p: bytes): u8 {
    if p == [] then 0 else p[0] / 16
  }

  /** The IPv4 header length; zero for anything malformed. */
  function Ihl(p: bytes): (n: nat)
    ensures n == 0 || (IPV4_MIN_HDR <= n <= 60 && n <= |p| && n % 4 == 0)
  {
    if IpVersion(p) != 4 || |p| < IPV4_MIN_HDR then 0
    else
      var ihl := 4 * ((p[0] % 16) as nat);
      if ihl < IPV4_MIN_HDR || |p| < ihl then 0 else ihl
  }

  /** Don't Fragment. */
  predicate DfSet(p: bytes) {
    |p| >= 7 && p[6] / 64 % 2 == 1
  }

  // ---- the transport header ----

  /** Protocol and offset of the transport header; both zero when it cannot be located. */
  datatype Transport = Transport(proto: u8, off: nat)

  const NOWHERE := Transport(0, 0)

  /** Length of the IPv6 extension header of type `next` at `off`; nothing if `next` is not one that is walked
      over, or the header is cut off. */
  function ExtLen(p: bytes, next: u8, off: nat): nat {
    if next == 44 then if off + 8 > |p| then 0 else 8
    else if off + 2 > |p| then 0
    else
      var n := if next == 51 then 4 * (p[off + 1] as nat + 2) else 8 * (p[off + 1] as nat + 1);
      if off + n > |p| then 0 else n
  }

  predicate Walked(next: u8) {
    next == 0 || next == 43 || next == 60 || next == 44 || next == 51
  }

  /** Follow at most `n` extension headers. */
  function Walk(p: bytes, next: u8, off: nat, n: nat): (t: Transport)
    requires off <= |p|
    ensures t == NOWHERE || off <= t.off <= |p|
    decreases n
  {
    if n == 0 || !Walked(next) then Transport(next, off)
    else
      var len := ExtLen(p, next, off);
      if len == 0 then NOWHERE else Walk(p, p[off], off + len, n - 1)
  }

  function L4(p: bytes): (t: Transport)
    ensures t.off <= |p|
  {
    if IpVersion(p) == 4 then
      if Ihl(p) == 0 then NOWHERE else Transport(p[9], Ihl(p))
    else if IpVersion(p) == 6 then
      if |p| < IPV6_HDR then NOWHERE else Walk(p, p[6], IPV6_HDR, 8)
    else NOWHERE
  }

  method LocateL4(p: bytes) returns (proto: u8, off: nat)
    ensures Transport(proto, off) == L4(p)
  {
    if IpVersion(p) == 4 {
      var ihl := Ihl(p);
      if ihl == 0 { return 0, 0; }
      return p[9], ihl;
    }
    if IpVersion(p) != 6 || |p| < IPV6_HDR { return 0, 0; }
    proto, off := p[6], IPV6_HDR;
    for i := 0 to 8
      invariant off <= |p| && Walk(p, proto, off, 8 - i) == Walk(p, p[6], IPV6_HDR, 8)
    {
      if proto == 6 || proto == 17 || proto == 58 || proto == 1 {
        return;
      } else if proto == 0 || proto == 43 || proto == 60 {
        if off + 2 > |p| { return 0, 0; }
        var hlen := 8 * (p[off + 1] as nat + 1);
        if off + hlen > |p| { return 0, 0; }
        proto, off := p[off], off + hlen;
      } else if proto == 44 {
        if off + 8 > |p| { return 0, 0; }
        proto, off := p[off], off + 8;
      } else if proto == 51 {
        if off + 2 > |p| { return 0, 0; }
        var hlen := 4 * (p[off + 1] as nat + 2);
        if off + hlen > |p| { return 0, 0; }
        proto, off := p[off], off + hlen;
      } else {
        return;
      }
    }
  }

  /** The walk reads nothing at or after the transport header. */
  lemma {:induction false} WalkReadsBefore(p: bytes, q: bytes, next: u8, off: nat, n: nat)
    requires off <= |p| == |q| && Walk(p, next, off, n) != NOWHERE
    requires forall i :: off <= i < Walk(p, next, off, n).off ==> q[i] == p[i]
    ensures Walk(q, next, off, n) == Walk(p, next, off, n)
    decreases n
  {
    if n > 0 && Walked(next) {
      var len := ExtLen(p, next, off);
      assert len >= 8;
      WalkReadsBefore(p, q, p[off], off + len, n - 1);
    }
  }

  // ---- the IPv4 header checksum ----

  /** The checksum of an IPv4 header, taking its own field as zero; zero for a header shorter than its IHL. */
  function HeaderChecksum(h: bytes): u16 {
    if |h| < IPV4_MIN_HDR || |h| < 4 * ((h[0] % 16) as nat) then 0
    else Not16(OnesSum(SetWord(h, 10, 0)[..4 * ((h[0] % 16) as nat)]))
  }

  /** Clears the checksum field of the header in the first `n` bytes and returns what belongs there. */
  method IpHeaderChecksum(p: array<u8>, n: nat) returns (cs: u16)
    requires n <= p.Length
    modifies p
    ensures cs == HeaderChecksum(old(p[..n]))
    ensures p[..] == old(p[..])
         || (n >= IPV4_MIN_HDR && p[..] == SetWord(old(p[..]), 10, 0))
  {
    hide OnesSum;
    if n < IPV4_MIN_HDR { return 0; }
    var ihl := 4 * ((p[0] % 16) as nat);
    if n < ihl { return 0; }
    ghost var was := p[..];
    Store(p, 10, 0);
    assert p[..ihl] == SetWord(was[..n], 10, 0)[..ihl];
    var sum := OnesComplementSum(p[..ihl]);
    cs := Not16(sum);
  }

  /** Setting a word twice is setting it once. */
  lemma {:induction false} SetTwice(p: bytes, at: nat, v: u16, w: u16)
    requires at + 2 <= |p|
    ensures SetWord(SetWord(p, at, v), at, w) == SetWord(p, at, w)
  {
  }

  /** A valid header with its checksum filled in sums to all ones. */
  lemma {:induction false} HeaderVerifies(p: bytes, n: nat)
    requires Ihl(p) > 0 && Ihl(p) <= n <= |p|
    ensures var q := SetWord(p, 10, HeaderChecksum(p[..n]));
            Ihl(q) == Ihl(p) && OnesSum(q[..Ihl(p)]) == 0xFFFF
  {
    hide OnesSum;
    var ihl, c := Ihl(p), HeaderChecksum(p[..n]);
    ChecksumVerifies(p[..ihl], 10);
    assert SetWord(p[..n], 10, 0)[..ihl] == SetWord(p[..ihl], 10, 0);
    assert SetWord(p, 10, c)[..ihl] == SetWord(p[..ihl], 10, c);
  }

  // ---- checksums over a pseudo-header ----

  /** Pseudo-header and segment, summed separately and folded together. */
  function Joint(pseudo: bytes, segment: bytes): u16 {
    FoldCarry(OnesSum(pseudo) + OnesSum(segment))
  }

  lemma {:induction false} JointIs(pseudo: bytes, segment: bytes)
    requires |pseudo| <= MAX_SUMMED && |segment| <= MAX_SUMMED
    ensures Joint(pseudo, segment) == Ones(WordSum(pseudo) + WordSum(segment))
  {
    hide OnesSum, Ones, WordSum, FoldCarry;
    OnesSumIs(pseudo);
    OnesSumIs(segment);
    FoldIsOnes(OnesSum(pseudo) + OnesSum(segment));
    OnesAdd(WordSum(pseudo), WordSum(segment));
  }

  /** It is the one's-complement sum of the two put together. */
  lemma {:induction false} JointIsWhole(pseudo: bytes, segment: bytes)
    requires |pseudo| % 2 == 0 && |pseudo| + |segment| <= MAX_SUMMED
    ensures Joint(pseudo, segment) == OnesSum(pseudo + segment)
  {
    hide OnesSum, Ones, WordSum, Joint;
    JointIs(pseudo, segment);
    WordSumAppend(pseudo, segment);
    OnesSumIs(pseudo + segment);
  }

  /** Filling in the checksum makes pseudo-header and segment sum to all ones. */
  lemma {:induction false} JointVerifies(pseudo: bytes, segment: bytes, at: nat)
    requires |pseudo| <= MAX_SUMMED && |segment| <= MAX_SUMMED && at % 2 == 0 && at + 2 <= |segment|
    ensures Joint(pseudo, SetWord(segment, at, Not16(Joint(pseudo, SetWord(segment, at, 0))))) == 0xFFFF
  {
    hide Joint, Ones, WordSum, SetWord;
    var zeroed := SetWord(segment, at, 0);
    var c := Not16(Joint(pseudo, zeroed));
    JointIs(pseudo, zeroed);
    JointIs(pseudo, SetWord(segment, at, c));
    WordCounts(segment, at, c);
    OnesComplete(WordSum(pseudo) + WordSum(zeroed));
  }

  function Pseudo4(p: bytes, len: nat): (r: bytes)
    requires |p| >= IPV4_MIN_HDR
    ensures |r| == 12
  {
    p[12..16] + p[16..20] + [0, p[9]] + Be16(len % 0x1_0000)
  }

  function Pseudo6(p: bytes, len: nat, next: u8): (r: bytes)
    requires |p| >= IPV6_HDR
    ensures |r| == 40
  {
    p[8..24] + p[24..40] + Be32(len % 0x1_0000_0000) + [0, 0, 0, next]
  }

  /** The pseudo-header for the segment at `off`. */
  function Pseudo(p: bytes, off: nat): bytes
    requires (IpVersion(p) == 4 && |p| >= IPV4_MIN_HDR) || (IpVersion(p) == 6 && |p| >= IPV6_HDR)
    requires off <= |p|
  {
    if IpVersion(p) == 4 then Pseudo4(p, |p| - off) else Pseudo6(p, |p| - off, 6)
  }

  /** The TCP checksum for a packet, taking its own field as zero; zero if there is no whole TCP header. */
  function TcpChecksum(pseudo: bytes, p: bytes, off: nat): u16 {
    if |p| < off + TCP_MIN_HDR then 0 else Not16(Joint(pseudo, SetWord(p[off..], 16, 0)))
  }

  method TcpChecksumV4(p: bytes, off: nat) returns (cs: u16)
    requires |p| >= IPV4_MIN_HDR
    ensures off <= |p| ==> cs == TcpChecksum(Pseudo4(p, |p| - off), p, off)
    ensures off > |p| ==> cs == 0
  {
    hide OnesSum, FoldCarry;
    if |p| < off + TCP_MIN_HDR { return 0; }
    var len := |p| - off;
    var pseudo := p[12..16] + p[16..20] + [0, p[9]] + Be16(len % 0x1_0000);
    var buf := new u8[len](i requires 0 <= i < len => p[off + i]);
    assert buf[..] == p[off..];
    Store(buf, 16, 0);
    cs := Finish(pseudo, buf[..]);
  }

  method TcpChecksumV6(p: bytes, off: nat) returns (cs: u16)
    requires |p| >= IPV6_HDR
    ensures off <= |p| ==> cs == TcpChecksum(Pseudo6(p, |p| - off, 6), p, off)
    ensures off > |p| ==> cs == 0
  {
    hide OnesSum, FoldCarry, Be32;
    if |p| < off + TCP_MIN_HDR { return 0; }
    var len := |p| - off;
    var pseudo := p[8..24] + p[24..40] + Be32(len % 0x1_0000_0000) + [0, 0, 0, 6];
    var buf := new u8[len](i requires 0 <= i < len => p[off + i]);
    assert buf[..] == p[off..];
    Store(buf, 16, 0);
    cs := Finish(pseudo, buf[..]);
  }

  method Finish(pseudo: bytes, segment: bytes) returns (cs: u16)
    ensures cs == Not16(Joint(pseudo, segment))
  {
    hide OnesSum, FoldCarry;
    var a := OnesComplementSum(pseudo);
    var b := OnesComplementSum(segment);
    var total: u32 := (a as nat) + (b as nat);
    var sum := Fold(total);
    cs := Not16(sum);
  }
}
