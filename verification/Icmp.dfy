/** ICMP errors: section 4 of RFC 1191 for IPv4, sections 3.2 and 3.3 of RFC 4443 for IPv6. */
module Icmp {
  import opened Bytes
  import opened Checksum
  import opened IpPacket
  import opened Wrappers

  // ---- what an error packet is ----

  /** The quoted beginning of the offending packet: its header and eight more bytes. */
  function Quoted(original: bytes, header: nat): bytes {
    original[..if header + 8 < |original| then header + 8 else |original|]
  }

  /** An IPv4 header without options for an ICMP message, checksum still zero. */
  function Outer4(total: u16, src: bytes, dst: bytes): (r: bytes)
    requires |src| == |dst| == 4
    ensures |r| == 20
  {
    [0x45, 0] + Be16(total) + [0, 0, 0, 0] + [64, 1] + [0, 0] + src + dst
  }

  function Body4(kind: u8, code: u8, mtu: u16, quoted: bytes): (r: bytes)
    ensures |r| == 8 + |quoted|
  {
    [kind, code] + [0, 0] + [0, 0] + Be16(mtu) + quoted
  }

  /** The whole error packet for an IPv4 packet. */
  function Error4(original: bytes, our: bytes, kind: u8, code: u8, mtu: u16): Option<bytes>
    requires |our| == 4
  {
    if IpVersion(original) != 4 || |original| < IPV4_MIN_HDR then Option.None
    else
      var body := Body4(kind, code, mtu, Quoted(original, Ihl(original)));
      var header := Outer4(20 + |body|, our, original[12..16]);
      Some(SetWord(header, 10, HeaderChecksum(header)) + SetWord(body, 2, Not16(OnesSum(body))))
  }

  function Outer6(len: u16, src: bytes, dst: bytes): (r: bytes)
    requires |src| == |dst| == 16
    ensures |r| == 40
  {
    [0x60, 0, 0, 0] + Be16(len) + [58, 64] + src + dst
  }

  function Body6(kind: u8, code: u8, mtu: u32, quoted: bytes): (r: bytes)
    ensures |r| == 8 + |quoted|
  {
    [kind, code] + [0, 0] + Be32(mtu) + quoted
  }

  /** The ICMPv6 checksum covers the pseudo-header of the packet that carries it. */
  function Icmp6Checksum(p: bytes): u16 {
    if |p| < IPV6_HDR + 4 then 0
    else Not16(Joint(Pseudo6(p, |p| - 40, 58), SetWord(p, 42, 0)[40..]))
  }

  /** The whole error packet for an IPv6 packet. */
  function Error6(original: bytes, our: bytes, kind: u8, code: u8, mtu: u32): Option<bytes>
    requires |our| == 16
  {
    if IpVersion(original) != 6 || |original| < IPV6_HDR then Option.None
    else
      var body := Body6(kind, code, mtu, Quoted(original, IPV6_HDR));
      var p := Outer6(|body|, our, original[8..24]) + body;
      Some(SetWord(p, 42, Icmp6Checksum(p)))
  }

  // ---- an error packet is well formed ----

  /** The quoted length is bounded, so the packet is at most 96 bytes. */
  lemma {:induction false} QuotedLength(original: bytes, header: nat)
    ensures |Quoted(original, header)| <= header + 8
    ensures Quoted(original, header) <= original
  {
  }

  lemma {:induction false} Outer4Fields(total: u16, src: bytes, dst: bytes)
    requires |src| == |dst| == 4
    ensures var h := Outer4(total, src, dst);
            h[0] == 0x45 && h[2..4] == Be16(total) && h[9] == 1 && h[10] == h[11] == 0
            && h[12..16] == src && h[16..20] == dst && Ihl(h) == 20 && SetWord(h, 10, 0) == h
  {
  }

  /** An IPv4 error packet: both checksums verify, it goes from our address to the sender of the offending packet,
      its length field is its length, and it quotes the beginning of that packet. */
  lemma {:induction false} Error4IsValid(original: bytes, our: bytes, kind: u8, code: u8, mtu: u16)
    requires |our| == 4
    ensures var e := Error4(original, our, kind, code, mtu);
            (e.Some? <==> IpVersion(original) == 4 && |original| >= IPV4_MIN_HDR)
            && (e.Some? ==>
                  var q := e.value;
                  && 36 <= |q| <= 96 && Ihl(q) == 20 && q[9] == 1 && q[2..4] == Be16(|q|)
                  && q[12..16] == our && q[16..20] == original[12..16]
                  && OnesSum(q[..20]) == 0xFFFF && OnesSum(q[20..]) == 0xFFFF
                  && q[20] == kind && q[21] == code && q[26..28] == Be16(mtu)
                  && q[28..] == Quoted(original, Ihl(original)))
  {
    if IpVersion(original) == 4 && |original| >= IPV4_MIN_HDR {
      var quoted := Quoted(original, Ihl(original));
      QuotedLength(original, Ihl(original));
      var body := Body4(kind, code, mtu, quoted);
      var src := original[12..16];
      var header := Outer4(20 + |body|, our, src);
      Outer4Fields(20 + |body|, our, src);
      HeaderVerifies(header, 20);
      assert header[..20] == header;
      BodyVerifies(body);
      Body4Fields(kind, code, mtu, quoted);
      var h, b := SetWord(header, 10, HeaderChecksum(header)), SetWord(body, 2, Not16(OnesSum(body)));
      hide OnesSum, HeaderChecksum, Outer4, Body4, Quoted, SetWord, Be16;
      Parts4(h, b, header, body, Be16(20 + |body|), our, src, Be16(mtu), quoted);
    }
  }

  lemma {:induction false} BodyVerifies(body: bytes)
    requires 4 <= |body| <= 100 && body[2] == 0 && body[3] == 0
    ensures OnesSum(SetWord(body, 2, Not16(OnesSum(body)))) == 0xFFFF
  {
    assert SetWord(body, 2, 0) == body;
    ChecksumVerifies(body, 2);
  }

  lemma {:induction false} Body4Fields(kind: u8, code: u8, mtu: u16, quoted: bytes)
    ensures var b := Body4(kind, code, mtu, quoted);
            b[0] == kind && b[1] == code && b[2] == 0 && b[3] == 0 && b[6..8] == Be16(mtu) && b[8..] == quoted
  {
  }

  /** The two filled-in parts, read as one packet. */
  lemma {:induction false} Parts4(h: bytes, b: bytes, header: bytes, body: bytes, len: bytes, src: bytes, dst: bytes,
      mtu: bytes, quoted: bytes)
    requires |h| == |header| == 20 && |b| == |body| >= 8
    requires forall i :: 0 <= i < 20 && i != 10 && i != 11 ==> h[i] == header[i]
    requires forall i :: 0 <= i < |b| && i != 2 && i != 3 ==> b[i] == body[i]
    requires header[0] == 0x45 && header[2..4] == len && header[9] == 1 && header[12..16] == src
          && header[16..20] == dst
    requires body[6..8] == mtu && body[8..] == quoted
    ensures var q := h + b;
            && Ihl(q) == 20 && q[9] == 1 && q[2..4] == len && q[12..16] == src && q[16..20] == dst
            && q[..20] == h && q[20..] == b && q[20] == body[0] && q[21] == body[1]
            && q[26..28] == mtu && q[28..] == quoted
  {
    var q := h + b;
    assert q[0] == header[0];
    assert q[2..4] == header[2..4] && q[12..16] == header[12..16] && q[16..20] == header[16..20];
    assert q[26..28] == body[6..8];
    assert q[28..] == body[8..];
  }

  /** An IPv6 error packet: its checksum verifies under its own pseudo-header, it goes from our address to the
      sender of the offending packet, and it quotes the beginning of that packet. */
  lemma {:induction false} Error6IsValid(original: bytes, our: bytes, kind: u8, code: u8, mtu: u32)
    requires |our| == 16
    ensures var e := Error6(original, our, kind, code, mtu);
            (e.Some? <==> IpVersion(original) == 6 && |original| >= IPV6_HDR)
            && (e.Some? ==>
                  var q := e.value;
                  && 88 <= |q| <= 96 && IpVersion(q) == 6 && q[6] == 58 && q[4..6] == Be16(|q| - 40)
                  && q[8..24] == our && q[24..40] == original[8..24]
                  && Joint(Pseudo6(q, |q| - 40, 58), q[40..]) == 0xFFFF
                  && q[40] == kind && q[41] == code && q[44..48] == Be32(mtu)
                  && q[48..] == Quoted(original, IPV6_HDR))
  {
    if IpVersion(original) == 6 && |original| >= IPV6_HDR {
      var quoted := Quoted(original, IPV6_HDR);
      QuotedLength(original, IPV6_HDR);
      var body := Body6(kind, code, mtu, quoted);
      var src := original[8..24];
      var outer := Outer6(|body|, our, src);
      Outer6Fields(|body|, our, src);
      Body6Fields(kind, code, mtu, quoted);
      var p := outer + body;
      hide Joint, Outer6, Body6, Quoted, SetWord, Be16, Be32, Pseudo6;
      Icmp6Verifies(p);
      Parts6(p, SetWord(p, 42, Icmp6Checksum(p)), outer, body, quoted);
    }
  }

  lemma {:induction false} Outer6Fields(len: u16, src: bytes, dst: bytes)
    requires |src| == |dst| == 16
    ensures var h := Outer6(len, src, dst);
            h[0] == 0x60 && h[4..6] == Be16(len) && h[6] == 58 && h[8..24] == src && h[24..40] == dst
  {
  }

  lemma {:induction false} Body6Fields(kind: u8, code: u8, mtu: u32, quoted: bytes)
    ensures var b := Body6(kind, code, mtu, quoted);
            b[0] == kind && b[1] == code && b[4..8] == Be32(mtu) && b[8..] == quoted
  {
    hide Be32;
  }

  lemma {:induction false} Icmp6Verifies(p: bytes)
    requires 44 <= |p| <= 200
    ensures var q := SetWord(p, 42, Icmp6Checksum(p));
            Joint(Pseudo6(q, |q| - 40, 58), q[40..]) == 0xFFFF
  {
    hide Joint, Be32;
    var c := Icmp6Checksum(p);
    var q := SetWord(p, 42, c);
    JointVerifies(Pseudo6(p, |p| - 40, 58), p[40..], 2);
    assert SetWord(p, 42, 0)[40..] == SetWord(p[40..], 2, 0);
    assert q[40..] == SetWord(p[40..], 2, c);
    assert q[8..24] == p[8..24] && q[24..40] == p[24..40];
  }

  lemma {:induction false} Parts6(p: bytes, q: bytes, outer: bytes, body: bytes, quoted: bytes)
    requires p == outer + body && |outer| == 40 && |body| >= 8 && |q| == |p| && body[8..] == quoted && outer[0] == 0x60
    requires forall i :: 0 <= i < |p| && i != 42 && i != 43 ==> q[i] == p[i]
    ensures IpVersion(q) == 6 && q[6] == outer[6] && q[4..6] == outer[4..6] && q[8..24] == outer[8..24]
    ensures q[24..40] == outer[24..40] && q[40] == body[0] && q[41] == body[1] && q[44..48] == body[4..8]
    ensures q[48..] == quoted
  {
    assert q[0] == outer[0];
    assert forall i :: 4 <= i < 8 ==> q[40 + i] == body[i];
    assert q[44..48] == body[4..8];
    assert q[48..] == body[8..];
  }

  // ---- the program ----

  function Pasted(p: bytes, at: nat, src: bytes): (r: bytes)
    requires at + |src| <= |p|
    ensures |r| == |p|
  {
    p[..at] + src + p[at + |src|..]
  }

  function Zeros(n: nat): (r: bytes)
    ensures |r| == n && forall i :: 0 <= i < n ==> r[i] == 0
  {
    seq(n, _ => 0)
  }

  /** `p[at..at + |src|] = src` */
  method CopyInto(p: array<u8>, at: nat, src: bytes)
    requires at + |src| <= p.Length
    modifies p
    ensures p[..] == Pasted(old(p[..]), at, src)
  {
    var i := 0;
    while i < |src|
      invariant 0 <= i <= |src|
      invariant forall k :: 0 <= k < p.Length ==> p[k] == if at <= k < at + i then src[k - at] else old(p[k])
    {
      p[at + i] := src[i];
      i := i + 1;
    }
  }

  lemma {:induction false} Body4Built(kind: u8, code: u8, mtu: u16, quoted: bytes)
    ensures Pasted(Pasted(Zeros(8 + |quoted|)[0 := kind][1 := code], 6, Be16(mtu)), 8, quoted)
         == Body4(kind, code, mtu, quoted)
  {
    hide Be16, Zeros;
    var z := Zeros(8 + |quoted|)[0 := kind][1 := code];
    assert z[..6] == [kind, code] + [0, 0] + [0, 0];
  }

  lemma {:induction false} Body6Built(kind: u8, code: u8, mtu: u32, quoted: bytes)
    ensures Pasted(Pasted(Zeros(8 + |quoted|)[0 := kind][1 := code], 4, Be32(mtu)), 8, quoted)
         == Body6(kind, code, mtu, quoted)
  {
    hide Be32, Zeros;
    var z := Zeros(8 + |quoted|)[0 := kind][1 := code];
    assert z[..4] == [kind, code] + [0, 0];
  }

  lemma {:induction false} Outer4Built(n: nat, total: u16, our: bytes, dst: bytes)
    requires |our| == |dst| == 4 && n >= 20
    ensures var z := Pasted(Zeros(n)[0 := 0x45], 2, Be16(total))[8 := 64][9 := 1];
            Pasted(Pasted(z, 12, our), 16, dst)[..20] == Outer4(total, our, dst)
  {
    hide Be16, Zeros;
    var z := Pasted(Zeros(n)[0 := 0x45], 2, Be16(total))[8 := 64][9 := 1];
    assert z[..12] == [0x45, 0] + Be16(total) + [0, 0, 0, 0] + [64, 1] + [0, 0];
  }

  lemma {:induction false} Outer6Built(n: nat, len: u16, our: bytes, dst: bytes)
    requires |our| == |dst| == 16 && n >= 40
    ensures var z := Pasted(Zeros(n)[0 := 0x60], 4, Be16(len))[6 := 58][7 := 64];
            Pasted(Pasted(z, 8, our), 24, dst)[..40] == Outer6(len, our, dst)
  {
    hide Be16, Zeros;
    var z := Pasted(Zeros(n)[0 := 0x60], 4, Be16(len))[6 := 58][7 := 64];
    assert z[..8] == [0x60, 0, 0, 0] + Be16(len) + [58, 64];
  }

  lemma {:induction false} PastedTail(p: bytes, at: nat, src: bytes)
    requires at + |src| == |p|
    ensures Pasted(p, at, src) == p[..at] + src
  {
  }

  method ZeroBuffer(n: nat) returns (p: array<u8>)
    ensures fresh(p) && p[..] == Zeros(n)
  {
    p := new u8[n](_ => 0);
    assert forall k :: 0 <= k < n ==> p[..][k] == Zeros(n)[k];
  }

  /** Clears the checksum field of an ICMP message and returns what belongs there. */
  method IcmpChecksum(icmp: array<u8>) returns (cs: u16)
    modifies icmp
    ensures icmp.Length < 4 ==> cs == 0 && icmp[..] == old(icmp[..])
    ensures icmp.Length >= 4 ==> icmp[..] == SetWord(old(icmp[..]), 2, 0) && cs == Not16(OnesSum(icmp[..]))
  {
    hide OnesSum;
    if icmp.Length < 4 { return 0; }
    Store(icmp, 2, 0);
    var sum := OnesComplementSum(icmp[..]);
    cs := Not16(sum);
  }

  method Icmpv6Checksum(p: array<u8>) returns (cs: u16)
    modifies p
    ensures cs == Icmp6Checksum(old(p[..]))
    ensures p.Length >= IPV6_HDR + 4 ==> p[..] == SetWord(old(p[..]), 42, 0)
  {
    hide Joint, Be32, SetWord;
    if p.Length < IPV6_HDR + 4 { return 0; }
    var len := p.Length - 40;
    var pseudo := p[8..24] + p[24..40] + Be32(len % 0x1_0000_0000) + [0, 0, 0, 58];
    ghost var was := p[..];
    assert was[8..24] == p[8..24] && was[24..40] == p[24..40];
    Store(p, 42, 0);
    assert p[40..] == SetWord(was, 42, 0)[40..];
    cs := Finish(pseudo, p[40..]);
  }

  /** The message with its checksum, from its fixed fields and the quoted packet. */
  method Message4(kind: u8, code: u8, mtu: u16, quoted: bytes) returns (icmp: bytes)
    ensures var b := Body4(kind, code, mtu, quoted); icmp == SetWord(b, 2, Not16(OnesSum(b)))
  {
    hide OnesSum, Be16, SetWord, Pasted, Zeros, Body4;
    var buf := ZeroBuffer(8 + |quoted|);
    buf[0], buf[1] := kind, code;
    CopyInto(buf, 6, Be16(mtu));
    CopyInto(buf, 8, quoted);
    Body4Built(kind, code, mtu, quoted);
    ghost var body := Body4(kind, code, mtu, quoted);
    assert buf[..] == body;
    BodyCleared(kind, code, mtu, quoted);
    var cs := IcmpChecksum(buf);
    Store(buf, 2, cs);
    icmp := buf[..];
  }

  lemma {:induction false} BodyCleared(kind: u8, code: u8, mtu: u16, quoted: bytes)
    ensures var b := Body4(kind, code, mtu, quoted); SetWord(b, 2, 0) == b
  {
  }

  /** The message in an IPv4 packet. */
  method Wrap4(icmp: bytes, our: bytes, dst: bytes) returns (p: bytes)
    requires |our| == |dst| == 4 && |icmp| < 1000
    ensures var h := Outer4(20 + |icmp|, our, dst); p == SetWord(h, 10, HeaderChecksum(h)) + icmp
  {
    hide OnesSum, Be16, SetWord, Pasted, Zeros, Outer4;
    var total := IPV4_MIN_HDR + |icmp|;
    var pkt := ZeroBuffer(total);
    pkt[0] := 0x45;
    CopyInto(pkt, 2, Be16(total));
    pkt[8] := 64;
    pkt[9] := 1;
    CopyInto(pkt, 12, our);
    CopyInto(pkt, 16, dst);
    ghost var h := Outer4(20 + |icmp|, our, dst);
    ghost var before := pkt[..];
    Outer4Built(total, total, our, dst);
    assert before[..20] == h;
    Outer4Fields(total, our, dst);
    var cs := IpHeaderChecksum(pkt, pkt.Length);
    assert before[..total] == before;
    HeaderIsPrefix(before, h);
    Store(pkt, 10, cs);
    HeaderStored(before, h, cs);
    SetTwice(before, 10, 0, cs);
    assert pkt[..] == SetWord(before, 10, cs);
    ghost var stored := pkt[..];
    CopyInto(pkt, IPV4_MIN_HDR, icmp);
    PastedTail(stored, 20, icmp);
    p := pkt[..];
  }

  lemma {:induction false} HeaderStored(p: bytes, h: bytes, cs: u16)
    requires |h| == 20 <= |p| && p[..20] == h
    ensures SetWord(p, 10, cs)[..20] == SetWord(h, 10, cs)
  {
  }

  lemma {:induction false} HeaderIsPrefix(p: bytes, h: bytes)
    requires |h| == 20 <= |p| && p[..20] == h && h[0] == 0x45
    ensures HeaderChecksum(p) == HeaderChecksum(h)
  {
    hide OnesSum;
    assert p[0] == h[0];
    assert SetWord(p, 10, 0)[..20] == SetWord(h, 10, 0)[..20];
  }

  method GenerateTimeExceededV4(original: bytes, our: bytes) returns (r: Option<bytes>)
    requires |our| == 4
    ensures r == Error4(original, our, 11, 0, 0)
  {
    hide OnesSum, HeaderChecksum, SetWord, Outer4, Body4;
    if IpVersion(original) != 4 || |original| < IPV4_MIN_HDR { return Option.None; }
    var quoted := Quoted(original, Ihl(original));
    var icmp := Message4(11, 0, 0, quoted);
    var p := Wrap4(icmp, our, original[12..16]);
    r := Some(p);
  }

  method GenerateFragNeededV4(original: bytes, our: bytes, mtu: u16) returns (r: Option<bytes>)
    requires |our| == 4
    ensures r == Error4(original, our, 3, 4, mtu)
  {
    hide OnesSum, HeaderChecksum, SetWord, Outer4, Body4;
    if IpVersion(original) != 4 || |original| < IPV4_MIN_HDR { return Option.None; }
    var quoted := Quoted(original, Ihl(original));
    var icmp := Message4(3, 4, mtu, quoted);
    var p := Wrap4(icmp, our, original[12..16]);
    r := Some(p);
  }

  /** The message in an IPv6 packet, checksummed once the addresses are in place. */
  method Wrap6(kind: u8, code: u8, mtu: u32, quoted: bytes, our: bytes, dst: bytes) returns (p: bytes)
    requires |our| == |dst| == 16 && |quoted| < 1000
    ensures var b := Body6(kind, code, mtu, quoted); var q := Outer6(|b|, our, dst) + b;
            p == SetWord(q, 42, Icmp6Checksum(q))
  {
    hide Be16, SetWord, Be32, Icmp6Checksum, Pasted, Zeros, Body6, Outer6;
    var icmp := ZeroBuffer(8 + |quoted|);
    icmp[0], icmp[1] := kind, code;
    CopyInto(icmp, 4, Be32(mtu));
    CopyInto(icmp, 8, quoted);
    Body6Built(kind, code, mtu, quoted);
    ghost var b := Body6(kind, code, mtu, quoted);
    assert icmp[..] == b;
    p := Packet6(icmp[..], our, dst);
  }

  method Packet6(icmp: bytes, our: bytes, dst: bytes) returns (p: bytes)
    requires |our| == |dst| == 16 && 4 <= |icmp| < 2000
    ensures var q := Outer6(|icmp|, our, dst) + icmp; p == SetWord(q, 42, Icmp6Checksum(q))
  {
    hide Be16, SetWord, Be32, Icmp6Checksum, Pasted, Zeros, Outer6;
    var pkt := ZeroBuffer(IPV6_HDR + |icmp|);
    pkt[0] := 0x60;
    CopyInto(pkt, 4, Be16(|icmp|));
    pkt[6] := 58;
    pkt[7] := 64;
    CopyInto(pkt, 8, our);
    CopyInto(pkt, 24, dst);
    Outer6Built(pkt.Length, |icmp|, our, dst);
    ghost var head := pkt[..];
    assert head[..40] == Outer6(|icmp|, our, dst);
    CopyInto(pkt, IPV6_HDR, icmp);
    PastedTail(head, 40, icmp);
    ghost var q := pkt[..];
    var cs := Icmpv6Checksum(pkt);
    Store(pkt, 42, cs);
    SetTwice(q, 42, 0, cs);
    p := pkt[..];
  }

  method GenerateTimeExceededV6(original: bytes, our: bytes) returns (r: Option<bytes>)
    requires |our| == 16
    ensures r == Error6(original, our, 3, 0, 0)
  {
    hide Icmp6Checksum, SetWord, Outer6, Body6;
    if IpVersion(original) != 6 || |original| < IPV6_HDR { return Option.None; }
    var p := Wrap6(3, 0, 0, Quoted(original, IPV6_HDR), our, original[8..24]);
    r := Some(p);
  }

  method GeneratePacketTooBigV6(original: bytes, our: bytes, mtu: u32) returns (r: Option<bytes>)
    requires |our| == 16
    ensures r == Error6(original, our, 2, 0, mtu)
  {
    hide Icmp6Checksum, SetWord, Outer6, Body6;
    if IpVersion(original) != 6 || |original| < IPV6_HDR { return Option.None; }
    var p := Wrap6(2, 0, mtu, Quoted(original, IPV6_HDR), our, original[8..24]);
    r := Some(p);
  }
}
