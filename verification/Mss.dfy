/** Clamping the TCP maximum segment size (section 3.2 of RFC 9293) in place. */
module Mss {
  import opened Bytes
  import opened Checksum
  import opened IpPacket
  import opened Wrappers

  predicate SynSet(flags: u8) {
    flags / 2 % 2 == 1
  }

  /** Position of the MSS option among the options in `pos..end`. */
  function FindMss(p: bytes, pos: nat, end: nat): (r: Option<nat>)
    requires end <= |p|
    ensures r.Some? ==> pos <= r.value && r.value + 4 <= end
    decreases end - pos
  {
    if pos >= end || p[pos] == 0 then Option.None
    else if p[pos] == 1 then FindMss(p, pos + 1, end)
    else if pos + 1 >= end || p[pos + 1] == 0 || pos + p[pos + 1] > end then Option.None
    else if p[pos] == 2 && p[pos + 1] == 4 then Some(pos)
    else FindMss(p, pos + p[pos + 1], end)
  }

  /** TCP header length from its data offset. */
  function TcpHeaderLen(p: bytes, off: nat): nat
    requires off + TCP_MIN_HDR <= |p|
  {
    4 * (p[off + 12] / 16 as nat)
  }

  /** Where the MSS option of a TCP packet is. */
  function MssAt(p: bytes): (r: Option<nat>)
    ensures r.Some? ==> L4(p).off + TCP_MIN_HDR <= r.value && r.value + 4 <= |p|
  {
    var t := L4(p);
    if t.proto != 6 || |p| < t.off + TCP_MIN_HDR then Option.None
    else if TcpHeaderLen(p, t.off) < TCP_MIN_HDR || |p| < t.off + TcpHeaderLen(p, t.off) then Option.None
    else FindMss(p, t.off + TCP_MIN_HDR, t.off + TcpHeaderLen(p, t.off))
  }

  function MssValue(p: bytes, pos: nat): u16
    requires pos + 4 <= |p|
  {
    Word16(p[pos + 2], p[pos + 3])
  }

  /** The MSS a receiver of the packet reads. */
  function MssOf(p: bytes): Option<u16> {
    match MssAt(p) case Some(pos) => Some(MssValue(p, pos)) case None => Option.None
  }

  predicate IsSyn(p: bytes) {
    L4(p).proto == 6 && |p| >= L4(p).off + TCP_MIN_HDR && SynSet(p[L4(p).off + 13])
  }

  /** Both checksums made right again. */
  function Recomputed(p: bytes, off: nat): (r: bytes)
    requires off + TCP_MIN_HDR <= |p| && (IpVersion(p) == 4 ==> off >= IPV4_MIN_HDR)
          && (IpVersion(p) == 6 ==> off >= IPV6_HDR)
    ensures |r| == |p|
  {
    if IpVersion(p) == 4 then
      var q := SetWord(p, 10, HeaderChecksum(p[..off]));
      SetWord(q, off + 16, TcpChecksum(Pseudo4(q, |q| - off), q, off))
    else if IpVersion(p) == 6 then
      SetWord(p, off + 16, TcpChecksum(Pseudo6(p, |p| - off, 6), p, off))
    else p
  }

  datatype Clamping = Clamping(packet: bytes, applies: bool)

  /** TCP sits behind a whole IP header. */
  lemma {:induction false} TcpOffset(p: bytes)
    requires L4(p).proto == 6
    ensures IpVersion(p) == 4 || IpVersion(p) == 6
    ensures IpVersion(p) == 4 ==> L4(p).off == Ihl(p) && Ihl(p) >= IPV4_MIN_HDR
    ensures IpVersion(p) == 6 ==> |p| >= IPV6_HDR && L4(p).off >= IPV6_HDR && L4(p) == Walk(p, p[6], IPV6_HDR, 8)
  {
    hide Walk;
  }

  function Clamp(p: bytes, target: u16): Clamping {
    if !IsSyn(p) then Clamping(p, false)
    else match MssAt(p)
      case None => Clamping(p, false)
      case Some(pos) =>
        if MssValue(p, pos) <= target then Clamping(p, true)
        else
          TcpOffset(p);
          Clamping(Recomputed(SetWord(p, pos + 2, target), L4(p).off), true)
  }

  lemma {:induction false} ClampCases(p: bytes, target: u16)
    ensures !IsSyn(p) || MssAt(p) == Option.None ==> Clamp(p, target) == Clamping(p, false)
    ensures IsSyn(p) && MssAt(p).Some? && MssValue(p, MssAt(p).value) <= target ==>
              Clamp(p, target) == Clamping(p, true)
    ensures IsSyn(p) && MssAt(p).Some? && MssValue(p, MssAt(p).value) > target ==>
              && (IpVersion(p) == 4 ==> L4(p).off >= IPV4_MIN_HDR) && (IpVersion(p) == 6 ==> L4(p).off >= IPV6_HDR)
              && Clamp(p, target) == Clamping(Recomputed(SetWord(p, MssAt(p).value + 2, target), L4(p).off), true)
  {
    hide L4, MssAt, Recomputed, SetWord;
    if IsSyn(p) { TcpOffset(p); }
  }

  // ---- the program ----

  /** The option loop that reading and clamping share. */
  method ScanOptions(p: bytes, start: nat, end: nat) returns (r: Option<nat>)
    requires end <= |p|
    ensures r == FindMss(p, start, end)
  {
    var pos := start;
    while pos < end
      invariant FindMss(p, pos, end) == FindMss(p, start, end)
      decreases end - pos
    {
      var kind := p[pos];
      if kind == 0 { break; }
      if kind == 1 {
        pos := pos + 1;
        continue;
      }
      if pos + 1 >= end { break; }
      var len: nat := p[pos + 1];
      if len == 0 || pos + len > end { break; }
      if kind == 2 && len == 4 { return Some(pos); }
      pos := pos + len;
    }
    r := Option.None;
  }

  method ReadMss(p: bytes) returns (r: Option<u16>)
    ensures r == MssOf(p)
  {
    hide L4, FindMss;
    var proto, off := LocateL4(p);
    if proto != 6 || |p| < off + TCP_MIN_HDR { return Option.None; }
    var dataOff := 4 * (p[off + 12] / 16 as nat);
    if dataOff < TCP_MIN_HDR || |p| < off + dataOff { return Option.None; }
    var found := ScanOptions(p, off + TCP_MIN_HDR, off + dataOff);
    match found {
      case Some(pos) => r := Some(Word16(p[pos + 2], p[pos + 3]));
      case None => r := Option.None;
    }
  }

  method ClampMss(packet: array<u8>, target: u16) returns (applies: bool)
    modifies packet
    ensures Clamping(packet[..], applies) == Clamp(old(packet[..]), target)
  {
    hide Recomputed, L4, Clamp, SetWord, Word16, FindMss;
    ClampCases(packet[..], target);
    var proto, off := LocateL4(packet[..]);
    if proto != 6 { return false; }
    if packet.Length < off + TCP_MIN_HDR { return false; }
    if !SynSet(packet[off + 13]) { return false; }
    var dataOff := 4 * (packet[off + 12] / 16 as nat);
    if dataOff < TCP_MIN_HDR || packet.Length < off + dataOff { return false; }
    var found := ScanOptions(packet[..], off + TCP_MIN_HDR, off + dataOff);
    if found == Option.None { return false; }
    var pos := found.value;
    var current := Word16(packet[pos + 2], packet[pos + 3]);
    if current > target {
      ghost var was := packet[..];
      Store(packet, pos + 2, target);
      assert IpVersion(packet[..]) == IpVersion(was);
      RecomputeChecksums(packet, off);
    }
    applies := true;
  }

  method RecomputeChecksums(packet: array<u8>, off: nat)
    requires off + TCP_MIN_HDR <= packet.Length
    requires IpVersion(packet[..]) == 4 ==> off >= IPV4_MIN_HDR
    requires IpVersion(packet[..]) == 6 ==> off >= IPV6_HDR
    modifies packet
    ensures packet[..] == Recomputed(old(packet[..]), off)
  {
    hide HeaderChecksum, Joint, TcpChecksum, Pseudo4, Pseudo6, SetWord;
    ghost var was := packet[..];
    assert was[..off] == packet[..off];
    var version := IpVersion(packet[..]);
    if version == 4 {
      var cs := IpHeaderChecksum(packet, off);
      ghost var cleared := packet[..];
      Store(packet, 10, cs);
      SetTwice(was, 10, 0, cs);
      assert packet[..] == SetWord(was, 10, cs);
      var tcpCs := TcpChecksumV4(packet[..], off);
      Store(packet, off + 16, tcpCs);
    } else if version == 6 {
      var tcpCs := TcpChecksumV6(packet[..], off);
      Store(packet, off + 16, tcpCs);
    }
  }
}
