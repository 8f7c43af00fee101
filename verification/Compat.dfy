/** The router-compatibility pipeline: time to live, path MTU, MSS. */
module Compat {
  import opened Bytes
  import opened Checksum
  import opened IpPacket
  import opened Mss
  import opened Icmp
  import opened Wrappers

  // ---- time to live ----

  datatype Decrement = Decrement(packet: bytes, alive: bool)

  /** One hop less; alive if hops remain. */
  function Decremented(p: bytes): (d: Decrement)
    ensures |d.packet| == |p|
  {
    if IpVersion(p) == 4 then
      if |p| < IPV4_MIN_HDR || p[8] == 0 then Decrement(p, false)
      else
        var q := p[8 := p[8] - 1];
        Decrement(SetWord(q, 10, HeaderChecksum(q)), p[8] > 1)
    else if IpVersion(p) == 6 then
      if |p| < IPV6_HDR || p[7] == 0 then Decrement(p, false)
      else Decrement(p[7 := p[7] - 1], p[7] > 1)
    else Decrement(p, false)
  }

  method DecrementTtl(p: array<u8>) returns (alive: bool)
    modifies p
    ensures Decrement(p[..], alive) == Decremented(old(p[..]))
  {
    hide HeaderChecksum, SetWord;
    var version := IpVersion(p[..]);
    if version == 4 {
      if p.Length < IPV4_MIN_HDR { return false; }
      var ttl := p[8];
      if ttl == 0 { return false; }
      p[8] := ttl - 1;
      ghost var q := p[..];
      assert p[..p.Length] == q;
      var cs := IpHeaderChecksum(p, p.Length);
      Store(p, 10, cs);
      SetTwice(q, 10, 0, cs);
      alive := ttl - 1 > 0;
    } else if version == 6 {
      if p.Length < IPV6_HDR { return false; }
      var hops := p[7];
      if hops == 0 { return false; }
      p[7] := hops - 1;
      alive := hops - 1 > 0;
    } else {
      alive := false;
    }
  }

  /** Group addresses, and IPv4 addresses that may be directed broadcasts. */
  predicate IsMulticastOrBroadcast(p: bytes) {
    || (IpVersion(p) == 4 && |p| >= IPV4_MIN_HDR
        && (p[16] / 16 == 14 || p[16..20] == [255, 255, 255, 255] || (p[19] == 255 && p[16] != 0)))
    || (IpVersion(p) == 6 && |p| >= IPV6_HDR && p[24] == 255)
  }

  // ---- the pipeline ----

  datatype Outcome = Forward | InjectIcmp(packet: bytes) | Drop

  datatype Processed = Processed(packet: bytes, outcome: Outcome)

  function Injected(e: Option<bytes>): Outcome {
    match e case Some(q) => InjectIcmp(q) case None => Drop
  }

  /** The user's MSS, or what fits the MTU, cut to sixteen bits. */
  function Target(version: u8, mtu: nat, mss: Option<u16>): u16 {
    match mss
    case Some(v) => v
    case None => var headers := if version == 6 then 60 else 40; (if mtu < headers then 0 else mtu - headers) % 0x1_0000
  }

  function Outbound(p: bytes, mtu: nat, mss: Option<u16>, our4: bytes, our6: Option<bytes>): Processed
    requires |our4| == 4 && (our6.Some? ==> |our6.value| == 16)
  {
    var version := IpVersion(p);
    if (version != 4 && version != 6) || IsMulticastOrBroadcast(p) then Processed(p, Forward)
    else
      var d := Decremented(p);
      if !d.alive then
        Processed(d.packet,
                  if version == 4 then Injected(Error4(d.packet, our4, 11, 0, 0))
                  else if our6.Some? then Injected(Error6(d.packet, our6.value, 3, 0, 0)) else Drop)
      else if version == 4 && DfSet(d.packet) && |p| > mtu then
        Processed(d.packet, Injected(Error4(d.packet, our4, 3, 4, mtu % 0x1_0000)))
      else if version == 6 && |p| > mtu then
        Processed(d.packet,
                  if our6.Some? then Injected(Error6(d.packet, our6.value, 2, 0, mtu % 0x1_0000_0000)) else Drop)
      else Processed(Clamp(d.packet, Target(version, mtu, mss)).packet, Forward)
  }

  method ProcessOutbound(packet: array<u8>, mtu: nat, mss: Option<u16>, our4: bytes, our6: Option<bytes>)
    returns (outcome: Outcome)
    requires |our4| == 4 && (our6.Some? ==> |our6.value| == 16)
    modifies packet
    ensures Processed(packet[..], outcome) == Outbound(old(packet[..]), mtu, mss, our4, our6)
  {
    hide Decremented, Clamp, Error4, Error6;
    var version := IpVersion(packet[..]);
    if version != 4 && version != 6 { return Forward; }
    if IsMulticastOrBroadcast(packet[..]) { return Forward; }
    var alive := DecrementTtl(packet);
    if !alive {
      var icmp := Option.None;
      if version == 4 {
        icmp := GenerateTimeExceededV4(packet[..], our4);
      } else if our6.Some? {
        icmp := GenerateTimeExceededV6(packet[..], our6.value);
      }
      return Injected(icmp);
    }
    if version == 4 && DfSet(packet[..]) && packet.Length > mtu {
      var icmp := GenerateFragNeededV4(packet[..], our4, mtu % 0x1_0000);
      return Injected(icmp);
    }
    if version == 6 && packet.Length > mtu {
      if our6.Some? {
        var icmp := GeneratePacketTooBigV6(packet[..], our6.value, mtu % 0x1_0000_0000);
        return Injected(icmp);
      }
      return Drop;
    }
    var _ := ClampMss(packet, Target(version, mtu, mss));
    outcome := Forward;
  }

  method ProcessInbound(packet: array<u8>, mtu: nat, mss: Option<u16>)
    modifies packet
    ensures packet[..] == Clamp(old(packet[..]), Target(IpVersion(old(packet[..])), mtu, mss)).packet
  {
    var version := IpVersion(packet[..]);
    var _ := ClampMss(packet, Target(version, mtu, mss));
  }
}
