/** What the pipeline promises of a packet it forwards, and of a packet it sends back. */
module CompatProofs {
  import opened Bytes
  import opened Checksum
  import opened IpPacket
  import opened Mss
  import opened MssProofs
  import opened Icmp
  import opened Compat
  import opened Wrappers

  // ---- decrementing keeps everything behind the IP header in place ----

  lemma {:induction false} WalkSame(p: bytes, q: bytes, next: u8, off: nat, n: nat)
    requires off <= |p| == |q| && forall i :: off <= i < |p| ==> q[i] == p[i]
    ensures Walk(q, next, off, n) == Walk(p, next, off, n)
    decreases n
  {
    if n > 0 && Walked(next) && ExtLen(p, next, off) != 0 {
      WalkSame(p, q, p[off], off + ExtLen(p, next, off), n - 1);
    }
  }

  lemma {:induction false} FindSame(p: bytes, q: bytes, pos: nat, end: nat)
    requires end <= |p| == |q| && forall i :: pos <= i < end ==> q[i] == p[i]
    ensures FindMss(q, pos, end) == FindMss(p, pos, end)
    decreases end - pos
  {
    if pos < end && p[pos] != 0 {
      if p[pos] == 1 { FindSame(p, q, pos + 1, end); }
      else if pos + 1 < end && p[pos + 1] != 0 && pos + p[pos + 1] <= end {
        FindSame(p, q, pos + p[pos + 1], end);
      }
    }
  }

  /** The bytes a decrement writes. */
  predicate HopByte(version: u8, i: nat) {
    if version == 4 then i == 8 || i == 10 || i == 11 else i == 7
  }

  lemma {:induction false} DecrementFrame(p: bytes)
    ensures var q := Decremented(p).packet;
            |q| == |p| && forall i: nat :: i < |p| && !HopByte(IpVersion(p), i) ==> q[i] == p[i]
  {
    hide HeaderChecksum, SetWord;
  }

  lemma {:induction false} DecrementTransport(p: bytes)
    ensures var q := Decremented(p).packet;
            && IpVersion(q) == IpVersion(p) && Ihl(q) == Ihl(p) && L4(q) == L4(p)
  {
    hide Decremented;
    DecrementFrame(p);
    var q := Decremented(p).packet;
    if p != [] { assert q[0] == p[0]; }
    if IpVersion(p) == 4 && Ihl(p) > 0 { assert q[9] == p[9]; }
    if IpVersion(p) == 6 && |p| >= IPV6_HDR {
      assert q[6] == p[6];
      WalkSame(p, q, p[6], IPV6_HDR, 8);
    }
  }

  lemma {:induction false} DecrementKeepsMss(p: bytes)
    ensures var q := Decremented(p).packet;
            IsSyn(q) == IsSyn(p) && MssAt(q) == MssAt(p) && MssOf(q) == MssOf(p)
  {
    hide Decremented, L4, MssAt;
    DecrementFrame(p);
    DecrementTransport(p);
    var q := Decremented(p).packet;
    if L4(p).proto == 6 { TcpOffset(p); }
    assert forall i: nat :: L4(p).proto == 6 && L4(p).off <= i < |p| ==> q[i] == p[i];
    OptionsSame(p, q);
    if MssAt(p).Some? { assert MssValue(q, MssAt(p).value) == MssValue(p, MssAt(p).value); }
  }

  lemma {:induction false} OptionsSame(p: bytes, q: bytes)
    requires |q| == |p| && L4(q) == L4(p)
    requires L4(p).proto == 6 ==> forall i: nat :: L4(p).off <= i < |p| ==> q[i] == p[i]
    ensures IsSyn(q) == IsSyn(p) && MssAt(q) == MssAt(p)
  {
    hide L4, FindMss;
    var t := L4(p);
    if t.proto == 6 && |p| >= t.off + TCP_MIN_HDR {
      assert q[t.off + 12] == p[t.off + 12] && q[t.off + 13] == p[t.off + 13];
      if |p| >= t.off + TcpHeaderLen(p, t.off) {
        FindSame(p, q, t.off + TCP_MIN_HDR, t.off + TcpHeaderLen(p, t.off));
      }
    }
  }

  // ---- the outcome, decided by fields of the packet ----

  /** Hops left in a whole header. */
  function Hops(p: bytes): nat {
    if IpVersion(p) == 4 && |p| >= IPV4_MIN_HDR then p[8]
    else if IpVersion(p) == 6 && |p| >= IPV6_HDR then p[7]
    else 0
  }

  predicate WholeHeader(p: bytes) {
    (IpVersion(p) == 4 && |p| >= IPV4_MIN_HDR) || (IpVersion(p) == 6 && |p| >= IPV6_HDR)
  }

  /** Packets that pass without being touched. */
  predicate Untouched(p: bytes) {
    (IpVersion(p) != 4 && IpVersion(p) != 6) || IsMulticastOrBroadcast(p)
  }

  /** Packets that must not be fragmented and do not fit. */
  predicate TooBig(p: bytes, mtu: nat) {
    |p| > mtu && (IpVersion(p) == 6 || DfSet(p))
  }

  lemma {:induction false} DecrementDecides(p: bytes)
    ensures Decremented(p).alive <==> WholeHeader(p) && Hops(p) > 1
    ensures WholeHeader(p) && Hops(p) > 0 ==> Hops(Decremented(p).packet) == Hops(p) - 1
    ensures DfSet(Decremented(p).packet) == DfSet(p)
  {
    hide HeaderChecksum, SetWord;
    DecrementTransport(p);
  }

  /** Forwarded, dropped or answered: exactly when. */
  lemma {:induction false} OutcomeDecided(p: bytes, mtu: nat, mss: Option<u16>, our4: bytes, our6: Option<bytes>)
    requires |our4| == 4 && (our6.Some? ==> |our6.value| == 16)
    ensures var o := Outbound(p, mtu, mss, our4, our6).outcome;
            && (o.Forward? <==> Untouched(p) || (WholeHeader(p) && Hops(p) > 1 && !TooBig(p, mtu)))
            && (o.Drop? <==> !o.Forward? && (!WholeHeader(p) || (IpVersion(p) == 6 && our6 == Option.None)))
            && (Untouched(p) ==> Outbound(p, mtu, mss, our4, our6).packet == p)
  {
    hide Decremented, Error4, Error6, OnesSum, Joint, Quoted, Clamp, IsMulticastOrBroadcast;
    DecrementDecides(p);
    DecrementTransport(p);
    var d := Decremented(p).packet;
    Error4IsValid(d, our4, 11, 0, 0);
    Error4IsValid(d, our4, 3, 4, mtu % 0x1_0000);
    if our6.Some? {
      Error6IsValid(d, our6.value, 3, 0, 0);
      Error6IsValid(d, our6.value, 2, 0, mtu % 0x1_0000_0000);
    }
  }

  // ---- forwarded packets ----

  lemma {:induction false} ForwardedIs(p: bytes, mtu: nat, mss: Option<u16>, our4: bytes, our6: Option<bytes>)
    requires |our4| == 4 && (our6.Some? ==> |our6.value| == 16)
    requires Outbound(p, mtu, mss, our4, our6).outcome.Forward? && !Untouched(p)
    ensures Outbound(p, mtu, mss, our4, our6).packet
         == Clamp(Decremented(p).packet, Target(IpVersion(p), mtu, mss)).packet
    ensures WholeHeader(p) && Hops(p) > 1 && !TooBig(p, mtu)
  {
    hide Decremented, Error4, Error6, Clamp, IsMulticastOrBroadcast, Hops;
    OutcomeDecided(p, mtu, mss, our4, our6);
  }

  /** The header checksum of a decremented packet. */
  lemma {:induction false} DecrementVerifies(p: bytes)
    requires Ihl(p) > 0 && p[8] > 0
    ensures OnesSum(Decremented(p).packet[..Ihl(p)]) == 0xFFFF
  {
    hide OnesSum, HeaderChecksum, SetWord;
    var q := p[8 := p[8] - 1];
    assert Ihl(q) == Ihl(p);
    assert q[..|q|] == q;
    HeaderVerifies(q, |q|);
  }

  /** A clamp keeps the header checksum right. */
  lemma {:induction false} ClampKeepsHeader(p: bytes, target: u16)
    requires Ihl(p) > 0 && OnesSum(p[..Ihl(p)]) == 0xFFFF
    ensures OnesSum(Clamp(p, target).packet[..Ihl(p)]) == 0xFFFF
  {
    if IsSyn(p) && MssAt(p).Some? && MssValue(p, MssAt(p).value) > target {
      TcpOffset(p);
      hide L4, MssAt, OnesSum, HeaderChecksum, TcpChecksum, Pseudo4, SetWord;
      var off, r := L4(p).off, SetWord(p, MssAt(p).value + 2, target);
      assert Ihl(r) == off;
      HeaderVerifies(r, off);
      var q := SetWord(r, 10, HeaderChecksum(r[..off]));
      assert Recomputed(r, off)[..off] == q[..off];
    }
  }

  /** A forwarded packet has exactly one hop less and still some, fits where it must, and an IPv4 packet with a
      valid IHL has a header checksum that verifies. */
  lemma {:induction false} ForwardedHeader(p: bytes, mtu: nat, mss: Option<u16>, our4: bytes, our6: Option<bytes>)
    requires |our4| == 4 && (our6.Some? ==> |our6.value| == 16)
    requires Outbound(p, mtu, mss, our4, our6).outcome.Forward? && !Untouched(p)
    ensures var q := Outbound(p, mtu, mss, our4, our6).packet;
            && |q| == |p| && IpVersion(q) == IpVersion(p) && Hops(q) == Hops(p) - 1 && Hops(q) > 0
            && !TooBig(p, mtu)
            && (Ihl(p) > 0 ==> Ihl(q) == Ihl(p) && OnesSum(q[..Ihl(q)]) == 0xFFFF)
  {
    hide Decremented, Clamp, OnesSum, Outbound, Target;
    ForwardedIs(p, mtu, mss, our4, our6);
    var d, target := Decremented(p).packet, Target(IpVersion(p), mtu, mss);
    DecrementDecides(p);
    DecrementTransport(p);
    if Ihl(p) > 0 {
      DecrementVerifies(p);
      ClampKeepsHeader(d, target);
    }
    ClampMeaning(d, target);
    ClampStays(d, target);
  }

  lemma {:induction false} ClampStays(p: bytes, target: u16)
    ensures var q := Clamp(p, target).packet;
            |q| == |p| && IpVersion(q) == IpVersion(p) && Hops(q) == Hops(p) && Ihl(q) == Ihl(p)
  {
    ClampMeaning(p, target);
    var q := Clamp(p, target).packet;
    if q != p {
      TcpOffset(p);
      hide Clamp, L4, MssAt, MssOf, IsSyn;
      assert q[0] == p[0];
      assert IpVersion(p) == 4 ==> q[8] == p[8];
      assert IpVersion(p) == 6 ==> q[7] == p[7];
    }
  }

  /** A forwarded packet differs from the original in its hop count, its checksums and its MSS value only; the MSS
      of a SYN reads as the smaller of old and target; and if it was rewritten the TCP checksum verifies. */
  lemma {:induction false} ForwardedContents(p: bytes, mtu: nat, mss: Option<u16>, our4: bytes, our6: Option<bytes>)
    requires |our4| == 4 && (our6.Some? ==> |our6.value| == 16)
    requires Outbound(p, mtu, mss, our4, our6).outcome.Forward? && !Untouched(p)
    ensures var q := Outbound(p, mtu, mss, our4, our6).packet; var target := Target(IpVersion(p), mtu, mss);
            && |q| == |p| && L4(q) == L4(p)
            && (forall i: nat :: i < |p| && q[i] != p[i] ==>
                  || HopByte(IpVersion(p), i)
                  || (IsSyn(p) && MssOf(p).Some? && MssOf(p).value > target
                      && Touched(IpVersion(p), L4(p).off, MssAt(p).value, i)))
            && (IsSyn(p) && MssOf(p).Some? ==>
                  MssOf(q) == Some(if MssOf(p).value <= target then MssOf(p).value else target))
            && (IsSyn(p) && MssOf(p).Some? && MssOf(p).value > target && |p| <= MAX_SUMMED ==>
                  WholeHeader(q) && TcpVerifies(q, L4(q).off))
  {
    hide Decremented, Clamp, OnesSum, Outbound, Target, L4, IsSyn, MssAt, TcpVerifies, HopByte, Touched, Hops;
    ForwardedIs(p, mtu, mss, our4, our6);
    var d, target := Decremented(p).packet, Target(IpVersion(p), mtu, mss);
    DecrementFrame(p);
    DecrementTransport(p);
    DecrementKeepsMss(p);
    ClampMeaning(d, target);
    if IsSyn(d) && MssAt(d).Some? && MssValue(d, MssAt(d).value) > target && |d| <= MAX_SUMMED {
      RewriteVerifies(d, target);
    }
  }

  // ---- answers ----

  /** An answer to an IPv4 packet is a valid ICMP error from our address to its sender: time exceeded if the hops
      ran out, otherwise fragmentation needed with the MTU; at most 96 bytes; quoting the decremented packet. */
  lemma {:induction false} AnswerIsValid4(p: bytes, mtu: nat, mss: Option<u16>, our4: bytes, our6: Option<bytes>)
    requires |our4| == 4 && (our6.Some? ==> |our6.value| == 16)
    requires Outbound(p, mtu, mss, our4, our6).outcome.InjectIcmp? && IpVersion(p) == 4
    ensures !IsMulticastOrBroadcast(p) && |p| >= IPV4_MIN_HDR
    ensures var e := Outbound(p, mtu, mss, our4, our6).outcome.packet;
            && 36 <= |e| <= 96 && Ihl(e) == 20 && e[9] == 1 && e[12..16] == our4 && e[16..20] == p[12..16]
            && OnesSum(e[..20]) == 0xFFFF && OnesSum(e[20..]) == 0xFFFF
            && (if Hops(p) <= 1 then e[20] == 11 && e[21] == 0
                else e[20] == 3 && e[21] == 4 && e[26..28] == Be16(mtu % 0x1_0000) && TooBig(p, mtu))
            && e[28..] == Quoted(Decremented(p).packet, Ihl(p))
            && (e[28..] == Quoted(p, Ihl(p)) <==> Hops(p) == 0 || Ihl(p) == 0)
  {
    hide Decremented, Error4, Error6, OnesSum, Quoted, Clamp, IsMulticastOrBroadcast, Be16;
    QuoteChanges4(p);
    OutcomeDecided(p, mtu, mss, our4, our6);
    DecrementDecides(p);
    DecrementTransport(p);
    var d := Decremented(p).packet;
    SourceStays4(p);
    Error4IsValid(d, our4, 11, 0, 0);
    Error4IsValid(d, our4, 3, 4, mtu % 0x1_0000);
  }

  /** The quote is that of the packet as it arrived only if the hop count was zero, or if the header length is
      malformed and the quote ends before the hop count. */
  lemma {:induction false} QuoteChanges4(p: bytes)
    requires IpVersion(p) == 4
    ensures |p| >= IPV4_MIN_HDR ==>
              (Quoted(Decremented(p).packet, Ihl(p)) == Quoted(p, Ihl(p)) <==> Hops(p) == 0 || Ihl(p) == 0)
  {
    hide SetWord, HeaderChecksum;
    var d := Decremented(p).packet;
    DecrementFrame(p);
    if |p| >= IPV4_MIN_HDR {
      if Ihl(p) == 0 {
        forall i: nat | i < 8 ensures d[i] == p[i] {}
      } else if Hops(p) > 0 {
        HopGone4(p);
        assert Quoted(d, Ihl(p))[8] == d[8] && Quoted(p, Ihl(p))[8] == p[8];
      }
    }
  }

  lemma {:induction false} HopGone4(p: bytes)
    requires IpVersion(p) == 4 && |p| >= IPV4_MIN_HDR && p[8] > 0
    ensures Decremented(p).packet[8] == p[8] - 1
  {
    hide HeaderChecksum;
  }

  lemma {:induction false} SourceStays4(p: bytes)
    requires IpVersion(p) == 4 && |p| >= IPV4_MIN_HDR
    ensures |Decremented(p).packet| == |p| && Decremented(p).packet[12..16] == p[12..16]
  {
    hide Decremented;
    DecrementFrame(p);
  }

  /** The same for IPv6, whose checksum covers the pseudo-header. */
  lemma {:induction false} AnswerIsValid6(p: bytes, mtu: nat, mss: Option<u16>, our4: bytes, our6: Option<bytes>)
    requires |our4| == 4 && (our6.Some? ==> |our6.value| == 16)
    requires Outbound(p, mtu, mss, our4, our6).outcome.InjectIcmp? && IpVersion(p) == 6
    ensures !IsMulticastOrBroadcast(p) && |p| >= IPV6_HDR && our6.Some?
    ensures var e := Outbound(p, mtu, mss, our4, our6).outcome.packet;
            && 88 <= |e| <= 96 && IpVersion(e) == 6 && e[6] == 58 && e[8..24] == our6.value && e[24..40] == p[8..24]
            && Joint(Pseudo6(e, |e| - 40, 58), e[40..]) == 0xFFFF
            && (if Hops(p) <= 1 then e[40] == 3 && e[41] == 0
                else e[40] == 2 && e[41] == 0 && e[44..48] == Be32(mtu % 0x1_0000_0000) && |p| > mtu)
            && e[48..] == Quoted(Decremented(p).packet, IPV6_HDR)
            && (e[48..] == Quoted(p, IPV6_HDR) <==> Hops(p) == 0)
  {
    hide Decremented, Error6, Outbound, Joint, Pseudo6, Quoted, IsMulticastOrBroadcast, Be32, Hops;
    AnswerIs6(p, mtu, mss, our4, our6);
    DecrementTransport(p);
    SourceStays6(p);
    QuoteChanges6(p);
    var d := Decremented(p).packet;
    if Hops(p) <= 1 {
      Error6IsValid(d, our6.value, 3, 0, 0);
    } else {
      Error6IsValid(d, our6.value, 2, 0, mtu % 0x1_0000_0000);
    }
  }

  lemma {:induction false} QuoteChanges6(p: bytes)
    requires IpVersion(p) == 6 && |p| >= IPV6_HDR
    ensures Quoted(Decremented(p).packet, IPV6_HDR) == Quoted(p, IPV6_HDR) <==> Hops(p) == 0
  {
    var d := Decremented(p).packet;
    if Hops(p) > 0 {
      assert Quoted(d, IPV6_HDR)[7] == d[7] && Quoted(p, IPV6_HDR)[7] == p[7];
    }
  }

  /** Which error an IPv6 packet is answered with. */
  lemma {:induction false} AnswerIs6(p: bytes, mtu: nat, mss: Option<u16>, our4: bytes, our6: Option<bytes>)
    requires |our4| == 4 && (our6.Some? ==> |our6.value| == 16)
    requires Outbound(p, mtu, mss, our4, our6).outcome.InjectIcmp? && IpVersion(p) == 6
    ensures !IsMulticastOrBroadcast(p) && |p| >= IPV6_HDR && our6.Some? && (Hops(p) > 1 ==> |p| > mtu)
    ensures var d := Decremented(p).packet;
            Outbound(p, mtu, mss, our4, our6).outcome
            == Injected(if Hops(p) <= 1 then Error6(d, our6.value, 3, 0, 0)
                        else Error6(d, our6.value, 2, 0, mtu % 0x1_0000_0000))
  {
    hide Decremented, Error4, Error6, Clamp, IsMulticastOrBroadcast, Target;
    OutcomeDecided(p, mtu, mss, our4, our6);
    DecrementDecides(p);
  }

  lemma {:induction false} SourceStays6(p: bytes)
    requires IpVersion(p) == 6 && |p| >= IPV6_HDR
    ensures |Decremented(p).packet| == |p| && Decremented(p).packet[8..24] == p[8..24]
  {
    hide Decremented;
    DecrementFrame(p);
  }
}
