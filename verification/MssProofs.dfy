/** What clamping does to a packet, as its receiver sees it. */
module MssProofs {
  import opened Bytes
  import opened Checksum
  import opened IpPacket
  import opened Mss
  import opened Wrappers

  /** The bytes that a rewrite of the option at `pos` may touch. */
  predicate Touched(version: u8, off: nat, pos: nat, i: nat) {
    || i == pos + 2 || i == pos + 3 || i == off + 16 || i == off + 17
    || (version == 4 && (i == 10 || i == 11))
  }

  ghost predicate SameBut(p: bytes, q: bytes, off: nat, pos: nat) {
    |q| == |p| && forall i: nat :: i < |p| && !Touched(IpVersion(p), off, pos, i) ==> q[i] == p[i]
  }

  lemma {:induction false} RecomputedFrame(p: bytes, off: nat, i: nat)
    requires off + TCP_MIN_HDR <= |p| && (IpVersion(p) == 4 ==> off >= IPV4_MIN_HDR)
    requires (IpVersion(p) == 6 ==> off >= IPV6_HDR) && i < |p|
    requires i != off + 16 && i != off + 17 && (IpVersion(p) == 4 ==> i != 10 && i != 11)
    ensures Recomputed(p, off)[i] == p[i]
  {
    hide HeaderChecksum, TcpChecksum, Pseudo4, Pseudo6, SetWord;
  }

  /** A rewrite touches the option and the checksums only, and the option then holds the target. */
  lemma {:induction false} RewriteFrame(p: bytes, target: u16)
    requires IsSyn(p) && MssAt(p).Some? && MssValue(p, MssAt(p).value) > target
    ensures var q := Clamp(p, target).packet; var pos := MssAt(p).value;
            SameBut(p, q, L4(p).off, pos) && MssValue(q, pos) == target
  {
    hide MssAt, L4, Recomputed, SetWord;
    TcpOffset(p);
    var pos, off := MssAt(p).value, L4(p).off;
    var r := SetWord(p, pos + 2, target);
    var q := Recomputed(r, off);
    assert IpVersion(r) == IpVersion(p);
    forall i: nat | i < |p| && !Touched(IpVersion(p), off, pos, i) ensures q[i] == p[i] { RecomputedFrame(r, off, i); }
    RecomputedFrame(r, off, pos + 2);
    RecomputedFrame(r, off, pos + 3);
    WordParts(target);
  }

  /** The option scan reads nothing after the kind and length of the option it finds. */
  lemma {:induction false} FindReads(p: bytes, q: bytes, pos: nat, end: nat)
    requires end <= |p| == |q| && FindMss(p, pos, end).Some?
    requires forall i :: pos <= i < FindMss(p, pos, end).value + 2 ==> q[i] == p[i]
    ensures FindMss(q, pos, end) == FindMss(p, pos, end)
    decreases end - pos
  {
    var m := FindMss(p, pos, end).value;
    assert q[pos] == p[pos];
    if p[pos] == 1 {
      FindReads(p, q, pos + 1, end);
    } else {
      assert q[pos + 1] == p[pos + 1];
      if !(p[pos] == 2 && p[pos + 1] == 4) { FindReads(p, q, pos + p[pos + 1], end); }
    }
  }

  /** A packet that differs only there has its transport header and its MSS option in the same places. */
  lemma {:induction false} SamePlaces(p: bytes, q: bytes)
    requires IsSyn(p) && MssAt(p).Some? && SameBut(p, q, L4(p).off, MssAt(p).value)
    ensures L4(q) == L4(p) && IsSyn(q) && MssAt(q) == MssAt(p) && IpVersion(q) == IpVersion(p) && Ihl(q) == Ihl(p)
  {
    hide L4;
    TcpOffset(p);
    var t, pos := L4(p), MssAt(p).value;
    assert q[0] == p[0];
    SameTransport(p, q, t, pos);
    assert q[t.off + 12] == p[t.off + 12] && q[t.off + 13] == p[t.off + 13];
    FindReads(p, q, t.off + TCP_MIN_HDR, t.off + TcpHeaderLen(p, t.off));
  }

  lemma {:induction false} SameTransport(p: bytes, q: bytes, t: Transport, pos: nat)
    requires L4(p) == t && t.proto == 6 && t.off + TCP_MIN_HDR <= pos && SameBut(p, q, t.off, pos)
    ensures L4(q) == t
  {
    TcpOffset(p);
    assert q[0] == p[0];
    if IpVersion(p) == 4 {
      assert q[9] == p[9];
    } else {
      assert q[6] == p[6];
      WalkReadsBefore(p, q, p[6], IPV6_HDR, 8);
    }
  }

  /** The TCP checksum of the packet is right: pseudo-header and segment sum to all ones. */
  ghost predicate TcpVerifies(p: bytes, off: nat)
    requires (IpVersion(p) == 4 && |p| >= IPV4_MIN_HDR) || (IpVersion(p) == 6 && |p| >= IPV6_HDR)
    requires off <= |p|
  {
    Joint(Pseudo(p, off), p[off..]) == 0xFFFF
  }

  lemma {:induction false} TcpFilled(pseudo: bytes, p: bytes, off: nat)
    requires off + TCP_MIN_HDR <= |p| <= MAX_SUMMED && |pseudo| <= 40
    ensures Joint(pseudo, SetWord(p, off + 16, TcpChecksum(pseudo, p, off))[off..]) == 0xFFFF
  {
    hide Joint;
    JointVerifies(pseudo, p[off..], 16);
    var c := TcpChecksum(pseudo, p, off);
    assert SetWord(p, off + 16, c)[off..] == SetWord(p[off..], 16, c);
  }

  lemma {:induction false} Pseudo4Stays(p: bytes, off: nat, w: u16)
    requires IPV4_MIN_HDR <= off && off + TCP_MIN_HDR <= |p|
    ensures Pseudo4(SetWord(p, off + 16, w), |p| - off) == Pseudo4(p, |p| - off)
  {
    hide SetWord, Be16;
    var q := SetWord(p, off + 16, w);
    assert q[12..16] == p[12..16] && q[16..20] == p[16..20];
  }

  lemma {:induction false} Pseudo6Stays(p: bytes, off: nat, w: u16)
    requires IPV6_HDR <= off && off + TCP_MIN_HDR <= |p|
    ensures Pseudo6(SetWord(p, off + 16, w), |p| - off, 6) == Pseudo6(p, |p| - off, 6)
  {
    hide SetWord, Be32;
    var q := SetWord(p, off + 16, w);
    assert q[8..24] == p[8..24] && q[24..40] == p[24..40];
  }

  /** After recomputation both checksums verify. */
  lemma {:induction false} RecomputedVerifies(p: bytes, off: nat)
    requires off + TCP_MIN_HDR <= |p| <= MAX_SUMMED
    requires (IpVersion(p) == 4 && Ihl(p) == off > 0) || (IpVersion(p) == 6 && off >= IPV6_HDR)
    ensures var q := Recomputed(p, off);
            && IpVersion(q) == IpVersion(p) && TcpVerifies(q, off)
            && (IpVersion(p) == 4 ==> OnesSum(q[..off]) == 0xFFFF)
  {
    hide Joint, Pseudo4, Pseudo6, TcpChecksum, HeaderChecksum, OnesSum, SetWord;
    if IpVersion(p) == 4 {
      var r := SetWord(p, 10, HeaderChecksum(p[..off]));
      HeaderVerifies(p, off);
      var c := TcpChecksum(Pseudo4(r, |r| - off), r, off);
      var q := SetWord(r, off + 16, c);
      Pseudo4Stays(r, off, c);
      TcpFilled(Pseudo4(r, |r| - off), r, off);
      assert q[..off] == r[..off];
    } else {
      var c := TcpChecksum(Pseudo6(p, |p| - off, 6), p, off);
      Pseudo6Stays(p, off, c);
      TcpFilled(Pseudo6(p, |p| - off, 6), p, off);
    }
  }

  lemma {:induction false} RewriteVerifies(p: bytes, target: u16)
    requires IsSyn(p) && MssAt(p).Some? && MssValue(p, MssAt(p).value) > target && |p| <= MAX_SUMMED
    ensures var q := Clamp(p, target).packet; var off := L4(p).off;
            && IpVersion(q) == IpVersion(p) && off <= |q|
            && (IpVersion(q) == 4 || (IpVersion(q) == 6 && |q| >= IPV6_HDR)) && |q| >= IPV4_MIN_HDR
            && TcpVerifies(q, off)
            && (IpVersion(p) == 4 ==> OnesSum(q[..off]) == 0xFFFF)
  {
    hide L4, MssAt, Recomputed, TcpVerifies, OnesSum, SetWord;
    TcpOffset(p);
    var off, r := L4(p).off, SetWord(p, MssAt(p).value + 2, target);
    assert IpVersion(r) == IpVersion(p) && (IpVersion(p) == 4 ==> Ihl(r) == Ihl(p));
    RecomputedVerifies(r, off);
  }

  /** Clamping, in the terms of a receiver. A packet that is not a SYN with an MSS option comes out unchanged;
      otherwise its MSS reads as the smaller of old and target, with every other option where it was. */
  lemma {:induction false} ClampMeaning(p: bytes, target: u16)
    ensures var c := Clamp(p, target);
            && (c.applies <==> IsSyn(p) && MssOf(p).Some?)
            && (!c.applies || MssOf(p).value <= target ==> c.packet == p)
            && (c.applies ==>
                  && IsSyn(c.packet) && MssAt(c.packet) == MssAt(p) && L4(c.packet) == L4(p)
                  && MssOf(c.packet) == Some(if MssOf(p).value <= target then MssOf(p).value else target)
                  && SameBut(p, c.packet, L4(p).off, MssAt(p).value))
  {
    hide L4, MssAt, Recomputed, IsSyn;
    if IsSyn(p) && MssAt(p).Some? && MssValue(p, MssAt(p).value) > target {
      RewriteFrame(p, target);
      SamePlaces(p, Clamp(p, target).packet);
    }
  }

  /** Clamping again, to the same or a larger target, does nothing. */
  lemma {:induction false} ClampIdempotent(p: bytes, target: u16, larger: u16)
    requires target <= larger
    ensures Clamp(Clamp(p, target).packet, larger).packet == Clamp(p, target).packet
  {
    hide Clamp, L4, MssAt, IsSyn, MssOf;
    ClampMeaning(p, target);
    ClampMeaning(Clamp(p, target).packet, larger);
  }
}
