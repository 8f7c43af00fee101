/** When splitting succeeds, and what every fragment is. */
module SplitProofs {
  import opened Bytes
  import opened Header
  import opened Encode
  import opened Decode
  import opened Fragment
  import opened RoundTrip
  import opened Wrappers

  /** A decoded packet that is not a fragment, with split parameters the splitter accepts. */
  ghost predicate Splittable(j: Job) {
    && Refusal(j.header) == Option.None
    && ValidChain(j.header.extHeaders) && !CarriesFragment(j.header.extHeaders)
    && 0 < |j.payload| == j.header.payloadLen
    && 8 <= j.chunk && j.chunk % 8 == 0
    && |j.header.extHeaders| < MAX_EXT_CHAIN
    && BASE_HEADER_SIZE + FRAG_EXT_WIRE + ChainSize(j.header.extHeaders) + Min(j.chunk, |j.payload|) <= MAX_PACKET_LEN
  }

  /** A flag word by its fields: reserved bits, extension bit, fragment bit, the rest. */
  function Flags(reserved: nat, x: nat, f: nat, low: nat): u16
    requires reserved < 512 && x <= 1 && f <= 1 && low < 32
  {
    128 * reserved + 64 * x + 32 * f + low
  }

  lemma {:induction false} FlagBits(reserved: nat, x: nat, f: nat, low: nat)
    requires reserved < 512 && x <= 1 && f <= 1 && low < 32
    ensures var w := Flags(reserved, x, f, low);
            HasFragment(w) == (f == 1) && HasExtension(w) == (x == 1) && ReservedOk(w) == (reserved == 0)
  {
    var w := Flags(reserved, x, f, low);
    assert w / 32 == 4 * reserved + 2 * x + f;
    assert w / 64 == 2 * reserved + x;
  }

  lemma {:induction false} FlagsCompose(reserved: nat, x: nat, f: nat, low: nat)
    requires reserved < 512 && x <= 1 && f <= 1 && low < 32
    ensures var w := Flags(reserved, x, f, low);
            && HasFragment(w) == (f == 1) && HasExtension(w) == (x == 1) && ReservedOk(w) == (reserved == 0)
            && ClearFragment(w) == Flags(reserved, x, 0, low) && SetFragment(w) == Flags(reserved, x, 1, low)
            && ClearExtension(w) == Flags(reserved, 0, f, low) && SetExtension(w) == Flags(reserved, 1, f, low)
  {
    hide HasFragment, HasExtension, ReservedOk;
    FlagBits(reserved, x, f, low);
  }

  lemma {:induction false} FlagsDecompose(w: u16) returns (reserved: nat, x: nat, f: nat, low: nat)
    ensures reserved < 512 && x <= 1 && f <= 1 && low < 32 && w == Flags(reserved, x, f, low)
  {
    reserved, x, f, low := w / 128, w / 64 % 2, w / 32 % 2, w % 32;
    assert w == 32 * (w / 32) + low && w / 32 == 2 * (w / 64) + f && w / 64 == 2 * (w / 128) + x;
  }

  lemma {:induction false} FlagFacts(flags: u16)
    ensures var w := SetFragment(SetExtension(ClearFragment(ClearExtension(flags))));
            && (ReservedOk(w) <==> ReservedOk(flags)) && HasFragment(w) && HasExtension(w)
            && ClearExtension(ClearFragment(w)) == ClearFragment(ClearExtension(flags))
            && w == SetFragment(SetExtension(ClearFragment(ClearExtension(flags))))
    ensures ClearFragment(ClearExtension(flags)) == ClearExtension(ClearFragment(flags))
  {
    hide HasFragment, HasExtension, ReservedOk, ClearFragment, ClearExtension, SetFragment, SetExtension, Flags;
    var r, x, f, low := FlagsDecompose(flags);
    FlagsCompose(r, x, f, low);
    FlagsCompose(r, x, 0, low);
    FlagsCompose(r, 0, f, low);
    FlagsCompose(r, 0, 0, low);
    FlagsCompose(r, 1, 0, low);
    FlagsCompose(r, 1, 1, low);
  }

  /** The chain and the flags of a fragment. */
  lemma {:induction false} PieceHeaderFields(j: Job, pos: nat)
    requires pos < |j.payload| <= MAX_PAYLOAD_LEN
    ensures var h := PieceHeader(j, pos);
            && h.extHeaders == [ToExt(Info(j, pos))] + (if pos == 0 then j.header.extHeaders else [])
            && h.extHeaders[0] == ToExt(Info(j, pos)) && h.nextHeader == 6
            && h.extHeaders[1..] == (if pos == 0 then j.header.extHeaders else [])
            && h.payloadLen == |Slice(j, pos)|
            && h.flags == SetFragment(SetExtension(ClearFragment(ClearExtension(j.header.flags))))
            && h.version == j.header.version && h.minCompatVer == j.header.minCompatVer
            && h.hopLimit == j.header.hopLimit
            && h.srcAddr == j.header.srcAddr && h.dstAddr == j.header.dstAddr
            && ChainSize(h.extHeaders) == FRAG_EXT_WIRE + (if pos == 0 then ChainSize(j.header.extHeaders) else 0)
            && HasFragment(h.flags) && HasExtension(h.flags)
            && (ReservedOk(h.flags) <==> ReservedOk(j.header.flags))
  {
    hide SetFragment, SetExtension, ClearFragment, ClearExtension, HasFragment, HasExtension, ReservedOk, Info;
    FlagFacts(j.header.flags);
    var h := PieceHeader(j, pos);
    var rest := if pos == 0 then j.header.extHeaders else [];
    assert h.extHeaders == [ToExt(Info(j, pos))] + rest;
    assert h.extHeaders[1..] == rest;
  }

  lemma {:induction false} PieceAccepted(j: Job, pos: nat)
    requires Splittable(j) && pos < |j.payload|
    ensures Refusal(PieceHeader(j, pos)) == Option.None
  {
    hide SetFragment, SetExtension, ClearFragment, ClearExtension, HasFragment, HasExtension, ReservedOk, Info,
         PieceHeader, ValidChain, CarriesFragment, ToExt;
    PieceHeaderFields(j, pos);
  }

  lemma {:induction false} PieceChainValid(j: Job, pos: nat)
    requires Splittable(j) && pos < |j.payload|
    ensures ValidChain(PieceHeader(j, pos).extHeaders)
  {
    PieceHeaderFields(j, pos);
    hide PieceHeader, Refusal;
    var e, rest := ToExt(Info(j, pos)), if pos == 0 then j.header.extHeaders else [];
    forall i | 0 <= i < |rest| ensures Wire(rest[i].extType) !in [Wire(e.extType)] {
      assert ValidExt(rest[i]) && rest[i].extType != ExtType.Fragment;
    }
    ConsValid(e, rest, []);
  }

  function PieceBytes(j: Job, pos: nat): bytes
    requires pos < |j.payload| <= MAX_PAYLOAD_LEN
    requires j.header.version == VERSION && j.header.minCompatVer <= 15
  {
    PieceHeaderFields(j, pos);
    HeaderBytes(PieceHeader(j, pos)) + Slice(j, pos)
  }

  /** Every fragment decodes to its own header and slice. */
  lemma {:induction false} PieceDecodes(j: Job, pos: nat)
    requires Splittable(j) && pos < |j.payload|
    ensures DecodeBytes(PieceBytes(j, pos)) == Ok(Decoded(PieceHeader(j, pos), Slice(j, pos)))
  {
    PieceAccepted(j, pos);
    PieceChainValid(j, pos);
    PieceHeaderFields(j, pos);
    hide PieceHeader, Refusal, ValidChain, DecodeBytes, HeaderBytes, HasFragment, HasExtension, ReservedOk;
    assert Packet(PieceHeader(j, pos), Slice(j, pos)) == Ok(PieceBytes(j, pos));
    PrintedPacketDecodes(PieceHeader(j, pos), Slice(j, pos), PieceBytes(j, pos));
  }

  /** The starts of all fragments from `pos` on. */
  function StartsFrom(n: nat, chunk: nat, pos: nat): (r: seq<nat>)
    requires chunk > 0
    ensures forall i :: 0 <= i < |r| ==> pos <= r[i] < n
    ensures forall i, k :: 0 <= i < k < |r| ==> r[i] < r[k]
    decreases n - pos
  {
    if pos >= n then [] else [pos] + StartsFrom(n, chunk, pos + chunk)
  }

  /** The fragments are exactly the pieces at those starts. */
  lemma {:induction false} PiecesAreAll(j: Job, pos: nat)
    requires Splittable(j)
    ensures Pieces(j, pos).Ok?
    ensures var starts := StartsFrom(|j.payload|, j.chunk, pos);
            && |Pieces(j, pos).value| == |starts|
            && forall i :: 0 <= i < |starts| ==> Pieces(j, pos).value[i] == PieceBytes(j, starts[i])
    decreases |j.payload| - pos
  {
    hide Pieces, PieceBytes, StartsFrom, ValidChain, CarriesFragment;
    if pos < |j.payload| {
      var starts, rest := StartsFrom(|j.payload|, j.chunk, pos), StartsFrom(|j.payload|, j.chunk, pos + j.chunk);
      StartsStep(j, pos);
      PiecesAreAll(j, pos + j.chunk);
      PiecesStep(j, pos);
      forall i | 0 <= i < |starts| ensures Pieces(j, pos).value[i] == PieceBytes(j, starts[i]) {
        if i > 0 { assert starts[i] == rest[i - 1]; }
      }
    } else {
      NothingPastEnd(j, pos);
    }
  }

  lemma {:induction false} StartsStep(j: Job, pos: nat)
    requires j.chunk > 0 && pos < |j.payload|
    ensures StartsFrom(|j.payload|, j.chunk, pos) == [pos] + StartsFrom(|j.payload|, j.chunk, pos + j.chunk)
  {
  }

  lemma {:induction false} PiecesStep(j: Job, pos: nat)
    requires Splittable(j) && pos < |j.payload| && Pieces(j, pos + j.chunk).Ok?
    ensures Pieces(j, pos) == Ok([PieceBytes(j, pos)] + Pieces(j, pos + j.chunk).value)
  {
    hide PieceHeader, Refusal, ValidChain, HeaderBytes, CarriesFragment;
    PieceAccepted(j, pos);
  }

  lemma {:induction false} NothingPastEnd(j: Job, pos: nat)
    requires j.chunk > 0 && pos >= |j.payload| && |j.payload| <= MAX_PAYLOAD_LEN
    ensures Pieces(j, pos) == Ok([]) && StartsFrom(|j.payload|, j.chunk, pos) == []
  {
    hide PieceHeader, Refusal, HeaderBytes;
  }

  /** Splitting a decoded packet that is too long succeeds exactly when its reserved flags are zero, the
      fragment header still fits in the chain limit, and the first fragment fits in a packet; with an
      empty payload there is nothing to emit and it always succeeds. */
  lemma {:induction false} SplitSucceeds(packet: bytes, maxLen: nat, id: u32)
    requires DecodeBytes(packet).Ok? && |packet| > maxLen
    requires var d := DecodeBytes(packet).value;
             !CarriesFragment(d.header.extHeaders) && JobOf(d, maxLen, id).chunk >= 8
    ensures var d := DecodeBytes(packet).value; var j := JobOf(d, maxLen, id);
            && (Split(packet, maxLen, id).Ok? && d.payload != [] ==> Splittable(j))
            && (Splittable(j) ==> Split(packet, maxLen, id).Ok?)
            && (d.payload == [] ==> Split(packet, maxLen, id) == Ok([]))
            && (Splittable(j) <==>
                  && d.payload != [] && ReservedOk(d.header.flags) && |d.header.extHeaders| < MAX_EXT_CHAIN
                  && BASE_HEADER_SIZE + FRAG_EXT_WIRE + ChainSize(d.header.extHeaders) + Min(j.chunk, |d.payload|)
                     <= MAX_PACKET_LEN)
  {
    DecodedIsValid(packet);
    var d := DecodeBytes(packet).value;
    var j := JobOf(d, maxLen, id);
    assert |d.payload| <= MAX_PAYLOAD_LEN;
    assert j.chunk % 8 == 0;
    hide DecodeBytes, ReadBase, ChainBytes;
    if Splittable(j) { PiecesAreAll(j, 0); }
    if d.payload != [] && Split(packet, maxLen, id).Ok? { FirstPieceDecides(j); }
  }

  lemma {:induction false} FirstPieceDecides(j: Job)
    requires 0 < |j.payload| <= MAX_PAYLOAD_LEN && j.chunk > 0 && Pieces(j, 0).Ok?
    ensures ReservedOk(j.header.flags) && |j.header.extHeaders| < MAX_EXT_CHAIN
    ensures BASE_HEADER_SIZE + FRAG_EXT_WIRE + ChainSize(j.header.extHeaders) + Min(j.chunk, |j.payload|)
         <= MAX_PACKET_LEN
  {
    hide PieceHeader, SetFragment, SetExtension, ClearFragment, ClearExtension, HasFragment, HasExtension,
         ReservedOk;
    PieceHeaderFields(j, 0);
    assert Refusal(PieceHeader(j, 0)) == Option.None;
  }

  /** No fragment is longer than asked for. */
  lemma {:induction false} PieceLength(d: Decoded, maxLen: nat, id: u32, pos: nat)
    requires var j := JobOf(d, maxLen, id);
             Splittable(j) && pos < |d.payload|
    ensures |PieceBytes(JobOf(d, maxLen, id), pos)| <= maxLen
  {
    var j := JobOf(d, maxLen, id);
    PieceHeaderFields(j, pos);
    hide PieceHeader, Refusal, ValidChain, CarriesFragment;
    assert |Slice(j, pos)| <= j.chunk;
  }
}
