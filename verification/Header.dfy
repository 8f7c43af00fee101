/** The IPv8 packet header, its addresses and its extension headers. */
module Header {
  import opened Bytes

  const BASE_HEADER_SIZE := 40
  const MAX_PAYLOAD_LEN := 65467
  const MAX_PACKET_LEN := 65507
  const VERSION := 8
  const MAX_EXT_CHAIN := 64

  // ---- addresses ----

  datatype Address = Address(protocol: u16, regionHi: u16, regionMid: u16, regionLo: u16,
                             subnet1: u16, subnet2: u16, nodeHash: u16, sessionId: u16)

  /** The 16-byte wire form, every field big-endian. */
  function AddressBytes(a: Address): (r: bytes)
    ensures |r| == 16
  {
    Be16(a.protocol) + Be16(a.regionHi) + Be16(a.regionMid) + Be16(a.regionLo)
    + Be16(a.subnet1) + Be16(a.subnet2) + Be16(a.nodeHash) + Be16(a.sessionId)
  }

  function ReadAddress(b: bytes): Address
    requires |b| == 16
  {
    Address(Word16(b[0], b[1]), Word16(b[2], b[3]), Word16(b[4], b[5]), Word16(b[6], b[7]),
            Word16(b[8], b[9]), Word16(b[10], b[11]), Word16(b[12], b[13]), Word16(b[14], b[15]))
  }

  lemma {:induction false} Word16RoundTrip(n: u16, hi: u8, lo: u8)
    ensures Word16(Be16(n)[0], Be16(n)[1]) == n
    ensures Be16(Word16(hi, lo)) == [hi, lo]
  {
  }

  lemma {:induction false} AddressFromBytes(b: bytes)
    requires |b| == 16
    ensures AddressBytes(ReadAddress(b)) == b
  {
    Word16RoundTrip(0, b[0], b[1]);
    Word16RoundTrip(0, b[2], b[3]);
    Word16RoundTrip(0, b[4], b[5]);
    Word16RoundTrip(0, b[6], b[7]);
    Word16RoundTrip(0, b[8], b[9]);
    Word16RoundTrip(0, b[10], b[11]);
    Word16RoundTrip(0, b[12], b[13]);
    Word16RoundTrip(0, b[14], b[15]);
  }

  lemma {:induction false} AddressToBytes(a: Address)
    ensures ReadAddress(AddressBytes(a)) == a
  {
  }

  /** The wire form identifies the address. */
  lemma {:induction false} AddressInjective(a: Address, b: Address)
    requires AddressBytes(a) == AddressBytes(b)
    ensures a == b
  {
    AddressToBytes(a);
    AddressToBytes(b);
  }

  // ---- flags ----

  /** Bit 5: the packet is a fragment. */
  predicate HasFragment(flags: u16) { flags / 32 % 2 == 1 }

  /** Bit 6: an extension chain is present. */
  predicate HasExtension(flags: u16) { flags / 64 % 2 == 1 }

  /** Bits 7-15 are reserved and must be zero when sent. */
  predicate ReservedOk(flags: u16) { flags / 128 == 0 }

  function ClearFragment(flags: u16): u16 { if HasFragment(flags) then flags - 32 else flags }

  function SetFragment(flags: u16): u16 { if HasFragment(flags) then flags else flags + 32 }

  function ClearExtension(flags: u16): u16 { if HasExtension(flags) then flags - 64 else flags }

  function SetExtension(flags: u16): u16 { if HasExtension(flags) then flags else flags + 64 }

  // ---- extension headers ----

  datatype ExtType =
    | None
    | IdentityToken
    | SemanticTag
    | QoSReservation
    | AgentCard
    | RouteTrace
    | Fragment
    | Unknown(code: u8)

  function Wire(t: ExtType): u8 {
    match t
    case None => 0
    case IdentityToken => 1
    case SemanticTag => 2
    case QoSReservation => 3
    case AgentCard => 4
    case RouteTrace => 5
    case Fragment => 6
    case Unknown(v) => v
  }

  function FromU8(v: u8): (t: ExtType)
    ensures Wire(t) == v
  {
    if v == 0 then None
    else if v == 1 then IdentityToken
    else if v == 2 then SemanticTag
    else if v == 3 then QoSReservation
    else if v == 4 then AgentCard
    else if v == 5 then RouteTrace
    else if v == 6 then Fragment
    else Unknown(v)
  }

  /** `payload` is carried in units of 8 bytes. */
  datatype ExtensionHeader = ExtensionHeader(extType: ExtType, payload: bytes)

  function WireSize(e: ExtensionHeader): nat { 2 + |e.payload| }

  /** What `ExtensionHeader::new` admits, with the type being the one its number decodes to. */
  predicate ValidExt(e: ExtensionHeader) {
    && e.extType != None
    && FromU8(Wire(e.extType)) == e.extType
    && |e.payload| % 8 == 0
    && 8 <= |e.payload| <= 2040
  }

  /** A chain that survives the wire: valid members, no type twice. */
  ghost predicate ValidChain(exts: seq<ExtensionHeader>) {
    && (forall i :: 0 <= i < |exts| ==> ValidExt(exts[i]))
    && (forall i, j :: 0 <= i < j < |exts| ==> Wire(exts[i].extType) != Wire(exts[j].extType))
  }

  function ChainSize(exts: seq<ExtensionHeader>): nat {
    if exts == [] then 0 else WireSize(exts[0]) + ChainSize(exts[1..])
  }

  /** The NextHeader value that announces `exts`; 0 ends a chain. */
  function FirstType(exts: seq<ExtensionHeader>): u8 {
    if exts == [] then 0 else Wire(exts[0].extType)
  }

  // ---- headers ----

  datatype IPv8Header = IPv8Header(version: u8, minCompatVer: u8, flags: u16, payloadLen: u16, hopLimit: u8,
                                   nextHeader: u8, srcAddr: Address, dstAddr: Address,
                                   extHeaders: seq<ExtensionHeader>)

  /** Hang `exts` on the header; the NextHeader pointer and the extension flag follow. */
  function AttachExtHeaders(h: IPv8Header, exts: seq<ExtensionHeader>): IPv8Header {
    h.(nextHeader := FirstType(exts),
       flags := if exts == [] then ClearExtension(h.flags) else SetExtension(h.flags),
       extHeaders := exts)
  }
}
