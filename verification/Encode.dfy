/** Printing a header: memory form to wire form. */
module Encode {
  import opened Bytes
  import opened Header
  import opened Wrappers

  datatype EncodeError =
    | BadVersion(version: u8)
    | FieldOverflow
    | ReservedBits
    | PayloadTooLong(len: u16)
    | PayloadLengthMismatch(header: nat, actual: nat)
    | TooManyExtHeaders(count: nat)
    | PacketTooLong
    | NextHeaderMismatch(expected: u8, got: u8)
    | FlagMismatch

  /** The checks made before anything is written, in order. */
  function Refusal(h: IPv8Header): Option<EncodeError> {
    if h.version != VERSION then Some(BadVersion(h.version))
    else if h.minCompatVer > 15 then Some(FieldOverflow)
    else if !ReservedOk(h.flags) then Some(ReservedBits)
    else if h.payloadLen > MAX_PAYLOAD_LEN then Some(PayloadTooLong(h.payloadLen))
    else if |h.extHeaders| > MAX_EXT_CHAIN then Some(TooManyExtHeaders(|h.extHeaders|))
    else if BASE_HEADER_SIZE + ChainSize(h.extHeaders) + h.payloadLen > MAX_PACKET_LEN then Some(PacketTooLong)
    else if h.nextHeader != FirstType(h.extHeaders) then
      Some(NextHeaderMismatch(FirstType(h.extHeaders), h.nextHeader))
    else if HasExtension(h.flags) != (h.extHeaders != []) then Some(FlagMismatch)
    else Option.None
  }

  /** Bytes 0-39. */
  function BaseHeader(h: IPv8Header): (r: bytes)
    requires h.version == VERSION && h.minCompatVer <= 15
    ensures |r| == BASE_HEADER_SIZE
  {
    [h.version * 16 + h.minCompatVer] + Be16(h.flags) + Be16(h.payloadLen) + [h.hopLimit, h.nextHeader]
    + AddressBytes(h.srcAddr) + AddressBytes(h.dstAddr) + [0]
  }

  /** One extension header followed by the header whose type is `next`. */
  function ExtBytes(e: ExtensionHeader, next: u8): bytes {
    [next, |e.payload| / 8 % 256] + e.payload
  }

  /** The chain, each header pointing at the type of the next. */
  function ChainBytes(exts: seq<ExtensionHeader>): (r: bytes)
    ensures |r| == ChainSize(exts)
  {
    if exts == [] then [] else ExtBytes(exts[0], FirstType(exts[1..])) + ChainBytes(exts[1..])
  }

  function HeaderBytes(h: IPv8Header): (r: bytes)
    requires h.version == VERSION && h.minCompatVer <= 15
    ensures |r| == BASE_HEADER_SIZE + ChainSize(h.extHeaders)
  {
    BaseHeader(h) + ChainBytes(h.extHeaders)
  }

  /** The bytes of a whole packet, or why there are none. */
  function Packet(h: IPv8Header, payload: bytes): Result<bytes, EncodeError> {
    if |payload| != h.payloadLen then Err(PayloadLengthMismatch(h.payloadLen, |payload|))
    else match Refusal(h)
      case Some(e) => Err(e)
      case None => Ok(HeaderBytes(h) + payload)
  }

  /** `out[at..at + |word|] = word` */
  function Overwrite(out: bytes, at: nat, word: bytes): (r: bytes)
    requires at + |word| <= |out|
    ensures |r| == |out|
    ensures r[..at + |word|] == out[..at] + word
    ensures forall i :: at + |word| <= i < |out| ==> r[i] == out[i]
  {
    out[..at] + word + out[at + |word|..]
  }

  /** Append the header to `out`; a refused header leaves `out` alone. */
  method EncodeHeader(h: IPv8Header, out: ByteBuf) returns (r: Result<nat, EncodeError>)
    modifies out
    ensures match Refusal(h)
            case Some(e) => r == Err(e) && out.data == old(out.data)
            case None => r == Ok(BASE_HEADER_SIZE + ChainSize(h.extHeaders))
                         && out.data == old(out.data) + HeaderBytes(h)
  {
    if h.version != VERSION { return Err(BadVersion(h.version)); }
    if h.minCompatVer > 15 { return Err(FieldOverflow); }
    if !ReservedOk(h.flags) { return Err(ReservedBits); }
    if h.payloadLen > MAX_PAYLOAD_LEN { return Err(PayloadTooLong(h.payloadLen)); }
    if |h.extHeaders| > MAX_EXT_CHAIN { return Err(TooManyExtHeaders(|h.extHeaders|)); }
    var extTotal := ChainSize(h.extHeaders);
    if BASE_HEADER_SIZE + extTotal + h.payloadLen > MAX_PACKET_LEN { return Err(PacketTooLong); }
    var firstNh := FirstType(h.extHeaders);
    if h.nextHeader != firstNh { return Err(NextHeaderMismatch(firstNh, h.nextHeader)); }
    if HasExtension(h.flags) != (h.extHeaders != []) { return Err(FlagMismatch); }

    var start := |out.data|;
    var b := WriteBase(h);
    out.data := out.data + b;
    AppendChain(h.extHeaders, out);
    assert out.data == old(out.data) + HeaderBytes(h);
    r := Ok(|out.data| - start);
  }

  /** Append the chain, pointing each header at its successor. */
  method AppendChain(exts: seq<ExtensionHeader>, out: ByteBuf)
    modifies out
    ensures out.data == old(out.data) + ChainBytes(exts)
  {
    var i := 0;
    assert exts[0..] == exts;
    while i < |exts|
      invariant 0 <= i <= |exts|
      invariant out.data + ChainBytes(exts[i..]) == old(out.data) + ChainBytes(exts)
    {
      ghost var before := out.data;
      var next := if i + 1 < |exts| then Wire(exts[i + 1].extType) else 0;
      out.data := out.data + [next];
      out.data := out.data + [|exts[i].payload| / 8 % 256];
      out.data := out.data + exts[i].payload;
      AppendStep(before, exts[i..], exts[i], next, out.data);
      assert exts[i..][1..] == exts[i + 1..];
      i := i + 1;
    }
  }

  lemma {:induction false} AppendStep(before: bytes, rest: seq<ExtensionHeader>, e: ExtensionHeader, next: u8,
      after: bytes)
    requires rest != [] && rest[0] == e && next == FirstType(rest[1..])
    requires after == before + [next] + [|e.payload| / 8 % 256] + e.payload
    ensures after + ChainBytes(rest[1..]) == before + ChainBytes(rest)
  {
    assert after == before + ExtBytes(e, next);
    assert before + (ExtBytes(e, next) + ChainBytes(rest[1..])) == after + ChainBytes(rest[1..]);
  }

  /** The 40 base bytes, written field by field into a zeroed buffer. */
  method WriteBase(h: IPv8Header) returns (b: bytes)
    requires h.version == VERSION && h.minCompatVer <= 15
    ensures b == BaseHeader(h)
  {
    hide Overwrite, AddressBytes, Be16, BaseHeader;
    b := seq(BASE_HEADER_SIZE, _ => 0);
    b := Overwrite(b, 0, [h.version * 16 + h.minCompatVer]);
    b := Overwrite(b, 1, Be16(h.flags));
    b := Overwrite(b, 3, Be16(h.payloadLen));
    b := Overwrite(b, 5, [h.hopLimit]);
    b := Overwrite(b, 6, [h.nextHeader]);
    b := Overwrite(b, 7, AddressBytes(h.srcAddr));
    b := Overwrite(b, 23, AddressBytes(h.dstAddr));
    assert b == b[..39] + [0];
    BaseInFields(h);
  }

  lemma {:induction false} BaseInFields(h: IPv8Header)
    requires h.version == VERSION && h.minCompatVer <= 15
    ensures BaseHeader(h) == [h.version * 16 + h.minCompatVer] + Be16(h.flags) + Be16(h.payloadLen) + [h.hopLimit]
                             + [h.nextHeader] + AddressBytes(h.srcAddr) + AddressBytes(h.dstAddr) + [0]
  {
    hide AddressBytes, Be16;
    assert [h.hopLimit, h.nextHeader] == [h.hopLimit] + [h.nextHeader];
  }

  /** A header and its payload as one packet. */
  method EncodePacket(h: IPv8Header, payload: bytes) returns (r: Result<bytes, EncodeError>)
    ensures r == Packet(h, payload)
  {
    if |payload| != h.payloadLen { return Err(PayloadLengthMismatch(h.payloadLen, |payload|)); }
    var out := new ByteBuf();
    var n := EncodeHeader(h, out);
    if n.Err? { return Err(n.error); }
    out.data := out.data + payload;
    assert [] + HeaderBytes(h) == HeaderBytes(h);
    r := Ok(out.data);
  }
}
