/** Parsing a header: wire form to memory form. */
module Decode {
  import opened Bytes
  import opened Header
  import opened Wrappers

  datatype DecodeError =
    | TooShort(got: nat)
    | BadVersion(version: u8)
    | PayloadTooLong(len: u16)
    | PayloadBeyondBuffer(need: nat, have: nat)
    | PacketTooLong
    | ExtHeaderTruncated
    | TooManyExtHeaders
    | ExtLenZero
    | ExtChainCycle
    | FlagMismatch

  datatype Decoded = Decoded(header: IPv8Header, payload: bytes)

  /** A parsed chain and the position after it. */
  datatype Chain = Chain(exts: seq<ExtensionHeader>, end: nat)

  /** The extension header of type `cur` at `cursor`; `seen` are the types before it. */
  function ParseOne(buf: bytes, cursor: nat, cur: u8, seen: seq<u8>): (r: Result<ExtensionHeader, DecodeError>)
    ensures r.Ok? ==> cursor + WireSize(r.value) <= |buf|
  {
    if cur in seen then Err(ExtChainCycle)
    else if cursor + 2 > |buf| then Err(ExtHeaderTruncated)
    else if buf[cursor + 1] == 0 then Err(ExtLenZero)
    else
      var end := cursor + 2 + 8 * (buf[cursor + 1] as nat);
      if end > |buf| then Err(ExtHeaderTruncated)
      else if |seen| + 1 > MAX_EXT_CHAIN then Err(TooManyExtHeaders)
      else Ok(ExtensionHeader(FromU8(cur), buf[cursor + 2..end]))
  }

  function Prefixed(exts: seq<ExtensionHeader>, r: Result<Chain, DecodeError>): Result<Chain, DecodeError> {
    match r
    case Ok(c) => Ok(Chain(exts + c.exts, c.end))
    case Err(error) => Err(error)
  }

  /** Walk the chain from `cursor` until a zero pointer. */
  function ParseChain(buf: bytes, cursor: nat, cur: u8, seen: seq<u8>): (r: Result<Chain, DecodeError>)
    ensures r.Ok? ==> cursor < r.value.end <= |buf|
    decreases |buf| - cursor
  {
    match ParseOne(buf, cursor, cur, seen)
    case Err(error) => Err(error)
    case Ok(e) =>
      var end := cursor + WireSize(e);
      if buf[cursor] == 0 then Ok(Chain([e], end))
      else Prefixed([e], ParseChain(buf, end, buf[cursor], seen + [cur]))
  }

  function ParseExtensions(buf: bytes, nextHeader: u8): (r: Result<Chain, DecodeError>)
    requires |buf| >= BASE_HEADER_SIZE
    ensures r.Ok? ==> BASE_HEADER_SIZE <= r.value.end <= |buf|
  {
    if nextHeader == 0 then Ok(Chain([], BASE_HEADER_SIZE))
    else ParseChain(buf, BASE_HEADER_SIZE, nextHeader, [])
  }

  /** The header fields of the 40 base bytes. */
  function ReadBase(buf: bytes, exts: seq<ExtensionHeader>): IPv8Header
    requires |buf| >= BASE_HEADER_SIZE
  {
    IPv8Header(buf[0] / 16, buf[0] % 16, Word16(buf[1], buf[2]), Word16(buf[3], buf[4]), buf[5], buf[6],
               ReadAddress(buf[7..23]), ReadAddress(buf[23..39]), exts)
  }

  function DecodeBytes(buf: bytes): Result<Decoded, DecodeError> {
    if |buf| < BASE_HEADER_SIZE then Err(TooShort(|buf|))
    else if buf[0] / 16 != VERSION then Err(BadVersion(buf[0] / 16))
    else if Word16(buf[3], buf[4]) > MAX_PAYLOAD_LEN then Err(PayloadTooLong(Word16(buf[3], buf[4])))
    else match ParseExtensions(buf, buf[6])
      case Err(error) => Err(error)
      case Ok(chain) =>
        var payloadLen := Word16(buf[3], buf[4]);
        if HasExtension(Word16(buf[1], buf[2])) != (chain.exts != []) then Err(FlagMismatch)
        else if chain.end + payloadLen > |buf| then
          Err(PayloadBeyondBuffer(payloadLen, |buf| - chain.end))
        else if chain.end + payloadLen > MAX_PACKET_LEN then Err(PacketTooLong)
        else Ok(Decoded(ReadBase(buf, chain.exts), buf[chain.end..chain.end + payloadLen]))
  }

  /** The chain loop of the decoder: one header a round until a zero pointer. */
  method WalkChain(buf: bytes, nextHeader: u8) returns (r: Result<Chain, DecodeError>)
    requires |buf| >= BASE_HEADER_SIZE && nextHeader != 0
    ensures r == ParseChain(buf, BASE_HEADER_SIZE, nextHeader, [])
  {
    var cursor := BASE_HEADER_SIZE;
    var exts: seq<ExtensionHeader> := [];
    var cur := nextHeader;
    var idx := 0;
    var seen: seq<u8> := [];
    assert Prefixed([], ParseChain(buf, cursor, cur, seen)) == ParseChain(buf, cursor, cur, seen) by {
      PrefixedNil(ParseChain(buf, cursor, cur, seen));
    }
    while true
      invariant cursor <= |buf| && idx == |seen| <= MAX_EXT_CHAIN
      invariant ParseChain(buf, BASE_HEADER_SIZE, nextHeader, [])
             == Prefixed(exts, ParseChain(buf, cursor, cur, seen))
      decreases |buf| - cursor
    {
      var ty := FromU8(cur);
      if cur in seen { return Err(ExtChainCycle); }
      if cursor + 2 > |buf| { return Err(ExtHeaderTruncated); }
      var ptrNext, extLen := buf[cursor], buf[cursor + 1];
      if extLen == 0 { return Err(ExtLenZero); }
      var plen := 8 * (extLen as nat);
      if cursor + 2 + plen > |buf| { return Err(ExtHeaderTruncated); }
      var e := ExtensionHeader(ty, buf[cursor + 2..cursor + 2 + plen]);
      idx := idx + 1;
      if idx > MAX_EXT_CHAIN { return Err(TooManyExtHeaders); }
      ghost var rest := if ptrNext == 0 then Ok(Chain([], cursor + 2 + plen))
                        else ParseChain(buf, cursor + 2 + plen, ptrNext, seen + [cur]);
      PrefixedStep(exts, e, rest);
      seen := seen + [cur];
      exts := exts + [e];
      cursor := cursor + 2 + plen;
      if ptrNext == 0 {
        assert exts + [] == exts;
        return Ok(Chain(exts, cursor));
      }
      cur := ptrNext;
    }
  }

  lemma {:induction false} PrefixedNil(r: Result<Chain, DecodeError>)
    ensures Prefixed([], r) == r
  {
    if r.Ok? { assert [] + r.value.exts == r.value.exts; }
  }

  lemma {:induction false} PrefixedStep(exts: seq<ExtensionHeader>, e: ExtensionHeader, r: Result<Chain, DecodeError>)
    ensures Prefixed(exts, Prefixed([e], r)) == Prefixed(exts + [e], r)
  {
    if r.Ok? {
      assert exts + ([e] + r.value.exts) == exts + [e] + r.value.exts;
    }
  }

  method Decode(buf: bytes) returns (r: Result<Decoded, DecodeError>)
    ensures r == DecodeBytes(buf)
  {
    hide ParseChain, HasExtension, Word16, ReadAddress;
    if |buf| < BASE_HEADER_SIZE { return Err(TooShort(|buf|)); }
    var version, minCompatVer := buf[0] / 16, buf[0] % 16;
    if version != VERSION { return Err(BadVersion(version)); }
    var flags := Word16(buf[1], buf[2]);
    var payloadLen := Word16(buf[3], buf[4]);
    if payloadLen > MAX_PAYLOAD_LEN { return Err(PayloadTooLong(payloadLen)); }
    var srcAddr := ReadAddress(buf[7..23]);
    var dstAddr := ReadAddress(buf[23..39]);
    var chain := Chain([], BASE_HEADER_SIZE);
    if buf[6] != 0 {
      var walked := WalkChain(buf, buf[6]);
      match walked {
        case Err(error) => return Err(error);
        case Ok(c) => chain := c;
      }
    }
    if HasExtension(flags) != (chain.exts != []) { return Err(FlagMismatch); }
    if chain.end + payloadLen > |buf| { return Err(PayloadBeyondBuffer(payloadLen, |buf| - chain.end)); }
    if chain.end + payloadLen > MAX_PACKET_LEN { return Err(PacketTooLong); }
    var header := IPv8Header(version, minCompatVer, flags, payloadLen, buf[5], buf[6], srcAddr, dstAddr, chain.exts);
    r := Ok(Decoded(header, buf[chain.end..chain.end + payloadLen]));
  }
}
