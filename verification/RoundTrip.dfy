/** Printer and parser are inverse to each other, exactly on well-formed headers and canonical buffers. */
module RoundTrip {
  import opened Bytes
  import opened Header
  import opened Encode
  import opened Decode
  import opened Wrappers

  // ---- the chain ----

  ghost predicate NoneIn(exts: seq<ExtensionHeader>, seen: seq<u8>) {
    forall i :: 0 <= i < |exts| ==> Wire(exts[i].extType) !in seen
  }

  /** The printed form of `exts` stands in `buf` from `cursor` on. */
  ghost predicate PrintedAt(buf: bytes, cursor: nat, exts: seq<ExtensionHeader>)
    decreases exts
  {
    exts != [] ==>
      var end := cursor + WireSize(exts[0]);
      && end <= |buf|
      && buf[cursor] == FirstType(exts[1..])
      && 8 * (buf[cursor + 1] as nat) == |exts[0].payload|
      && buf[cursor + 2..end] == exts[0].payload
      && PrintedAt(buf, end, exts[1..])
  }

  lemma {:induction false} PrintedWithin(buf: bytes, cursor: nat, exts: seq<ExtensionHeader>)
    requires ValidChain(exts) && cursor + ChainSize(exts) <= |buf|
    requires buf[cursor..cursor + ChainSize(exts)] == ChainBytes(exts)
    ensures PrintedAt(buf, cursor, exts)
    decreases exts
  {
    if exts == [] {
    } else {
      PrintedHead(buf, cursor, exts);
      TailValid(exts, []);
      PrintedWithin(buf, cursor + WireSize(exts[0]), exts[1..]);
    }
  }

  /** A printed chain parses back, whatever surrounds it. */
  lemma {:induction false} PrintedChainParses(buf: bytes, cursor: nat, exts: seq<ExtensionHeader>, seen: seq<u8>)
    requires exts != [] && ValidChain(exts) && NoneIn(exts, seen) && |seen| + |exts| <= MAX_EXT_CHAIN
    requires PrintedAt(buf, cursor, exts)
    ensures ParseChain(buf, cursor, FirstType(exts), seen) == Ok(Chain(exts, cursor + ChainSize(exts)))
    decreases exts
  {
    var e, rest := exts[0], exts[1..];
    TailValid(exts, seen);
    ParseStep(buf, cursor, FirstType(exts), seen, e);
    if rest != [] {
      PrintedChainParses(buf, cursor + WireSize(e), rest, seen + [FirstType(exts)]);
    }
    ParseCons(buf, cursor, FirstType(exts), seen, e, rest, cursor + ChainSize(exts));
    assert exts == [e] + rest;
  }

  /** A header read at `cursor` followed by a chain read after it make a longer chain. */
  lemma {:induction false} ParseCons(buf: bytes, cursor: nat, cur: u8, seen: seq<u8>, e: ExtensionHeader,
                  rest: seq<ExtensionHeader>, end: nat)
    requires ParseOne(buf, cursor, cur, seen) == Ok(e)
    requires if buf[cursor] == 0 then rest == [] && end == cursor + WireSize(e)
             else ParseChain(buf, cursor + WireSize(e), buf[cursor], seen + [cur]) == Ok(Chain(rest, end))
    ensures ParseChain(buf, cursor, cur, seen) == Ok(Chain([e] + rest, end))
  {
    if rest == [] { assert [e] + rest == [e]; }
  }

  /** One round of the walk over a well-formed header. */
  lemma {:induction false} ParseStep(buf: bytes, cursor: nat, cur: u8, seen: seq<u8>, e: ExtensionHeader)
    requires cur !in seen && |seen| < MAX_EXT_CHAIN && e.extType == FromU8(cur)
    requires cursor + WireSize(e) <= |buf| && buf[cursor + 2..cursor + WireSize(e)] == e.payload
    requires 8 * (buf[cursor + 1] as nat) == |e.payload| > 0
    ensures ParseOne(buf, cursor, cur, seen) == Ok(e)
  {
  }

  lemma {:induction false} TailValid(exts: seq<ExtensionHeader>, seen: seq<u8>)
    requires exts != [] && ValidChain(exts) && NoneIn(exts, seen)
    ensures ValidExt(exts[0]) && ValidChain(exts[1..]) && NoneIn(exts[1..], seen + [FirstType(exts)])
    ensures exts[1..] != [] ==> FirstType(exts[1..]) != 0
    ensures FirstType(exts) !in seen && FromU8(FirstType(exts)) == exts[0].extType
  {
    if exts[1..] != [] { assert ValidExt(exts[1]); }
  }

  /** The four parts of a printed chain as a reader at `cursor` meets them. */
  lemma {:induction false} PrintedHead(buf: bytes, cursor: nat, exts: seq<ExtensionHeader>)
    requires exts != [] && ValidExt(exts[0])
    requires cursor + ChainSize(exts) <= |buf| && buf[cursor..cursor + ChainSize(exts)] == ChainBytes(exts)
    ensures buf[cursor] == FirstType(exts[1..])
    ensures 8 * (buf[cursor + 1] as nat) == |exts[0].payload|
    ensures buf[cursor + 2..cursor + WireSize(exts[0])] == exts[0].payload
    ensures buf[cursor + WireSize(exts[0])..cursor + ChainSize(exts)] == ChainBytes(exts[1..])
  {
    var e, rest := exts[0], exts[1..];
    var all := ChainBytes(exts);
    assert all == ExtBytes(e, FirstType(rest)) + ChainBytes(rest);
    SliceOfSlice(buf, cursor, cursor + ChainSize(exts), 2, WireSize(e));
    SliceOfSlice(buf, cursor, cursor + ChainSize(exts), WireSize(e), ChainSize(exts));
    assert all[2..WireSize(e)] == e.payload;
    assert all[WireSize(e)..ChainSize(exts)] == ChainBytes(rest);
    assert buf[cursor] == all[0] && buf[cursor + 1] == all[1];
  }

  /** What the chain parser accepts is a valid chain and prints back to the bytes it was read from. */
  lemma {:induction false} ParsedChainPrints(buf: bytes, cursor: nat, cur: u8, seen: seq<u8>)
    requires cur != 0 && ParseChain(buf, cursor, cur, seen).Ok?
    ensures var c := ParseChain(buf, cursor, cur, seen).value;
            && c.exts != [] && ValidChain(c.exts) && NoneIn(c.exts, seen)
            && FirstType(c.exts) == cur && |seen| + |c.exts| <= MAX_EXT_CHAIN
            && ChainBytes(c.exts) == buf[cursor..c.end]
    decreases |buf| - cursor
  {
    var e := ParseOne(buf, cursor, cur, seen).value;
    var end := cursor + WireSize(e);
    assert ExtBytes(e, buf[cursor]) == buf[cursor..end];
    if buf[cursor] == 0 {
      PrintCons(buf, cursor, e, [], end);
    } else {
      ParsedChainPrints(buf, end, buf[cursor], seen + [cur]);
      var rest := ParseChain(buf, end, buf[cursor], seen + [cur]).value;
      ConsValid(e, rest.exts, seen);
      PrintCons(buf, cursor, e, rest.exts, rest.end);
    }
  }

  lemma {:induction false} PrintCons(buf: bytes, cursor: nat, e: ExtensionHeader, rest: seq<ExtensionHeader>, end: nat)
    requires cursor + WireSize(e) <= end <= |buf|
    requires ExtBytes(e, FirstType(rest)) == buf[cursor..cursor + WireSize(e)]
    requires ChainBytes(rest) == buf[cursor + WireSize(e)..end]
    ensures ChainBytes([e] + rest) == buf[cursor..end]
  {
    assert ([e] + rest)[1..] == rest;
    assert buf[cursor..end] == buf[cursor..cursor + WireSize(e)] + buf[cursor + WireSize(e)..end];
  }

  lemma {:induction false} ConsValid(e: ExtensionHeader, rest: seq<ExtensionHeader>, seen: seq<u8>)
    requires ValidExt(e) && ValidChain(rest) && Wire(e.extType) !in seen
    requires NoneIn(rest, seen + [Wire(e.extType)])
    ensures ValidChain([e] + rest) && NoneIn([e] + rest, seen)
  {
    var all := [e] + rest;
    assert Wire(e.extType) in seen + [Wire(e.extType)];
    forall i | 0 <= i < |all| ensures ValidExt(all[i]) && Wire(all[i].extType) !in seen {
      if i > 0 { assert all[i] == rest[i - 1]; }
    }
  }

  // ---- the base header ----

  lemma {:induction false} BaseParses(buf: bytes, h: IPv8Header)
    requires h.version == VERSION && h.minCompatVer <= 15
    requires |buf| >= BASE_HEADER_SIZE && buf[..BASE_HEADER_SIZE] == BaseHeader(h)
    ensures ReadBase(buf, h.extHeaders) == h
  {
    hide AddressBytes, ReadAddress, Be16, Word16;
    BaseParts(h);
    var b := BaseHeader(h);
    assert forall i :: 0 <= i < 40 ==> buf[i] == b[i];
    assert buf[7..23] == b[7..23] && buf[23..39] == b[23..39];
    AddressToBytes(h.srcAddr);
    AddressToBytes(h.dstAddr);
    Word16RoundTrip(h.flags, 0, 0);
    Word16RoundTrip(h.payloadLen, 0, 0);
  }

  lemma {:induction false} BaseParts(h: IPv8Header)
    requires h.version == VERSION && h.minCompatVer <= 15
    ensures var b := BaseHeader(h);
            && b[0] == h.version * 16 + h.minCompatVer
            && b[1] == Be16(h.flags)[0] && b[2] == Be16(h.flags)[1]
            && b[3] == Be16(h.payloadLen)[0] && b[4] == Be16(h.payloadLen)[1]
            && b[5] == h.hopLimit && b[6] == h.nextHeader
            && b[7..23] == AddressBytes(h.srcAddr) && b[23..39] == AddressBytes(h.dstAddr)
  {
    hide AddressBytes, Be16;
  }

  /** Re-printing parsed base fields gives the bytes back except for byte 39, which is not kept. */
  lemma {:induction false} BasePrints(buf: bytes, exts: seq<ExtensionHeader>)
    requires |buf| >= BASE_HEADER_SIZE && buf[0] / 16 == VERSION
    ensures BaseHeader(ReadBase(buf, exts)) == buf[..39] + [0]
  {
    var h := ReadBase(buf, exts);
    AddressFromBytes(buf[7..23]);
    AddressFromBytes(buf[23..39]);
    Word16RoundTrip(0, buf[1], buf[2]);
    Word16RoundTrip(0, buf[3], buf[4]);
    assert BaseHeader(h) == [buf[0], buf[1], buf[2], buf[3], buf[4], buf[5], buf[6]] + buf[7..23] + buf[23..39] + [0];
    assert buf[..39] == [buf[0], buf[1], buf[2], buf[3], buf[4], buf[5], buf[6]] + buf[7..23] + buf[23..39];
  }

  // ---- packets ----

  /** A printed packet of a valid chain decodes to what was printed, with any bytes after it. */
  lemma {:induction false} PrintedPacketDecodes(h: IPv8Header, payload: bytes, buf: bytes)
    requires ValidChain(h.extHeaders) && Packet(h, payload).Ok? && Packet(h, payload).value <= buf
    ensures DecodeBytes(buf) == Ok(Decoded(h, payload))
  {
    PacketParts(h, payload, buf);
    assert ReadBase(buf, h.extHeaders) == h by { BaseParses(buf, h); }
    var chain := Chain(h.extHeaders, BASE_HEADER_SIZE + ChainSize(h.extHeaders));
    assert ParseExtensions(buf, h.nextHeader) == Ok(chain) by { PrintedExtensionsParse(h, buf); }
    DecodeByParts(buf, h, payload, chain);
  }

  lemma {:induction false} DecodeByParts(buf: bytes, h: IPv8Header, payload: bytes, chain: Chain)
    requires |buf| >= BASE_HEADER_SIZE && ReadBase(buf, h.extHeaders) == h && h.version == VERSION
    requires ParseExtensions(buf, h.nextHeader) == Ok(chain) && chain.exts == h.extHeaders
    requires h.payloadLen <= MAX_PAYLOAD_LEN && HasExtension(h.flags) == (h.extHeaders != [])
    requires |payload| == h.payloadLen && chain.end + |payload| <= |buf|
    requires chain.end + |payload| <= MAX_PACKET_LEN && buf[chain.end..chain.end + |payload|] == payload
    ensures DecodeBytes(buf) == Ok(Decoded(h, payload))
  {
  }

  lemma {:induction false} HeaderParts(h: IPv8Header)
    requires h.version == VERSION && h.minCompatVer <= 15
    ensures var buf := HeaderBytes(h);
            buf[..BASE_HEADER_SIZE] == BaseHeader(h)
            && buf[BASE_HEADER_SIZE..BASE_HEADER_SIZE + ChainSize(h.extHeaders)] == ChainBytes(h.extHeaders)
  {
  }

  lemma {:induction false} PacketParts(h: IPv8Header, payload: bytes, buf: bytes)
    requires Packet(h, payload).Ok? && Packet(h, payload).value <= buf
    ensures var end := BASE_HEADER_SIZE + ChainSize(h.extHeaders);
            && end + |payload| <= |buf|
            && buf[..BASE_HEADER_SIZE] == BaseHeader(h)
            && buf[BASE_HEADER_SIZE..end] == ChainBytes(h.extHeaders)
            && buf[end..end + |payload|] == payload
  {
    var pkt := Packet(h, payload).value;
    var end := BASE_HEADER_SIZE + ChainSize(h.extHeaders);
    assert pkt == BaseHeader(h) + ChainBytes(h.extHeaders) + payload;
    assert buf[..|pkt|] == pkt;
    assert buf[..BASE_HEADER_SIZE] == pkt[..BASE_HEADER_SIZE] == BaseHeader(h);
    assert buf[BASE_HEADER_SIZE..end] == pkt[BASE_HEADER_SIZE..end] == ChainBytes(h.extHeaders);
    assert buf[end..end + |payload|] == pkt[end..] == payload;
  }

  lemma {:induction false} PrintedExtensionsParse(h: IPv8Header, buf: bytes)
    requires ValidChain(h.extHeaders) && |h.extHeaders| <= MAX_EXT_CHAIN
    requires var end := BASE_HEADER_SIZE + ChainSize(h.extHeaders);
             end <= |buf| && buf[BASE_HEADER_SIZE..end] == ChainBytes(h.extHeaders)
    ensures ParseExtensions(buf, FirstType(h.extHeaders))
         == Ok(Chain(h.extHeaders, BASE_HEADER_SIZE + ChainSize(h.extHeaders)))
  {
    if h.extHeaders != [] {
      TailValid(h.extHeaders, []);
      PrintedWithin(buf, BASE_HEADER_SIZE, h.extHeaders);
      PrintedChainParses(buf, BASE_HEADER_SIZE, h.extHeaders, []);
    }
  }

  /** Every decoded header has a valid chain, agrees with its own length field, and is refused by the
      printer only for reserved flag bits, which the decoder ignores. */
  lemma {:induction false} DecodedIsValid(buf: bytes)
    requires DecodeBytes(buf).Ok?
    ensures var d := DecodeBytes(buf).value;
            && ValidChain(d.header.extHeaders) && |d.payload| == d.header.payloadLen
            && d.header.version == VERSION && d.header.minCompatVer <= 15
            && Refusal(d.header) == (if ReservedOk(d.header.flags) then Option.None else Some(ReservedBits))
            && BASE_HEADER_SIZE + ChainSize(d.header.extHeaders) + |d.payload| <= |buf|
            && (var end := BASE_HEADER_SIZE + ChainSize(d.header.extHeaders);
                && buf[BASE_HEADER_SIZE..end] == ChainBytes(d.header.extHeaders)
                && buf[end..end + |d.payload|] == d.payload)
            && d.header == ReadBase(buf, d.header.extHeaders)
  {
    ParsedExtensionsPrint(buf);
  }

  lemma {:induction false} ParsedExtensionsPrint(buf: bytes)
    requires |buf| >= BASE_HEADER_SIZE && ParseExtensions(buf, buf[6]).Ok?
    ensures var c := ParseExtensions(buf, buf[6]).value;
            && ValidChain(c.exts) && FirstType(c.exts) == buf[6] && |c.exts| <= MAX_EXT_CHAIN
            && ChainBytes(c.exts) == buf[BASE_HEADER_SIZE..c.end]
            && c.end == BASE_HEADER_SIZE + ChainSize(c.exts)
  {
    if buf[6] != 0 {
      ParsedChainPrints(buf, BASE_HEADER_SIZE, buf[6], []);
    }
    var c := ParseExtensions(buf, buf[6]).value;
    assert |ChainBytes(c.exts)| == ChainSize(c.exts);
  }

  /** The number of bytes a decoded packet occupies. */
  function Consumed(d: Decoded): nat {
    BASE_HEADER_SIZE + ChainSize(d.header.extHeaders) + |d.payload|
  }

  /** Decoding then printing gives back the consumed bytes if and only if the sender kept
      the reserved flags and byte 39 zero. */
  lemma {:induction false} DecodeThenEncode(buf: bytes)
    requires DecodeBytes(buf).Ok?
    ensures var d := DecodeBytes(buf).value;
            && Consumed(d) <= |buf|
            && (Packet(d.header, d.payload) == Ok(buf[..Consumed(d)])
                <==> ReservedOk(d.header.flags) && buf[39] == 0)
  {
    DecodedIsValid(buf);
    var d := DecodeBytes(buf).value;
    if ReservedOk(d.header.flags) {
      Reprint(buf, d.header, d.payload);
    }
  }

  lemma {:induction false} Reprint(buf: bytes, h: IPv8Header, payload: bytes)
    requires |buf| >= BASE_HEADER_SIZE && buf[0] / 16 == VERSION && h == ReadBase(buf, h.extHeaders)
    requires BASE_HEADER_SIZE + ChainSize(h.extHeaders) + |payload| <= |buf|
    requires var end := BASE_HEADER_SIZE + ChainSize(h.extHeaders);
             buf[BASE_HEADER_SIZE..end] == ChainBytes(h.extHeaders) && buf[end..end + |payload|] == payload
    ensures HeaderBytes(h) + payload == buf[..BASE_HEADER_SIZE + ChainSize(h.extHeaders) + |payload|]
       <==> buf[39] == 0
  {
    var end := BASE_HEADER_SIZE + ChainSize(h.extHeaders);
    BasePrints(buf, h.extHeaders);
    var pkt := HeaderBytes(h) + payload;
    assert pkt == buf[..39] + [0] + (buf[40..end] + buf[end..end + |payload|]);
    assert pkt[39] == 0;
    assert buf[..end + |payload|] == buf[..39] + [buf[39]] + (buf[40..end] + buf[end..end + |payload|]);
  }

  /** Printing then decoding is the identity if and only if the chain is valid; the printer itself
      never checks that. */
  lemma {:induction false} EncodeThenDecode(h: IPv8Header, payload: bytes)
    requires Packet(h, payload).Ok?
    ensures DecodeBytes(Packet(h, payload).value) == Ok(Decoded(h, payload)) <==> ValidChain(h.extHeaders)
  {
    var pkt := Packet(h, payload).value;
    if ValidChain(h.extHeaders) {
      PrintedPacketDecodes(h, payload, pkt);
    }
    if DecodeBytes(pkt) == Ok(Decoded(h, payload)) {
      DecodedIsValid(pkt);
    }
  }

  /** The decoder's language: a buffer with zero reserved bits and padding decodes to (h, payload)
      exactly when it starts with the printed form of a well-formed (h, payload). */
  lemma {:induction false} DecodeCharacterised(buf: bytes, h: IPv8Header, payload: bytes)
    requires |buf| >= BASE_HEADER_SIZE && ReservedOk(Word16(buf[1], buf[2])) && buf[39] == 0
    ensures DecodeBytes(buf) == Ok(Decoded(h, payload))
       <==> ValidChain(h.extHeaders) && Packet(h, payload).Ok? && Packet(h, payload).value <= buf
  {
    if DecodeBytes(buf) == Ok(Decoded(h, payload)) {
      DecodedIsValid(buf);
      DecodeThenEncode(buf);
    } else if ValidChain(h.extHeaders) && Packet(h, payload).Ok? && Packet(h, payload).value <= buf {
      PrintedPacketDecodes(h, payload, buf);
    }
  }

  /** A repeated type shows that the printer alone does not guarantee a decodable packet. */
  lemma {:induction false} RepeatedTypeIsRefused(src: Address, dst: Address)
    ensures var e := ExtensionHeader(RouteTrace, [0, 0, 0, 0, 0, 0, 0, 0]);
            var h := IPv8Header(8, 0, 64, 0, 64, 5, src, dst, [e, e]);
            && Packet(h, []).Ok? && DecodeBytes(Packet(h, []).value) == Err(ExtChainCycle)
  {
    var e := ExtensionHeader(RouteTrace, [0, 0, 0, 0, 0, 0, 0, 0]);
    var h := IPv8Header(8, 0, 64, 0, 64, 5, src, dst, [e, e]);
    assert h.extHeaders[1..] == [e] && [e][1..] == [];
    assert ChainSize([]) == 0 && ChainSize([e]) == 10 && ChainSize([e, e]) == 20;
    var pkt := Packet(h, []).value;
    assert ChainBytes([e]) == [0, 1] + e.payload;
    assert ChainBytes([e, e]) == [5, 1] + e.payload + ChainBytes([e]);
    assert pkt == BaseHeader(h) + ChainBytes([e, e]);
    assert pkt[40] == 5 && pkt[41] == 1 && |pkt| == 60;
    BaseParses(pkt, h) by { assert pkt[..40] == BaseHeader(h); }
    assert ParseChain(pkt, 50, 5, [5]) == Err(ExtChainCycle);
    assert ParseChain(pkt, 40, 5, []) == Err(ExtChainCycle) by { assert [] + [5 as u8] == [5]; }
  }
}
