/** Splitting a packet into fragments of a given maximum length. */
module Fragment {
  import opened Bytes
  import opened Header
  import opened Encode
  import opened Decode
  import opened Wrappers

  const FRAG_EXT_WIRE := 10

  /** `offset` counts units of 8 bytes. */
  datatype FragmentInfo = FragmentInfo(id: u32, offset: u16, more: bool)

  /** The fragment header: identification, 13-bit offset, more-fragments bit, reserved zeros. */
  function ToExt(f: FragmentInfo): (e: ExtensionHeader)
    ensures e.extType == ExtType.Fragment && |e.payload| == 8
  {
    ExtensionHeader(ExtType.Fragment,
                    Be32(f.id) + Be16(InfoWord(f)) + [0, 0])
  }

  function ParseInfo(e: ExtensionHeader): Option<FragmentInfo> {
    if e.extType != ExtType.Fragment || |e.payload| != 8 then Option.None
    else
      var word := Word16(e.payload[4], e.payload[5]);
      Some(FragmentInfo(Word32(e.payload[..4]), word / 8 % 0x2000, word / 4 % 2 == 1))
  }

  /** Bytes 4-5 of the fragment header. */
  function InfoWord(f: FragmentInfo): u16 { f.offset % 0x2000 * 8 + (if f.more then 4 else 0) }

  lemma {:induction false} InfoWordFields(f: FragmentInfo)
    ensures InfoWord(f) / 8 % 0x2000 == f.offset % 0x2000
    ensures InfoWord(f) / 4 % 2 == (if f.more then 1 else 0)
  {
  }

  /** The 13 offset bits are all that is carried: the header reads back as written exactly below 8192. */
  lemma {:induction false} InfoRoundTrip(f: FragmentInfo)
    ensures ParseInfo(ToExt(f)) == Some(f.(offset := f.offset % 0x2000))
    ensures ParseInfo(ToExt(f)) == Some(f) <==> f.offset < 0x2000
  {
    hide Be32, Be16, Word32, Word16, InfoWord;
    var p := ToExt(f).payload;
    assert p[..4] == Be32(f.id);
    WordsRoundTrip32(f.id);
    Word16RoundTrip(InfoWord(f), 0, 0);
    assert p[4] == Be16(InfoWord(f))[0] && p[5] == Be16(InfoWord(f))[1];
    InfoWordFields(f);
  }

  datatype FragmentError =
    | NotAValidPacket(cause: DecodeError)
    | AlreadyFragmented
    | LengthMismatch
    | MtuTooSmall(maxLen: nat)

  function DecodeErrFromEncode(e: EncodeError): DecodeError {
    match e
    case PayloadTooLong(n) => DecodeError.PayloadTooLong(n)
    case _ => TooShort(0)
  }

  /** What is common to the fragments of one packet: its header and payload, the payload bytes a
      fragment may carry, and the identification. */
  datatype Job = Job(header: IPv8Header, payload: bytes, chunk: nat, id: u32)

  /** The payload bytes carried by the fragment that starts at `pos`. */
  function Slice(j: Job, pos: nat): bytes
    requires pos <= |j.payload|
  {
    j.payload[pos..Min(pos + j.chunk, |j.payload|)]
  }

  function Info(j: Job, pos: nat): FragmentInfo
    requires pos < |j.payload| <= MAX_PAYLOAD_LEN
  {
    FragmentInfo(j.id, pos / 8, pos + j.chunk < |j.payload|)
  }

  /** The header of the fragment that starts at `pos`; the first one also carries the original chain. */
  function PieceHeader(j: Job, pos: nat): IPv8Header
    requires pos < |j.payload| <= MAX_PAYLOAD_LEN
  {
    var chain := [ToExt(Info(j, pos))] + (if pos == 0 then j.header.extHeaders else []);
    var bare := j.header.(flags := ClearFragment(ClearExtension(j.header.flags)), payloadLen := |Slice(j, pos)|,
                          nextHeader := 0, extHeaders := []);
    var h := AttachExtHeaders(bare, chain);
    h.(flags := SetFragment(h.flags))
  }

  function Pieces(j: Job, pos: nat): Result<seq<bytes>, FragmentError>
    requires |j.payload| <= MAX_PAYLOAD_LEN && j.chunk > 0
    decreases |j.payload| - pos
  {
    if pos >= |j.payload| then Ok([])
    else match Refusal(PieceHeader(j, pos))
      case Some(e) => Err(NotAValidPacket(DecodeErrFromEncode(e)))
      case None =>
        match Pieces(j, pos + j.chunk)
        case Err(e) => Err(e)
        case Ok(rest) => Ok([HeaderBytes(PieceHeader(j, pos)) + Slice(j, pos)] + rest)
  }

  /** The largest multiple of 8 that fits beside the base header, the fragment header and the chain. */
  function ChunkSize(maxLen: nat, extTotal: nat): nat {
    var used := BASE_HEADER_SIZE + FRAG_EXT_WIRE + extTotal;
    if maxLen < used then 0 else (maxLen - used) / 8 * 8
  }

  function JobOf(d: Decoded, maxLen: nat, id: u32): Job {
    Job(d.header, d.payload, ChunkSize(maxLen, ChainSize(d.header.extHeaders)), id)
  }

  predicate CarriesFragment(exts: seq<ExtensionHeader>) {
    exists i :: 0 <= i < |exts| && exts[i].extType == ExtType.Fragment
  }

  function SplitDecoded(d: Decoded, packet: bytes, maxLen: nat, id: u32): Result<seq<bytes>, FragmentError>
    requires |d.payload| <= MAX_PAYLOAD_LEN
  {
    if CarriesFragment(d.header.extHeaders) then Err(AlreadyFragmented)
    else if |packet| <= maxLen then Ok([packet])
    else if |d.payload| != d.header.payloadLen then Err(LengthMismatch)
    else if JobOf(d, maxLen, id).chunk < 8 then Err(MtuTooSmall(maxLen))
    else Pieces(JobOf(d, maxLen, id), 0)
  }

  function Split(packet: bytes, maxLen: nat, id: u32): Result<seq<bytes>, FragmentError> {
    match DecodeBytes(packet)
    case Err(e) => Err(NotAValidPacket(e))
    case Ok(d) => SplitDecoded(d, packet, maxLen, id)
  }

  ghost function After(out: seq<bytes>, r: Result<seq<bytes>, FragmentError>): Result<seq<bytes>, FragmentError> {
    match r
    case Ok(rest) => Ok(out + rest)
    case Err(e) => Err(e)
  }

  lemma {:induction false} AfterStep(out: seq<bytes>, piece: bytes, r: Result<seq<bytes>, FragmentError>)
    ensures After(out, After([piece], r)) == After(out + [piece], r)
  {
    if r.Ok? { assert out + ([piece] + r.value) == out + [piece] + r.value; }
  }

  method FragmentPacket(packet: bytes, maxLen: nat, id: u32) returns (r: Result<seq<bytes>, FragmentError>)
    ensures r == Split(packet, maxLen, id)
  {
    var decoded := Decode.Decode(packet);
    match decoded {
      case Err(e) => r := Err(NotAValidPacket(e));
      case Ok(d) => r := FragmentDecoded(d, packet, maxLen, id);
    }
  }

  method FragmentDecoded(d: Decoded, packet: bytes, maxLen: nat, id: u32)
    returns (r: Result<seq<bytes>, FragmentError>)
    requires |d.payload| <= MAX_PAYLOAD_LEN
    ensures r == SplitDecoded(d, packet, maxLen, id)
  {
    if CarriesFragment(d.header.extHeaders) { return Err(AlreadyFragmented); }
    if |packet| <= maxLen { return Ok([packet]); }
    if |d.payload| != d.header.payloadLen { return Err(LengthMismatch); }
    var chunk := ChunkSize(maxLen, ChainSize(d.header.extHeaders));
    if chunk < 8 { return Err(MtuTooSmall(maxLen)); }
    r := CutLoop(Job(d.header, d.payload, chunk, id));
  }

  /** The loop that emits one fragment a round. */
  method CutLoop(j: Job) returns (r: Result<seq<bytes>, FragmentError>)
    requires |j.payload| <= MAX_PAYLOAD_LEN && j.chunk >= 8 && j.chunk % 8 == 0
    ensures r == Pieces(j, 0)
  {
    hide Pieces, PieceHeader, Refusal, HeaderBytes;
    var out: seq<bytes> := [];
    var offsetUnits, pos := 0, 0;
    AfterNil(Pieces(j, 0));
    while pos < |j.payload|
      invariant 0 <= pos && (pos < |j.payload| ==> pos == 8 * offsetUnits)
      invariant 0 <= offsetUnits <= pos
      invariant After(out, Pieces(j, pos)) == Pieces(j, 0)
      decreases |j.payload| - pos
    {
      var take := Min(j.chunk, |j.payload| - pos);
      var more := pos + take < |j.payload|;
      var buf := new ByteBuf();
      var n := CutOne(j, pos, offsetUnits, take, more, buf);
      if n.Err? {
        RefusedPiece(j, pos, out);
        return Err(NotAValidPacket(DecodeErrFromEncode(n.error)));
      }
      Round(j, pos, take, out, buf.data);
      out := out + [buf.data];
      pos := pos + take;
      offsetUnits := offsetUnits + take / 8;
    }
    NoMorePieces(j, pos, out);
    r := Ok(out);
  }

  /** One fragment, appended to an empty buffer. */
  method CutOne(j: Job, pos: nat, offsetUnits: nat, take: nat, more: bool, buf: ByteBuf)
    returns (n: Result<nat, EncodeError>)
    requires pos < |j.payload| <= MAX_PAYLOAD_LEN && pos == 8 * offsetUnits && buf.data == []
    requires take == Min(j.chunk, |j.payload| - pos) && more == (pos + take < |j.payload|)
    modifies buf
    ensures match Refusal(PieceHeader(j, pos))
            case Some(e) => n == Err(e)
            case None => n.Ok? && buf.data == HeaderBytes(PieceHeader(j, pos)) + Slice(j, pos)
  {
    var hdr := MakeHeader(j, pos, FragmentInfo(j.id, offsetUnits, more), take);
    n := EncodeHeader(hdr, buf);
    if n.Ok? {
      assert [] + HeaderBytes(hdr) == HeaderBytes(hdr);
      buf.data := buf.data + j.payload[pos..pos + take];
    }
  }

  method MakeHeader(j: Job, pos: nat, info: FragmentInfo, take: u16) returns (hdr: IPv8Header)
    requires pos < |j.payload| <= MAX_PAYLOAD_LEN
    requires info == Info(j, pos) && take == |Slice(j, pos)|
    ensures hdr == PieceHeader(j, pos)
  {
    var chain := [ToExt(info)];
    if pos == 0 {
      chain := chain + j.header.extHeaders;
    }
    hdr := j.header.(flags := ClearFragment(ClearExtension(j.header.flags)), payloadLen := take,
                     nextHeader := 0, extHeaders := []);
    hdr := AttachExtHeaders(hdr, chain);
    hdr := hdr.(flags := SetFragment(hdr.flags));
  }

  lemma {:induction false} AfterNil(r: Result<seq<bytes>, FragmentError>)
    ensures After([], r) == r
  {
    if r.Ok? { assert [] + r.value == r.value; }
  }

  lemma {:induction false} NoMorePieces(j: Job, pos: nat, out: seq<bytes>)
    requires |j.payload| <= MAX_PAYLOAD_LEN && j.chunk > 0 && pos >= |j.payload|
    ensures After(out, Pieces(j, pos)) == Ok(out)
  {
    assert out + [] == out;
  }

  lemma {:induction false} RefusedPiece(j: Job, pos: nat, out: seq<bytes>)
    requires pos < |j.payload| <= MAX_PAYLOAD_LEN && j.chunk > 0 && Refusal(PieceHeader(j, pos)).Some?
    ensures After(out, Pieces(j, pos))
         == Err(NotAValidPacket(DecodeErrFromEncode(Refusal(PieceHeader(j, pos)).value)))
  {
  }

  lemma {:induction false} Round(j: Job, pos: nat, take: nat, out: seq<bytes>, piece: bytes)
    requires pos < |j.payload| <= MAX_PAYLOAD_LEN && j.chunk > 0 && take == Min(j.chunk, |j.payload| - pos)
    requires Refusal(PieceHeader(j, pos)) == Option.None
    requires piece == HeaderBytes(PieceHeader(j, pos)) + Slice(j, pos)
    ensures After(out, Pieces(j, pos)) == After(out + [piece], Pieces(j, pos + take))
  {
    var rest := Pieces(j, pos + j.chunk);
    assert Pieces(j, pos) == After([piece], rest);
    AfterStep(out, piece, rest);
  }
}
