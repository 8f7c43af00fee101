/** Putting fragments back together. */
module Reassembly {
  import opened Bytes
  import opened Header
  import opened Encode
  import opened Fragment
  import opened Wrappers

  const MAX_GROUPS := 64
  const MAX_GROUP_BYTES := 65467
  /** Milliseconds. */
  const REASSEMBLY_TIMEOUT := 30_000

  datatype ReassemblyError =
    | FlagMismatch
    | NotFirstExt
    | Overlap
    | BeyondTotal
    | Misaligned
    | Oversize
    | OffsetOverflow
    | TooManyGroups

  datatype Key = Key(src: bytes, dst: bytes, id: u32)

  /** One packet under reassembly. `chunks` are payloads ahead of `pos`, by offset; `payload` is the
      contiguous beginning; `total` is known once a last fragment has been seen. */
  datatype Group = Group(origExt: Option<seq<ExtensionHeader>>, flags: u16, version: u8, minCompatVer: u8,
                         hopLimit: u8, src: Address, dst: Address, chunks: map<nat, bytes>, pos: nat,
                         total: Option<nat>, payload: bytes, created: nat)

  type Groups = map<Key, Group>

  /** The result of an insertion. `EncodeFailed` is the program's panic on an encoder error. */
  datatype Outcome =
    | Incomplete
    | Reassembled(packet: bytes)
    | Rejected(error: ReassemblyError)
    | EncodeFailed(cause: EncodeError)

  function KeyOf(h: IPv8Header, id: u32): Key {
    Key(AddressBytes(h.srcAddr), AddressBytes(h.dstAddr), id)
  }

  /** The checks that need no group. */
  function Examine(h: IPv8Header, payload: bytes): Result<FragmentInfo, ReassemblyError> {
    var frag := if h.extHeaders == [] then Option.None else ParseInfo(h.extHeaders[0]);
    if !HasFragment(h.flags) || frag == Option.None then Err(ReassemblyError.FlagMismatch)
    else if h.extHeaders[0].extType != ExtType.Fragment then Err(NotFirstExt)
    else if 8 * (frag.value.offset as nat) > 8 * 0x1FFF then Err(OffsetOverflow)
    else if frag.value.more && |payload| % 8 != 0 then Err(Misaligned)
    else Ok(frag.value)
  }

  predicate Live(g: Group, now: nat) {
    now - g.created < REASSEMBLY_TIMEOUT
  }

  function Reaped(groups: Groups, now: nat): Groups {
    map k | k in groups && Live(groups[k], now) :: groups[k]
  }

  function NewGroup(h: IPv8Header, now: nat): Group {
    Group(Option.None, ClearExtension(ClearFragment(h.flags)), h.version, h.minCompatVer, h.hopLimit,
          h.srcAddr, h.dstAddr, map[], 0, Option.None, [], now)
  }

  /** Move chunks that continue the payload into it. An empty chunk is consumed without progress. */
  function Advance(g: Group): Group
    decreases |g.chunks|
  {
    if g.pos in g.chunks then
      var b := g.chunks[g.pos];
      Advance(g.(chunks := g.chunks - {g.pos}, payload := g.payload + b, pos := g.pos + |b|))
    else g
  }

  /** A group after a fragment, and the error if the fragment was rejected. */
  datatype Placed = Placed(group: Group, error: Option<ReassemblyError>)

  /** Record the fragment's total and chain, then its bytes. */
  function Place(g: Group, h: IPv8Header, f: FragmentInfo, payload: bytes): Placed {
    var start := 8 * (f.offset as nat);
    var end := start + |payload|;
    if start < g.pos then Placed(g, Some(Overlap))
    else if g.total.Some? && end > g.total.value then Placed(g, Some(BeyondTotal))
    else if !f.more && end > MAX_GROUP_BYTES then Placed(g, Some(Oversize))
    else if !f.more && g.total.Some? && g.total.value != end then Placed(g, Some(BeyondTotal))
    else
      var g1 := if f.more then g else g.(total := Some(end));
      var g2 := if start == 0 && g1.origExt == Option.None && h.extHeaders != []
                then g1.(origExt := Some(h.extHeaders[1..])) else g1;
      var g3 := g2.(chunks := g2.chunks[start := payload]);
      if start in g.chunks then Placed(g3, Some(Overlap))
      else Placed(Advance(g3), Option.None)
  }

  predicate Complete(g: Group) {
    g.total == Some(g.pos)
  }

  /** The header of the rebuilt packet. */
  function RebuiltHeader(g: Group): IPv8Header
    requires g.total.Some?
  {
    AttachExtHeaders(IPv8Header(g.version, g.minCompatVer, g.flags, g.total.value % 0x1_0000, g.hopLimit, 0,
                                g.src, g.dst, []),
                     if g.origExt.Some? then g.origExt.value else [])
  }

  function Rebuild(g: Group): Outcome
    requires g.total.Some?
  {
    match Refusal(RebuiltHeader(g))
    case Some(e) => EncodeFailed(e)
    case None => Reassembled(HeaderBytes(RebuiltHeader(g)) + g.payload)
  }

  datatype Step = Step(groups: Groups, outcome: Outcome)

  /** Insertion once the fragment has passed `Examine` and the reaper has run. */
  function InsertLive(groups: Groups, h: IPv8Header, f: FragmentInfo, payload: bytes, now: nat): Step {
    var key := KeyOf(h, f.id);
    if key !in groups && |groups| >= MAX_GROUPS then Step(groups, Rejected(TooManyGroups))
    else
      var p := Place(if key in groups then groups[key] else NewGroup(h, now), h, f, payload);
      if p.error.Some? then Step(groups[key := p.group], Rejected(p.error.value))
      else if Complete(p.group) then Step(groups - {key}, Rebuild(p.group))
      else Step(groups[key := p.group], Incomplete)
  }

  function InsertStep(groups: Groups, h: IPv8Header, payload: bytes, now: nat): Step {
    match Examine(h, payload)
    case Err(e) => Step(groups, Rejected(e))
    case Ok(f) => InsertLive(Reaped(groups, now), h, f, payload, now)
  }

  class Reassembler {
    var groups: Groups

    constructor ()
      ensures groups == map[]
    {
      groups := map[];
    }

    method ActiveGroups() returns (n: nat)
      ensures n == |groups|
    {
      n := |groups|;
    }

    method Reap(now: nat)
      modifies this
      ensures groups == Reaped(old(groups), now)
    {
      groups := map k | k in groups && Live(groups[k], now) :: groups[k];
    }

    /** Insert a decoded fragment; `now` is the clock reading during the call. */
    method Insert(h: IPv8Header, payload: bytes, now: nat) returns (r: Outcome)
      modifies this
      ensures Step(groups, r) == InsertStep(old(groups), h, payload, now)
    {
      var frag := if h.extHeaders == [] then Option.None else ParseInfo(h.extHeaders[0]);
      if !HasFragment(h.flags) || frag == Option.None { return Rejected(ReassemblyError.FlagMismatch); }
      var f := frag.value;
      if h.extHeaders[0].extType != ExtType.Fragment { return Rejected(NotFirstExt); }
      if 8 * (f.offset as nat) > 8 * 0x1FFF { return Rejected(OffsetOverflow); }
      if f.more && |payload| % 8 != 0 { return Rejected(Misaligned); }
      Reap(now);
      r := InsertExamined(h, f, payload, now);
    }

    method InsertExamined(h: IPv8Header, f: FragmentInfo, payload: bytes, now: nat) returns (r: Outcome)
      modifies this
      requires h.extHeaders != [] && forall k :: k in groups ==> Live(groups[k], now)
      ensures Step(groups, r) == InsertLive(old(groups), h, f, payload, now)
    {
      hide Refusal, HeaderBytes, RebuiltHeader;
      var key := KeyOf(h, f.id);
      if key !in groups && |groups| >= MAX_GROUPS {
        Reap(now);
        assert groups == old(groups);
        if |groups| >= MAX_GROUPS { return Rejected(TooManyGroups); }
      }
      if key !in groups {
        groups := groups[key := NewGroup(h, now)];
      }
      var error := PlaceAt(key, h, f, payload);
      if error.Some? { return Rejected(error.value); }
      if groups[key].total != Some(groups[key].pos) { return Incomplete; }
      var g := groups[key];
      groups := groups - {key};
      r := RebuildPacket(g);
    }

    /** Store the fragment in its group and advance the contiguous payload. */
    method PlaceAt(key: Key, h: IPv8Header, f: FragmentInfo, payload: bytes)
      returns (error: Option<ReassemblyError>)
      requires key in groups && h.extHeaders != []
      modifies this
      ensures var p := Place(old(groups)[key], h, f, payload);
              groups == old(groups)[key := p.group] && error == p.error
    {
      var start, end := 8 * (f.offset as nat), 8 * (f.offset as nat) + |payload|;
      var g := groups[key];
      assert groups == groups[key := g];
      if start < g.pos { return Some(Overlap); }
      if g.total.Some? && end > g.total.value { return Some(BeyondTotal); }
      if !f.more {
        if end > MAX_GROUP_BYTES { return Some(Oversize); }
        if g.total.Some? && g.total.value != end { return Some(BeyondTotal); }
        g := g.(total := Some(end));
      }
      if start == 0 && g.origExt == Option.None {
        g := g.(origExt := Some(h.extHeaders[1..]));
      }
      var taken := start in g.chunks;
      g := g.(chunks := g.chunks[start := payload]);
      if taken {
        groups := groups[key := g];
        return Some(Overlap);
      }
      g := AdvanceGroup(g);
      groups := groups[key := g];
      error := Option.None;
    }

    static method AdvanceGroup(start: Group) returns (g: Group)
      ensures g == Advance(start)
    {
      g := start;
      while g.pos in g.chunks
        invariant Advance(g) == Advance(start)
        decreases |g.chunks|
      {
        var b := g.chunks[g.pos];
        g := g.(chunks := g.chunks - {g.pos}, payload := g.payload + b, pos := g.pos + |b|);
      }
    }

    method RebuildPacket(g: Group) returns (r: Outcome)
      requires g.total.Some?
      ensures r == Rebuild(g)
    {
      var hdr := RebuiltHeader(g);
      var pkt := new ByteBuf();
      var n := EncodeHeader(hdr, pkt);
      if n.Err? { return EncodeFailed(n.error); }
      pkt.data := pkt.data + g.payload;
      assert [] + HeaderBytes(hdr) == HeaderBytes(hdr);
      r := Reassembled(pkt.data);
    }
  }
}
