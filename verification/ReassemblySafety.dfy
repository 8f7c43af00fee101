/** What every run of the reassembler keeps, for arbitrary fragments from anyone. */
module ReassemblySafety {
  import opened Bytes
  import opened Header
  import opened Encode
  import opened Decode
  import opened Fragment
  import opened Reassembly
  import opened ReassemblyProofs
  import opened RoundTrip
  import opened SplitProofs
  import opened Wrappers

  /** One call of `insert`. */
  datatype Insertion = Insertion(header: IPv8Header, payload: bytes, now: nat)

  /** What a decoder hands over. */
  ghost predicate FromDecoder(h: IPv8Header) {
    h.version == VERSION && h.minCompatVer <= 15 && |h.extHeaders| <= MAX_EXT_CHAIN
  }

  function Insert(groups: Groups, e: Insertion): Step {
    InsertStep(groups, e.header, e.payload, e.now)
  }

  function RunOf(history: seq<Insertion>): Groups {
    if history == [] then map[] else Insert(RunOf(history[..|history| - 1]), history[|history| - 1]).groups
  }

  // ---- provenance ----

  /** The fragment was examined for `key` and starts at `start`. */
  predicate IsFor(e: Insertion, key: Key, start: nat) {
    match Examine(e.header, e.payload)
    case Ok(f) => KeyOf(e.header, f.id) == key && 8 * (f.offset as nat) == start
    case Err(_) => false
  }

  /** The fragment has byte `b` for offset `i` of the packet under `key`. */
  predicate Covers(e: Insertion, key: Key, start: nat, i: nat, b: u8) {
    IsFor(e, key, start) && start <= i < start + |e.payload| && e.payload[i - start] == b
  }

  ghost predicate ByteTraced(history: seq<Insertion>, key: Key, i: nat, b: u8) {
    exists k: nat, start: nat :: k < |history| && Covers(history[k], key, start, i, b)
  }

  ghost predicate ChunkTraced(history: seq<Insertion>, key: Key, start: nat, chunk: bytes) {
    exists k: nat :: k < |history| && IsFor(history[k], key, start) && history[k].payload == chunk
  }

  ghost predicate PayloadTraced(history: seq<Insertion>, key: Key, payload: bytes) {
    forall i :: 0 <= i < |payload| ==> ByteTraced(history, key, i, payload[i])
  }

  /** Every byte the group holds was sent for its key at its offset, and its fields are in range. */
  ghost predicate GroupOk(history: seq<Insertion>, key: Key, g: Group) {
    && |g.payload| == g.pos
    && PayloadTraced(history, key, g.payload)
    && (forall start :: start in g.chunks ==> ChunkTraced(history, key, start, g.chunks[start]))
    && (g.total.Some? ==> g.total.value <= MAX_GROUP_BYTES)
    && g.version == VERSION && g.minCompatVer <= 15
    && (g.origExt.Some? ==> |g.origExt.value| < MAX_EXT_CHAIN)
    && !HasExtension(g.flags)
  }

  ghost predicate AllOk(history: seq<Insertion>, groups: Groups) {
    && |groups| <= MAX_GROUPS
    && (forall key :: key in groups ==> GroupOk(history, key, groups[key]))
  }

  lemma {:induction false} MoreHistory(history: seq<Insertion>, e: Insertion, key: Key, g: Group)
    requires GroupOk(history, key, g)
    ensures GroupOk(history + [e], key, g)
  {
    hide IsFor, Covers;
    var more := history + [e];
    assert forall k :: 0 <= k < |history| ==> more[k] == history[k];
    forall i | 0 <= i < |g.payload| ensures ByteTraced(more, key, i, g.payload[i]) {
      assert ByteTraced(history, key, i, g.payload[i]);
    }
    forall start | start in g.chunks ensures ChunkTraced(more, key, start, g.chunks[start]) {
      assert ChunkTraced(history, key, start, g.chunks[start]);
    }
  }

  /** Consuming a traced chunk extends the traced payload. */
  lemma {:induction false} PayloadGrows(history: seq<Insertion>, key: Key, payload: bytes, chunk: bytes)
    requires PayloadTraced(history, key, payload) && ChunkTraced(history, key, |payload|, chunk)
    ensures PayloadTraced(history, key, payload + chunk)
  {
    hide IsFor;
    var k: nat :| k < |history| && IsFor(history[k], key, |payload|) && history[k].payload == chunk;
    forall i | 0 <= i < |payload + chunk| ensures ByteTraced(history, key, i, (payload + chunk)[i]) {
      if i < |payload| {
        assert ByteTraced(history, key, i, payload[i]);
      } else {
        assert Covers(history[k], key, |payload|, i, (payload + chunk)[i]);
      }
    }
  }

  lemma {:induction false} ConsumeKeepsOk(history: seq<Insertion>, key: Key, g: Group)
    requires GroupOk(history, key, g) && g.pos in g.chunks
    ensures var b := g.chunks[g.pos];
            GroupOk(history, key, g.(chunks := g.chunks - {g.pos}, payload := g.payload + b, pos := g.pos + |b|))
  {
    hide PayloadTraced, ChunkTraced, HasExtension;
    PayloadGrows(history, key, g.payload, g.chunks[g.pos]);
  }

  lemma {:induction false} AdvanceKeepsOk(history: seq<Insertion>, key: Key, g: Group)
    requires GroupOk(history, key, g)
    ensures GroupOk(history, key, Advance(g))
    decreases |g.chunks|
  {
    hide GroupOk;
    if g.pos in g.chunks {
      var b := g.chunks[g.pos];
      ConsumeKeepsOk(history, key, g);
      AdvanceKeepsOk(history, key, g.(chunks := g.chunks - {g.pos}, payload := g.payload + b, pos := g.pos + |b|));
    }
  }

  /** The group with the fragment stored, before advancing. */
  function Stored(g: Group, e: Insertion, f: FragmentInfo): Group {
    var start := 8 * (f.offset as nat);
    var g1 := if f.more then g else g.(total := Some(start + |e.payload|));
    var g2 := if start == 0 && g1.origExt == Option.None && e.header.extHeaders != []
              then g1.(origExt := Some(e.header.extHeaders[1..])) else g1;
    g2.(chunks := g2.chunks[start := e.payload])
  }

  lemma {:induction false} StoredIsOk(history: seq<Insertion>, e: Insertion, key: Key, g: Group, f: FragmentInfo)
    requires GroupOk(history + [e], key, g) && FromDecoder(e.header)
    requires Examine(e.header, e.payload) == Ok(f) && KeyOf(e.header, f.id) == key
    requires f.more || 8 * (f.offset as nat) + |e.payload| <= MAX_GROUP_BYTES
    ensures GroupOk(history + [e], key, Stored(g, e, f))
  {
    var more := history + [e];
    assert ChunkTraced(more, key, 8 * (f.offset as nat), e.payload) by {
      assert more[|history|] == e && IsFor(e, key, 8 * (f.offset as nat));
    }
    hide PayloadTraced, ChunkTraced, HasExtension, Examine, KeyOf;
  }

  lemma {:induction false} PlaceKeepsOk(history: seq<Insertion>, e: Insertion, key: Key, g: Group, f: FragmentInfo)
    requires GroupOk(history + [e], key, g) && FromDecoder(e.header)
    requires Examine(e.header, e.payload) == Ok(f) && KeyOf(e.header, f.id) == key
    ensures GroupOk(history + [e], key, Place(g, e.header, f, e.payload).group)
  {
    hide GroupOk, Examine, KeyOf, Advance;
    if f.more || 8 * (f.offset as nat) + |e.payload| <= MAX_GROUP_BYTES {
      StoredIsOk(history, e, key, g, f);
      AdvanceKeepsOk(history + [e], key, Stored(g, e, f));
    }
  }

  lemma {:induction false} NewGroupOk(history: seq<Insertion>, key: Key, h: IPv8Header, now: nat)
    requires FromDecoder(h)
    ensures GroupOk(history, key, NewGroup(h, now))
  {
    hide HasFragment, HasExtension, ClearFragment, ClearExtension, Flags;
    var r, x, f, low := FlagsDecompose(h.flags);
    FlagsCompose(r, x, f, low);
    FlagsCompose(r, x, 0, low);
    FlagsCompose(r, 0, 0, low);
  }

  /** One insertion: the group of the fragment's key may change; every other group is kept as it is
      unless it has timed out. */
  lemma {:induction false} OtherGroupsUntouched(groups: Groups, e: Insertion, key: Key)
    requires match Examine(e.header, e.payload)
             case Ok(f) => key != KeyOf(e.header, f.id)
             case Err(_) => false
    ensures var after := Insert(groups, e).groups;
            && (key in after <==> key in groups && Live(groups[key], e.now))
            && (key in after ==> after[key] == groups[key])
  {
    hide Place, Complete, Rebuild, NewGroup, KeyOf, Examine;
  }

  /** A refused examination changes nothing, not even timed-out groups. */
  lemma {:induction false} RefusedChangesNothing(groups: Groups, e: Insertion)
    requires Examine(e.header, e.payload).Err?
    ensures Insert(groups, e) == Step(groups, Rejected(Examine(e.header, e.payload).error))
  {
    hide Examine;
  }

  lemma {:induction false} InsertLiveKeepsOk(history: seq<Insertion>, groups: Groups, e: Insertion, f: FragmentInfo)
    requires AllOk(history, groups) && FromDecoder(e.header) && Examine(e.header, e.payload) == Ok(f)
    ensures AllOk(history + [e], InsertLive(groups, e.header, f, e.payload, e.now).groups)
    ensures TracedOutcome(history + [e], KeyOf(e.header, f.id),
                          InsertLive(groups, e.header, f, e.payload, e.now).outcome)
  {
    var key := KeyOf(e.header, f.id);
    hide GroupOk, Examine, NewGroup, KeyOf, Place, Rebuild;
    forall k | k in groups ensures GroupOk(history + [e], k, groups[k]) { MoreHistory(history, e, k, groups[k]); }
    NewGroupOk(history + [e], key, e.header, e.now);
    var g := if key in groups then groups[key] else NewGroup(e.header, e.now);
    PlaceKeepsOk(history, e, key, g, f);
    var p := Place(g, e.header, f, e.payload);
    assert p.error == Option.None && Complete(p.group) ==> TracedOutcome(history + [e], key, Rebuild(p.group));
    assert TracedOutcome(history + [e], key, Incomplete);
    assert forall error :: TracedOutcome(history + [e], key, Rejected(error));
    hide Complete, TracedOutcome;
  }

  /** Whatever comes out was rebuilt from a complete group of traced bytes. */
  ghost predicate TracedOutcome(history: seq<Insertion>, key: Key, o: Outcome) {
    o.Reassembled? || o.EncodeFailed? ==> exists g :: GroupOk(history, key, g) && Complete(g) && o == Rebuild(g)
  }

  lemma {:induction false} ReapKeepsOk(history: seq<Insertion>, groups: Groups, now: nat)
    requires AllOk(history, groups)
    ensures AllOk(history, Reaped(groups, now))
  {
    hide GroupOk;
    var kept := Reaped(groups, now);
    assert kept.Keys <= groups.Keys;
    assert groups.Keys == kept.Keys + (groups.Keys - kept.Keys);
  }

  /** Over every history of decoded fragments: at most 64 groups, each holding exactly as many payload bytes
      as its position says, every byte the one that some fragment of that key carried for that offset. */
  lemma {:induction false} EveryRunIsOk(history: seq<Insertion>)
    requires forall k :: 0 <= k < |history| ==> FromDecoder(history[k].header)
    ensures AllOk(history, RunOf(history))
    ensures history != [] ==>
              var e := history[|history| - 1];
              forall f :: Examine(e.header, e.payload) == Ok(f) ==>
                TracedOutcome(history, KeyOf(e.header, f.id), Insert(RunOf(history[..|history| - 1]), e).outcome)
  {
    if history == [] {
    } else {
      var n := |history| - 1;
      var early, e := history[..n], history[n];
      EveryRunIsOk(early);
      assert early + [e] == history;
      OneMoreIsOk(early, RunOf(early), e);
    }
  }

  lemma {:induction false} OneMoreIsOk(history: seq<Insertion>, groups: Groups, e: Insertion)
    requires AllOk(history, groups) && FromDecoder(e.header)
    ensures AllOk(history + [e], Insert(groups, e).groups)
    ensures forall f :: Examine(e.header, e.payload) == Ok(f) ==>
              TracedOutcome(history + [e], KeyOf(e.header, f.id), Insert(groups, e).outcome)
  {
    hide Examine, GroupOk, TracedOutcome, InsertLive, KeyOf;
    match Examine(e.header, e.payload)
    case Err(_) =>
      forall key | key in groups ensures GroupOk(history + [e], key, groups[key]) {
        MoreHistory(history, e, key, groups[key]);
      }
    case Ok(f) =>
      ReapKeepsOk(history, groups, e.now);
      InsertLiveKeepsOk(history, Reaped(groups, e.now), e, f);
  }

  // ---- the encoder call that is assumed to succeed ----

  /** Rebuilding succeeds if and only if the first fragment to arrive had zero reserved flags and the
      original chain still fits beside the whole payload. */
  lemma {:induction false} RebuildSucceeds(history: seq<Insertion>, key: Key, g: Group)
    requires GroupOk(history, key, g) && Complete(g)
    ensures Rebuild(g).Reassembled? <==>
            && ReservedOk(g.flags)
            && BASE_HEADER_SIZE + (if g.origExt.Some? then ChainSize(g.origExt.value) else 0) + g.pos <= MAX_PACKET_LEN
    ensures Rebuild(g).Reassembled? ==>
              var n := |Rebuild(g).packet|;
              n >= g.pos && Rebuild(g).packet[n - g.pos..] == g.payload
  {
    RebuiltFields(g);
    hide HasExtension, ReservedOk, RebuiltHeader, PayloadTraced, ChunkTraced, HeaderBytes, ChainSize, FirstType;
  }

  lemma {:induction false} RebuiltFields(g: Group)
    requires g.total == Some(g.pos) && g.pos <= MAX_GROUP_BYTES && !HasExtension(g.flags)
    requires g.version == VERSION && g.minCompatVer <= 15
    ensures var h := RebuiltHeader(g); var chain := if g.origExt.Some? then g.origExt.value else [];
            && h.version == VERSION && h.minCompatVer == g.minCompatVer && h.payloadLen == g.pos
            && h.extHeaders == chain && h.nextHeader == FirstType(chain)
            && HasExtension(h.flags) == (chain != [])
            && (ReservedOk(h.flags) <==> ReservedOk(g.flags))
  {
    hide HasExtension, ReservedOk, SetExtension, ClearExtension, Flags;
    var r, x, f, low := FlagsDecompose(g.flags);
    FlagsCompose(r, x, f, low);
    FlagsCompose(r, 1, f, low);
  }

  /** A decodable lone fragment with a reserved flag set reaches the rebuild and is refused by the encoder,
      where the program takes success for granted. */
  lemma {:induction false} ReservedFlagReachesEncoder(src: Address, dst: Address)
    ensures var h := IPv8Header(8, 0, 224, 0, 64, 6, src, dst, [ToExt(FragmentInfo(1, 0, false))]);
            && DecodeBytes(HeaderBytes(h)) == Ok(Decoded(h, []))
            && InsertStep(map[], h, [], 0).outcome == EncodeFailed(ReservedBits)
  {
    var info := FragmentInfo(1, 0, false);
    var h := IPv8Header(8, 0, 224, 0, 64, 6, src, dst, [ToExt(info)]);
    InfoRoundTrip(info);
    ReservedFlagDecodes(h);
    LoneFragmentFails(h, info);
  }

  lemma {:induction false} ReservedFlagDecodes(h: IPv8Header)
    requires h.version == 8 && h.minCompatVer == 0 && h.flags == 224 && h.payloadLen == 0 && h.nextHeader == 6
    requires |h.extHeaders| == 1 && ValidChain(h.extHeaders) && |h.extHeaders[0].payload| == 8
    requires h.extHeaders[0].extType == ExtType.Fragment
    ensures DecodeBytes(HeaderBytes(h)) == Ok(Decoded(h, []))
  {
    var buf := HeaderBytes(h);
    assert ChainSize(h.extHeaders) == 10 by { OneExtensionSize(h.extHeaders); }
    assert HasExtension(224);
    HeaderParts(h);
    hide DecodeBytes, HeaderBytes, BaseHeader, ChainBytes, ReadBase, ParseExtensions, ValidChain, HasExtension,
        ChainSize;
    BaseParses(buf, h);
    PrintedExtensionsParse(h, buf);
    DecodeByParts(buf, h, [], Chain(h.extHeaders, 50));
  }

  lemma {:induction false} OneExtensionSize(exts: seq<ExtensionHeader>)
    requires |exts| == 1
    ensures ChainSize(exts) == 2 + |exts[0].payload|
  {
    assert exts[1..] == [];
  }

  lemma {:induction false} LoneFragmentFails(h: IPv8Header, info: FragmentInfo)
    requires h.version == 8 && h.minCompatVer == 0 && h.flags == 224 && |h.extHeaders| == 1
    requires ParseInfo(h.extHeaders[0]) == Some(info) && info == FragmentInfo(1, 0, false)
    requires h.extHeaders[0].extType == ExtType.Fragment
    ensures InsertStep(map[], h, [], 0).outcome == EncodeFailed(ReservedBits)
  {
    hide ParseInfo, Place, Advance, NewGroup, Examine, Rebuild, KeyOf, InsertLive, Flags;
    var g := NewGroup(h, 0);
    LoneFragmentExamined(h, info);
    FreshGroup(h);
    LoneFragmentPlaced(h, info, g);
    assert Reaped(map[], 0) == map[];
    var placed := g.(total := Some(0), origExt := Some([]));
    InsertAccepted(map[], h, info, [], 0, g, placed);
    ReservedRebuild(placed);
  }

  lemma {:induction false} LoneFragmentExamined(h: IPv8Header, info: FragmentInfo)
    requires h.flags == 224 && |h.extHeaders| == 1
    requires ParseInfo(h.extHeaders[0]) == Some(info) && info == FragmentInfo(1, 0, false)
    requires h.extHeaders[0].extType == ExtType.Fragment
    ensures Examine(h, []) == Ok(info)
  {
    hide ParseInfo;
  }

  lemma {:induction false} FreshGroup(h: IPv8Header)
    requires h.flags == 224 && h.version == 8 && h.minCompatVer == 0
    ensures NewGroup(h, 0) == Group(Option.None, 128, 8, 0, h.hopLimit, h.srcAddr, h.dstAddr, map[], 0, Option.None,
          [], 0)
  {
    assert ClearFragment(224) == 192 && ClearExtension(192) == 128;
  }

  lemma {:induction false} ReservedRebuild(g: Group)
    requires g.total == Some(0) && g.origExt == Some([]) && g.flags == 128
    requires g.version == VERSION && g.minCompatVer == 0
    ensures Rebuild(g) == EncodeFailed(ReservedBits)
  {
    hide HeaderBytes;
    assert ClearExtension(128) == 128 && !ReservedOk(128);
  }

  lemma {:induction false} LoneFragmentPlaced(h: IPv8Header, info: FragmentInfo, g: Group)
    requires info == FragmentInfo(1, 0, false) && |h.extHeaders| == 1
    requires g.chunks == map[] && g.pos == 0 && g.payload == [] && g.total == Option.None && g.origExt == Option.None
    ensures Place(g, h, info, []) == Placed(g.(total := Some(0), origExt := Some([])), Option.None)
  {
    var placed := g.(total := Some(0), origExt := Some([]));
    var g3 := placed.(chunks := map[0 := []]);
    assert h.extHeaders[1..] == [];
    assert g3.chunks - {0} == map[] && g3.payload + [] == [];
    assert Advance(g3) == Advance(placed) == placed;
  }
}
