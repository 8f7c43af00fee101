/** The state of one group as a function of the set of fragments it has received. */
module GroupProofs {
  import opened Bytes
  import opened Header
  import opened Encode
  import opened Fragment
  import opened Reassembly
  import opened SplitProofs
  import opened Wrappers

  // ---- multiples of the chunk size ----

  lemma {:induction false} ModNext(a: nat, c: nat)
    requires c > 0 && a % c == 0
    ensures (a + c) % c == 0
  {
    assert a == c * (a / c);
    assert a + c == c * (a / c + 1);
    MulMod(c, a / c + 1);
  }

  lemma {:induction false} MulMod(c: nat, q: nat)
    requires c > 0
    ensures c * q % c == 0
  {
    var a := c * q;
    assert a == c * (a / c) + a % c;
    MulOrder(c, a / c, q);
    MulOrder(c, q, a / c);
  }

  lemma {:induction false} MulOrder(c: nat, p: nat, q: nat)
    ensures p < q ==> c * p + c <= c * q
  {
    if p < q { assert c * q == c * (p + 1) + c * (q - p - 1); }
  }

  lemma {:induction false} ModGap(a: nat, b: nat, c: nat)
    requires c > 0 && a % c == 0 && b % c == 0 && a < b
    ensures a + c <= b
  {
    var p, q := a / c, b / c;
    assert a == c * p && b == c * q;
    MulOrder(c, p, q);
    MulOrder(c, q, p);
  }

  lemma {:induction false} ModOf8(s: nat, c: nat)
    requires c > 0 && c % 8 == 0 && s % c == 0
    ensures s % 8 == 0
  {
    var q, u := s / c, c / 8;
    assert s == c * q && c == 8 * u;
    assert s == 8 * (u * q);
  }

  // ---- starts and the frontier ----

  /** The offsets at which the fragments of `j` start. */
  function Starts(j: Job): set<nat>
    requires j.chunk > 0
  {
    set s: nat | s < |j.payload| && s % j.chunk == 0
  }

  lemma {:induction false} StartsFromMembers(j: Job, pos: nat, s: nat)
    requires j.chunk > 0 && pos % j.chunk == 0
    ensures s in StartsFrom(|j.payload|, j.chunk, pos) <==> pos <= s && s in Starts(j)
    decreases |j.payload| - pos
  {
    if pos < |j.payload| {
      ModNext(pos, j.chunk);
      StartsFromMembers(j, pos + j.chunk, s);
      if pos < s && s in Starts(j) { ModGap(pos, s, j.chunk); }
    }
  }

  /** The first offset from `pos` on that is missing from `got`, or the payload length. */
  function Frontier(j: Job, got: set<nat>, pos: nat): (f: nat)
    requires j.chunk > 0
    ensures f <= |j.payload| && (pos <= |j.payload| ==> pos <= f)
    decreases |j.payload| - pos
  {
    if pos >= |j.payload| then |j.payload|
    else if pos in got then Frontier(j, got, pos + j.chunk)
    else pos
  }

  lemma {:induction false} FrontierIsStart(j: Job, got: set<nat>, pos: nat)
    requires j.chunk > 0 && pos % j.chunk == 0
    ensures var f := Frontier(j, got, pos);
            f == |j.payload| || (f in Starts(j) && f !in got)
    decreases |j.payload| - pos
  {
    if pos < |j.payload| && pos in got {
      ModNext(pos, j.chunk);
      FrontierIsStart(j, got, pos + j.chunk);
    }
  }

  lemma {:induction false} FrontierCovers(j: Job, got: set<nat>, pos: nat, s: nat)
    requires j.chunk > 0 && pos % j.chunk == 0
    requires s in Starts(j) && pos <= s < Frontier(j, got, pos)
    ensures s in got
    decreases |j.payload| - pos
  {
    if pos < s {
      ModNext(pos, j.chunk);
      ModGap(pos, s, j.chunk);
      FrontierCovers(j, got, pos + j.chunk, s);
    }
  }

  lemma {:induction false} ZeroMod(c: nat)
    requires c > 0
    ensures 0 % c == 0
  {
  }

  /** The frontier reaches the end exactly when everything has been received. */
  lemma {:induction false} FrontierComplete(j: Job, got: set<nat>)
    requires j.chunk > 0 && got <= Starts(j)
    ensures Frontier(j, got, 0) == |j.payload| <==> got == Starts(j)
  {
    ZeroMod(j.chunk);
    if Frontier(j, got, 0) == |j.payload| {
      forall s | s in Starts(j) ensures s in got { FrontierCovers(j, got, 0, s); }
    } else {
      FrontierIsStart(j, got, 0);
    }
  }

  /** More fragments resume the walk where fewer had stopped. */
  lemma {:induction false} FrontierResumes(j: Job, got: set<nat>, more: set<nat>, pos: nat)
    requires j.chunk > 0 && got <= more
    ensures Frontier(j, more, pos) == Frontier(j, more, Frontier(j, got, pos))
    decreases |j.payload| - pos
  {
    if pos < |j.payload| && pos in got { FrontierResumes(j, got, more, pos + j.chunk); }
  }

  // ---- groups ----

  /** The received slices from `pos` on. */
  function ChunksOf(j: Job, got: set<nat>, pos: nat): map<nat, bytes> {
    map s | s in got && pos <= s < |j.payload| :: Slice(j, s)
  }

  predicate HasLast(j: Job, got: set<nat>) {
    exists s :: s in got && s + j.chunk >= |j.payload|
  }

  /** The group of `j` after the fragments starting at `got`, in whatever order they came. */
  function GroupOf(j: Job, got: set<nat>, created: nat): Group
    requires j.chunk > 0
  {
    var pos := Frontier(j, got, 0);
    Group(if 0 in got then Some(j.header.extHeaders) else Option.None,
          ClearFragment(ClearExtension(j.header.flags)), j.header.version, j.header.minCompatVer,
          j.header.hopLimit, j.header.srcAddr, j.header.dstAddr,
          ChunksOf(j, got, pos), pos, if HasLast(j, got) then Some(|j.payload|) else Option.None,
          j.payload[..pos], created)
  }

  lemma {:induction false} NewGroupIsEmpty(j: Job, s: nat, now: nat)
    requires j.chunk > 0 && s < |j.payload| <= MAX_PAYLOAD_LEN
    ensures NewGroup(PieceHeader(j, s), now) == GroupOf(j, {}, now)
  {
    hide PieceHeader, SetFragment, SetExtension, ClearFragment, ClearExtension, HasFragment, HasExtension,
         ReservedOk;
    PieceHeaderFields(j, s);
    FlagFacts(j.header.flags);
    assert Frontier(j, {}, 0) == 0;
    assert ChunksOf(j, {}, 0) == map[];
  }

  lemma {:induction false} SliceEnd(j: Job, s: nat)
    requires s < |j.payload|
    ensures s + |Slice(j, s)| == Min(s + j.chunk, |j.payload|)
    ensures j.payload[..s] + Slice(j, s) == j.payload[..s + |Slice(j, s)|]
  {
  }

  /** The advance loop moves the contiguous payload to the frontier. */
  lemma {:induction false} AdvanceReachesFrontier(j: Job, got: set<nat>, g: Group)
    requires j.chunk > 0 && got <= Starts(j)
    requires g.pos <= |j.payload| && (g.pos == |j.payload| || g.pos % j.chunk == 0)
    requires g.chunks == ChunksOf(j, got, g.pos) && g.payload == j.payload[..g.pos]
    ensures var f := Frontier(j, got, g.pos);
            Advance(g) == g.(chunks := ChunksOf(j, got, f), pos := f, payload := j.payload[..f])
    decreases |j.payload| - g.pos
  {
    if g.pos in g.chunks {
      var b := g.chunks[g.pos];
      var next := g.(chunks := g.chunks - {g.pos}, payload := g.payload + b, pos := g.pos + |b|);
      ConsumeSlice(j, got, g.pos);
      hide ChunksOf, Starts, Slice;
      AdvanceReachesFrontier(j, got, next);
    }
  }

  lemma {:induction false} ConsumeSlice(j: Job, got: set<nat>, pos: nat)
    requires j.chunk > 0 && got <= Starts(j) && pos <= |j.payload| && (pos == |j.payload| || pos % j.chunk == 0)
    requires pos in ChunksOf(j, got, pos)
    ensures pos < |j.payload| && pos in got
    ensures var b := ChunksOf(j, got, pos)[pos]; var next := pos + |b|;
            && pos < next <= |j.payload| && j.payload[..pos] + b == j.payload[..next]
            && (next == |j.payload| || (next % j.chunk == 0 && next == pos + j.chunk))
            && (next == |j.payload| ==> next <= pos + j.chunk)
            && ChunksOf(j, got, pos) - {pos} == ChunksOf(j, got, next)
  {
    hide Slice;
    SliceEnd(j, pos);
    ModNext(pos, j.chunk);
    var next := pos + |Slice(j, pos)|;
    forall s | s in got && pos < s < |j.payload| ensures next <= s { ModGap(pos, s, j.chunk); }
    assert ChunksOf(j, got, pos) - {pos} == ChunksOf(j, got, next);
  }

  // ---- placing a fragment ----

  /** The facts about a missing fragment that `Place` tests. */
  lemma {:induction false} MissingFragment(j: Job, got: set<nat>, s: nat)
    requires Splittable(j) && got <= Starts(j) && s in Starts(j) && s !in got
    ensures 8 * (Info(j, s).offset as nat) == s && Frontier(j, got, 0) <= s
    ensures s + |Slice(j, s)| <= |j.payload|
    ensures !Info(j, s).more ==> s + |Slice(j, s)| == |j.payload|
    ensures s !in ChunksOf(j, got, Frontier(j, got, 0))
    ensures HasLast(j, got + {s}) <==> HasLast(j, got) || !Info(j, s).more
  {
    ModOf8(s, j.chunk);
    ZeroMod(j.chunk);
    if s < Frontier(j, got, 0) { FrontierCovers(j, got, 0, s); }
    SliceEnd(j, s);
    if HasLast(j, got) {
      var x :| x in got && x + j.chunk >= |j.payload|;
      assert x in got + {s};
    }
    if !Info(j, s).more { assert s in got + {s}; }
  }

  /** A missing fragment is always accepted, and the group depends only on the set received. */
  lemma {:induction false} PlaceAddsFragment(j: Job, got: set<nat>, s: nat, created: nat)
    requires Splittable(j) && got <= Starts(j) && s in Starts(j) && s !in got
    ensures Place(GroupOf(j, got, created), PieceHeader(j, s), Info(j, s), Slice(j, s))
         == Placed(GroupOf(j, got + {s}, created), Option.None)
  {
    hide PieceHeader, Info, ChunksOf, HasLast, Frontier, Advance, Slice, Place, ValidChain, CarriesFragment;
    var pos, more := Frontier(j, got, 0), got + {s};
    var g := GroupOf(j, got, created);
    MissingFragment(j, got, s);
    PieceHeaderFields(j, s);
    var g3 := g.(total := if HasLast(j, more) then Some(|j.payload|) else Option.None,
                 origExt := if 0 in more then Some(j.header.extHeaders) else Option.None,
                 chunks := ChunksOf(j, more, pos));
    AdvanceResult(j, got, s, created, g3);
    ChunkAdded(j, got, pos, s);
    PlaceSteps(g, PieceHeader(j, s), Info(j, s), Slice(j, s), g3);
  }

  /** A fragment that the group holds is refused and changes nothing, though its chunk is written again. */
  lemma {:induction false} PlaceRepeats(j: Job, got: set<nat>, s: nat, created: nat)
    requires Splittable(j) && got <= Starts(j) && s in got
    ensures Place(GroupOf(j, got, created), PieceHeader(j, s), Info(j, s), Slice(j, s))
         == Placed(GroupOf(j, got, created), Some(Overlap))
  {
    hide PieceHeader, Slice, Info, Frontier, ChunksOf, HasLast, Place, ValidChain, CarriesFragment;
    var g := GroupOf(j, got, created);
    HeldFragment(j, got, s);
    PieceHeaderFields(j, s);
    PlaceAgain(g, PieceHeader(j, s), Info(j, s), Slice(j, s));
  }

  /** The facts about a held fragment that `Place` tests. */
  lemma {:induction false} HeldFragment(j: Job, got: set<nat>, s: nat)
    requires Splittable(j) && got <= Starts(j) && s in got
    ensures 8 * (Info(j, s).offset as nat) == s && s + |Slice(j, s)| <= |j.payload| <= MAX_GROUP_BYTES
    ensures !Info(j, s).more ==> s + |Slice(j, s)| == |j.payload| && HasLast(j, got)
    ensures var pos := Frontier(j, got, 0);
            s >= pos ==> s > 0 && s in ChunksOf(j, got, pos) && ChunksOf(j, got, pos)[s] == Slice(j, s)
  {
    ModOf8(s, j.chunk);
    SliceEnd(j, s);
    if s == 0 { ZeroIsPast(j, got); }
    if !Info(j, s).more { assert s in got; }
  }

  lemma {:induction false} PlaceAgain(g: Group, h: IPv8Header, f: FragmentInfo, payload: bytes)
    requires var start := 8 * (f.offset as nat); var end := start + |payload|;
             start >= g.pos ==>
               && start > 0 && start in g.chunks && g.chunks[start] == payload
               && (g.total.Some? ==> end <= g.total.value)
               && (!f.more ==> end <= MAX_GROUP_BYTES && g.total == Some(end))
    ensures Place(g, h, f, payload) == Placed(g, Some(Overlap))
  {
    var start := 8 * (f.offset as nat);
    if start >= g.pos { assert g.chunks[start := payload] == g.chunks; }
  }

  lemma {:induction false} ZeroIsPast(j: Job, got: set<nat>)
    requires j.chunk > 0 && j.payload != [] && 0 in got
    ensures Frontier(j, got, 0) > 0
  {
  }

  lemma {:induction false} ChunkAdded(j: Job, got: set<nat>, pos: nat, s: nat)
    requires pos <= s < |j.payload|
    ensures ChunksOf(j, got, pos)[s := Slice(j, s)] == ChunksOf(j, got + {s}, pos)
  {
    hide Slice;
  }

  lemma {:induction false} AdvanceResult(j: Job, got: set<nat>, s: nat, created: nat, g3: Group)
    requires j.chunk > 0 && got <= Starts(j) && s in Starts(j) && s !in got
    requires var more := got + {s}; var pos := Frontier(j, got, 0);
             g3 == GroupOf(j, got, created).(
                     total := if HasLast(j, more) then Some(|j.payload|) else Option.None,
                     origExt := if 0 in more then Some(j.header.extHeaders) else Option.None,
                     chunks := ChunksOf(j, more, pos))
    ensures Advance(g3) == GroupOf(j, got + {s}, created)
  {
    ZeroMod(j.chunk);
    FrontierIsStart(j, got, 0);
    FrontierResumes(j, got, got + {s}, 0);
    AdvanceReachesFrontier(j, got + {s}, g3);
  }

  /** The accepting path of `Place`, spelled out. */
  lemma {:induction false} PlaceSteps(g: Group, h: IPv8Header, f: FragmentInfo, payload: bytes, g3: Group)
    requires var start := 8 * (f.offset as nat); var end := start + |payload|;
             && g.pos <= start && start !in g.chunks && h.extHeaders != []
             && (g.total.Some? ==> end <= g.total.value)
             && (!f.more ==> end <= MAX_GROUP_BYTES && (g.total.Some? ==> g.total.value == end))
             && g3 == g.(total := if f.more then g.total else Some(end),
                         origExt := if start == 0 && g.origExt == Option.None then Some(h.extHeaders[1..])
                                    else g.origExt,
                         chunks := g.chunks[start := payload])
    ensures Place(g, h, f, payload) == Placed(Advance(g3), Option.None)
  {
  }

  // ---- completion ----

  /** What reassembly produces: the packet with its fragment flag cleared. */
  function Restored(j: Job): IPv8Header {
    j.header.(flags := ClearFragment(j.header.flags))
  }

  lemma {:induction false} RestoredAccepted(j: Job)
    requires Splittable(j)
    ensures Refusal(Restored(j)) == Option.None
  {
    hide HasFragment, HasExtension, ReservedOk, ClearFragment, Flags;
    var r, x, f, low := FlagsDecompose(j.header.flags);
    FlagsCompose(r, x, f, low);
    FlagsCompose(r, x, 0, low);
  }

  lemma {:induction false} RebuiltIsRestored(j: Job, created: nat)
    requires Splittable(j)
    ensures var g := GroupOf(j, Starts(j), created);
            Complete(g) && Rebuild(g) == Reassembled(HeaderBytes(Restored(j)) + j.payload)
  {
    hide Refusal, HeaderBytes, RebuiltHeader;
    var g := GroupOf(j, Starts(j), created);
    FrontierComplete(j, Starts(j));
    LastStart(j);
    ZeroMod(j.chunk);
    assert 0 in Starts(j);
    assert j.payload[..|j.payload|] == j.payload;
    RestoredAccepted(j);
    RebuiltHeaderIs(j, g);
  }

  lemma {:induction false} RebuiltHeaderIs(j: Job, g: Group)
    requires Splittable(j) && g.total == Some(|j.payload|) && g.origExt == Some(j.header.extHeaders)
    requires g.flags == ClearFragment(ClearExtension(j.header.flags))
    requires g.version == j.header.version && g.minCompatVer == j.header.minCompatVer
    requires g.hopLimit == j.header.hopLimit && g.src == j.header.srcAddr && g.dst == j.header.dstAddr
    ensures RebuiltHeader(g) == Restored(j)
  {
    hide HasFragment, HasExtension, ReservedOk, ClearFragment, ClearExtension, SetExtension, ValidChain,
         CarriesFragment;
    FlagsReattached(j.header.flags);
  }

  /** Clearing and setting the extension flag again leaves a packet's other flags alone. */
  lemma {:induction false} FlagsReattached(flags: u16)
    ensures var w := ClearFragment(ClearExtension(flags));
            && ClearExtension(w) == w
            && (HasExtension(flags) ==> SetExtension(w) == ClearFragment(flags))
            && (!HasExtension(flags) ==> w == ClearFragment(flags))
  {
    hide HasFragment, HasExtension, ReservedOk, ClearFragment, ClearExtension, SetExtension, Flags;
    var r, x, f, low := FlagsDecompose(flags);
    FlagsCompose(r, x, f, low);
    FlagsCompose(r, 0, f, low);
    FlagsCompose(r, 0, 0, low);
  }

  /** The last fragment exists. */
  lemma {:induction false} LastStart(j: Job)
    requires j.chunk > 0 && 0 < |j.payload|
    ensures HasLast(j, Starts(j))
  {
    var q, r := (|j.payload| - 1) / j.chunk, (|j.payload| - 1) % j.chunk;
    assert |j.payload| - 1 == j.chunk * q + r;
    MulMod(j.chunk, q);
    assert j.chunk * q in Starts(j);
  }

  /** Until the last missing fragment arrives the group is not complete. */
  lemma {:induction false} PartialIsIncomplete(j: Job, got: set<nat>, created: nat)
    requires Splittable(j) && got <= Starts(j) && got != Starts(j)
    ensures !Complete(GroupOf(j, got, created))
  {
    FrontierComplete(j, got);
  }
}
