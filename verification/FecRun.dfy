/** Runs of the sender and the receiver with a lossy, duplicating, reordering channel between them. */
module FecRun {
  import opened Bytes
  import opened Fec
  import opened FecReceive
  import opened FecProofs
  import opened Wrappers

  // ---- the sender's run ----

  /** A sealed data frame and the key it was sealed under. */
  datatype Sealed = Sealed(frame: bytes, keyId: bytes)

  ghost predicate Feed(inputs: seq<Sealed>) {
    forall i :: 0 <= i < |inputs| ==> |inputs[i].frame| >= DATA_MIN_FRAME && |inputs[i].keyId| == 8
  }

  function FramesOf(inputs: seq<Sealed>): (r: seq<bytes>)
    ensures |r| == |inputs| && forall i :: 0 <= i < |r| ==> r[i] == inputs[i].frame
  {
    seq(|inputs|, i requires 0 <= i < |inputs| => inputs[i].frame)
  }

  /** The recovery frames the sender brings out while it is fed. */
  ghost function Emitted(k: nat, s: TxState, inputs: seq<Sealed>): seq<bytes>
    requires Collecting(k, s) && Feed(inputs)
    decreases |inputs|
  {
    if inputs == [] then []
    else
      var p := PushStep(k, s, inputs[0].frame, inputs[0].keyId);
      (if p.result.Ok? && p.result.value.Some? then [p.result.value.value] else []) + Emitted(k, p.state, inputs[1..])
  }

  /** Consecutive groups of `k`; fewer than `k` left over belong to none. */
  function Chunks(k: nat, inputs: seq<Sealed>): (r: seq<seq<Sealed>>)
    requires k > 0
    ensures |r| <= |inputs| && forall g :: 0 <= g < |r| ==> |r[g]| == k
  {
    if |inputs| < k then [] else [inputs[..k]] + Chunks(k, inputs[k..])
  }

  /** The 64-bit sequence number of group `g`. */
  function Num(g: nat): u64 {
    g % 0x1_0000_0000_0000_0000
  }

  /** The recovery frame of group number `g`. */
  ghost function RecoveryOf(group: seq<Sealed>, g: nat): bytes
    requires group != [] && Feed(group)
  {
    RecoveryFrame(group[|group| - 1].keyId, Num(g), FramesOf(group))
  }

  lemma {:induction false} FillGroup(k: nat, s: TxState, inputs: seq<Sealed>, m: nat)
    requires Collecting(k, s) && Feed(inputs) && m == k - |s.members| && m <= |inputs|
    ensures Group(s.members + FramesOf(inputs[..m]))
    ensures Emitted(k, s, inputs)
         == [RecoveryFrame(inputs[m - 1].keyId, s.groupSeq, s.members + FramesOf(inputs[..m]))]
            + Emitted(k, TxState((s.groupSeq + 1) % 0x1_0000_0000_0000_0000, []), inputs[m..])
    decreases m
  {
    hide RecoveryFrame;
    var frame := inputs[0].frame;
    var all := s.members + [frame];
    assert s.members + FramesOf(inputs[..m]) == all + FramesOf(inputs[1..][..m - 1]);
    if m > 1 {
      FillGroup(k, s.(members := all), inputs[1..], m - 1);
      assert inputs[1..][m - 1..] == inputs[m..];
    } else {
      assert all + FramesOf(inputs[1..][..0]) == all;
    }
  }

  lemma {:induction false} TooFewForGroup(k: nat, s: TxState, inputs: seq<Sealed>)
    requires Collecting(k, s) && Feed(inputs) && |s.members| + |inputs| < k
    ensures Emitted(k, s, inputs) == []
    decreases |inputs|
  {
    hide RecoveryFrame;
    if inputs == [] {
    } else {
      TooFewForGroup(k, s.(members := s.members + [inputs[0].frame]), inputs[1..]);
    }
  }

  lemma {:induction false} ChunkFeeds(k: nat, inputs: seq<Sealed>, g: nat)
    requires k > 0 && Feed(inputs) && g < |Chunks(k, inputs)|
    ensures Feed(Chunks(k, inputs)[g])
    ensures forall x :: x in Chunks(k, inputs)[g] ==> x in inputs
  {
    if g == 0 {
    } else {
      ChunkFeeds(k, inputs[k..], g - 1);
      assert Chunks(k, inputs)[g] == Chunks(k, inputs[k..])[g - 1];
    }
  }

  lemma {:induction false} NextSeq(g: nat)
    ensures (Num(g) + 1) % 0x1_0000_0000_0000_0000 == Num(g + 1)
  {
  }

  /** The sender emits exactly one recovery frame for each complete group, in order, numbered modulo 2^64. */
  lemma {:induction false} EmitsEachGroup(k: nat, g0: nat, inputs: seq<Sealed>)
    requires FEC_MIN_K <= k <= FEC_MAX_K && Feed(inputs)
    ensures var out := Emitted(k, TxState(Num(g0), []), inputs);
            && |out| == |Chunks(k, inputs)|
            && forall g :: 0 <= g < |out| ==>
                 Feed(Chunks(k, inputs)[g]) && out[g] == RecoveryOf(Chunks(k, inputs)[g], g0 + g)
    decreases |inputs|
  {
    hide RecoveryFrame, Emitted, FramesOf, Num;
    var s := TxState(Num(g0), []);
    if |inputs| < k {
      TooFewForGroup(k, s, inputs);
    } else {
      FirstGroup(k, g0, inputs);
      hide Feed;
      var chunks, rest := Chunks(k, inputs), Chunks(k, inputs[k..]);
      assert chunks == [inputs[..k]] + rest;
      hide Chunks, RecoveryOf;
      EmitsEachGroup(k, g0 + 1, inputs[k..]);
      var out := Emitted(k, s, inputs);
      forall g | 0 <= g < |out| ensures Feed(chunks[g]) && out[g] == RecoveryOf(chunks[g], g0 + g) {
        if g > 0 { assert chunks[g] == rest[g - 1]; }
      }
    }
  }

  lemma {:induction false} FeedParts(inputs: seq<Sealed>, k: nat)
    requires Feed(inputs) && k <= |inputs|
    ensures Feed(inputs[..k]) && Feed(inputs[k..])
  {
  }

  lemma {:induction false} FirstGroup(k: nat, g0: nat, inputs: seq<Sealed>)
    requires FEC_MIN_K <= k <= FEC_MAX_K && Feed(inputs) && |inputs| >= k
    ensures Feed(inputs[..k]) && Feed(inputs[k..])
    ensures Emitted(k, TxState(Num(g0), []), inputs)
         == [RecoveryOf(inputs[..k], g0)] + Emitted(k, TxState(Num(g0 + 1), []), inputs[k..])
  {
    hide RecoveryFrame, Emitted, FramesOf, Num, Feed, Group, RecoveryOf;
    FeedParts(inputs, k);
    RecoveryOfPrefix(inputs, k, g0);
    FillGroup(k, TxState(Num(g0), []), inputs, k);
    NextSeq(g0);
  }

  lemma {:induction false} NilPlus(frames: seq<bytes>)
    ensures [] + frames == frames
  {
  }

  lemma {:induction false} RecoveryOfPrefix(inputs: seq<Sealed>, k: nat, g: nat)
    requires 0 < k <= |inputs| && Feed(inputs[..k])
    ensures var frames := [] + FramesOf(inputs[..k]);
            && |inputs[k - 1].keyId| == 8 && (forall i :: 0 <= i < |frames| ==> |frames[i]| >= DATA_MIN_FRAME)
            && RecoveryOf(inputs[..k], g) == RecoveryFrame(inputs[k - 1].keyId, Num(g), frames)
  {
    hide RecoveryFrame, Num, FramesOf;
    NilPlus(FramesOf(inputs[..k]));
  }

  // ---- the channel ----

  /** What the channel hands to the receiver: a data frame, or the recovery frame of a group. */
  datatype Event = Data(frame: bytes) | Recovery(group: nat)

  /** Data frames carry distinct counters. */
  ghost predicate DistinctCounters(sent: set<bytes>) {
    && (forall f :: f in sent ==> |f| >= DATA_MIN_FRAME)
    && (forall a, b :: a in sent && b in sent && CounterOf(a) == CounterOf(b) ==> a == b)
  }

  /** A group of well-formed data frames, all of them sent. */
  ghost predicate GoodGroup(sent: set<bytes>, group: seq<Sealed>) {
    && FEC_MIN_K <= |group| <= FEC_MAX_K && Feed(group)
    && forall i :: 0 <= i < |group| ==>
         && group[i].frame in sent && |group[i].frame| < 0x1_0000
         && group[i].frame[0] == TUNNEL_VERSION && group[i].frame[1] == DATA_FRAME_TYPE
  }

  ghost predicate GoodGroups(sent: set<bytes>, groups: seq<seq<Sealed>>) {
    forall g :: 0 <= g < |groups| ==> GoodGroup(sent, groups[g])
  }

  /** The channel may lose, repeat and reorder, but not invent. */
  ghost predicate Carried(sent: set<bytes>, groups: seq<seq<Sealed>>, events: seq<Event>) {
    forall p :: 0 <= p < |events| ==>
      match events[p] case Data(f) => f in sent case Recovery(g) => g < |groups|
  }

  ghost predicate Setting(sent: set<bytes>, groups: seq<seq<Sealed>>, events: seq<Event>) {
    DistinctCounters(sent) && GoodGroups(sent, groups) && Carried(sent, groups, events)
  }

  ghost function Answer(s: RxState, group: seq<Sealed>, g: nat): Accepted
    requires group != [] && Feed(group)
  {
    Accept(s, RecoveryOf(group, g))
  }

  ghost function Receive(s: RxState, groups: seq<seq<Sealed>>, e: Event): RxState
    requires e.Recovery? ==> e.group < |groups| && groups[e.group] != [] && Feed(groups[e.group])
  {
    match e
    case Data(f) => Observe(s, f).state
    case Recovery(g) => Answer(s, groups[g], g).state
  }

  /** The receiver after a run. */
  ghost function After(limit: nat, sent: set<bytes>, groups: seq<seq<Sealed>>, events: seq<Event>): RxState
    requires Setting(sent, groups, events)
  {
    if events == [] then Fresh(limit)
    else
      var n := |events| - 1;
      PrefixSetting(sent, groups, events, n);
      GroupAtEvent(sent, groups, events, n);
      Receive(After(limit, sent, groups, events[..n]), groups, events[n])
  }

  lemma {:induction false} PrefixSetting(sent: set<bytes>, groups: seq<seq<Sealed>>, events: seq<Event>, n: nat)
    requires Setting(sent, groups, events) && n <= |events|
    ensures Setting(sent, groups, events[..n])
  {
    hide DistinctCounters, GoodGroups;
    assert forall p :: 0 <= p < n ==> events[..n][p] == events[p];
  }

  lemma {:induction false} GroupAtEvent(sent: set<bytes>, groups: seq<seq<Sealed>>, events: seq<Event>, p: nat)
    requires Setting(sent, groups, events) && p < |events|
    ensures events[p].Recovery? ==> events[p].group < |groups| && GoodGroup(sent, groups[events[p].group])
    ensures events[p].Data? ==> events[p].frame in sent && |events[p].frame| >= DATA_MIN_FRAME
  {
    hide GoodGroup;
  }

  /** The answer to the recovery frame at `p`. */
  ghost function Outcome(limit: nat, sent: set<bytes>, groups: seq<seq<Sealed>>, events: seq<Event>, p: nat)
    : Result<Option<bytes>, FecError>
    requires Setting(sent, groups, events) && p < |events| && events[p].Recovery?
  {
    PrefixSetting(sent, groups, events, p);
    GroupAtEvent(sent, groups, events, p);
    Answer(After(limit, sent, groups, events[..p]), groups[events[p].group], events[p].group).result
  }

  // ---- safety ----

  /** The cache holds only frames that have arrived; the group memory only groups whose recovery frame has. */
  ghost predicate Genuine(s: RxState, events: seq<Event>) {
    && RxValid(s)
    && (forall c :: c in s.cache ==> Data(s.cache[c]) in events)
    && (forall x :: x in s.seen ==> exists g: nat :: x == Num(g) && Recovery(g) in events)
  }

  lemma {:induction false} MoreEvents(s: RxState, events: seq<Event>, e: Event)
    requires Genuine(s, events)
    ensures Genuine(s, events + [e])
  {
    hide RxValid;
    forall x | x in s.seen ensures exists g: nat :: x == Num(g) && Recovery(g) in events + [e] {
      var g: nat :| x == Num(g) && Recovery(g) in events;
      assert Recovery(g) in events + [e];
    }
  }

  lemma {:induction false} DataKeepsGenuine(s: RxState, events: seq<Event>, f: bytes)
    requires Genuine(s, events) && |f| >= DATA_MIN_FRAME
    ensures Genuine(Observe(s, f).state, events + [Data(f)])
  {
    hide RxValid, CounterOf, Evict;
    MoreEvents(s, events, Data(f));
    ObserveKeepsValid(s, f);
    var c := CounterOf(f);
    if c !in s.cache { EvictOnly(s.order + [c], s.cache[c := f], s.limit); }
    hide Genuine;
    assert Genuine(s, events + [Data(f)]);
    SameSeen(s, Observe(s, f).state, events + [Data(f)], f);
  }

  lemma {:induction false} SameSeen(s: RxState, t: RxState, events: seq<Event>, f: bytes)
    requires Genuine(s, events) && RxValid(t) && t.seen == s.seen && Data(f) in events
    requires forall c :: c in t.cache ==> t.cache[c] == f || (c in s.cache && t.cache[c] == s.cache[c])
    ensures Genuine(t, events)
  {
    hide RxValid;
  }

  lemma {:induction false} EvictOnly(order: seq<u64>, cache: map<u64, bytes>, limit: nat)
    ensures forall c :: c in Evict(order, cache, limit).1 ==> c in cache && Evict(order, cache, limit).1[c] == cache[c]
    decreases |order|
  {
    if |cache| > limit && order != [] { EvictOnly(order[1..], cache - {order[0]}, limit); }
  }

  lemma {:induction false} SeenAfter(s: RxState, frame: bytes)
    requires |frame| >= FIXED_END
    ensures forall x :: x in Accept(s, frame).state.seen ==> x in s.seen || x == GroupSeqOf(frame)
  {
    hide ReadTable, TableError, Missing, Rebuild, Shape, GroupSeqOf;
  }

  lemma {:induction false} RecoveryKeepsGenuine(s: RxState, events: seq<Event>, group: seq<Sealed>, g: nat)
    requires Genuine(s, events) && FEC_MIN_K <= |group| <= FEC_MAX_K && Feed(group)
    ensures Genuine(Accept(s, RecoveryOf(group, g)).state, events + [Recovery(g)])
  {
    hide RxValid, CounterOf, Accept, RecoveryFrame, GroupSeqOf;
    var f := RecoveryOf(group, g);
    MoreEvents(s, events, Recovery(g));
    AcceptKeepsValid(s, f);
    SeenAfter(s, f);
    RecoveryShape(group[|group| - 1].keyId, Num(g), FramesOf(group));
    assert Recovery(g) in events + [Recovery(g)];
  }

  lemma {:induction false} RunIsGenuine(limit: nat, sent: set<bytes>, groups: seq<seq<Sealed>>, events: seq<Event>)
    requires Setting(sent, groups, events)
    ensures Genuine(After(limit, sent, groups, events), events)
    ensures After(limit, sent, groups, events).limit == (if limit == 0 then DEFAULT_RX_CACHE else limit)
  {
    hide Genuine, Setting, GoodGroup, Observe, Accept, RecoveryOf;
    if events == [] {
      FreshIsGenuine(limit);
    } else {
      var n := |events| - 1;
      PrefixSetting(sent, groups, events, n);
      GroupAtEvent(sent, groups, events, n);
      RunIsGenuine(limit, sent, groups, events[..n]);
      StepIsGenuine(After(limit, sent, groups, events[..n]), sent, groups, events[..n], events[n]);
      assert events == events[..n] + [events[n]];
    }
  }

  lemma {:induction false} FreshIsGenuine(limit: nat)
    ensures Genuine(Fresh(limit), [])
  {
  }

  lemma {:induction false} StepIsGenuine(s: RxState, sent: set<bytes>, groups: seq<seq<Sealed>>, events: seq<Event>,
      e: Event)
    requires Genuine(s, events)
    requires e.Recovery? ==> e.group < |groups| && GoodGroup(sent, groups[e.group])
    requires e.Data? ==> |e.frame| >= DATA_MIN_FRAME
    ensures Genuine(Receive(s, groups, e), events + [e]) && Receive(s, groups, e).limit == s.limit
  {
    hide Genuine, RecoveryOf;
    match e {
      case Data(f) =>
        DataKeepsGenuine(s, events, f);
      case Recovery(g) =>
        RecoveryKeepsGenuine(s, events, groups[g], g);
        SameLimit(s, RecoveryOf(groups[g], g));
    }
  }

  lemma {:induction false} SameLimit(s: RxState, frame: bytes)
    ensures Accept(s, frame).state.limit == s.limit
  {
    hide ReadTable, TableError, Missing, Rebuild, Shape, GroupSeqOf;
  }

  /** A receiver that has only ever been given frames in `sent`. */
  ghost predicate FromSent(s: RxState, sent: set<bytes>) {
    RxValid(s) && DistinctCounters(sent) && forall c :: c in s.cache ==> s.cache[c] in sent
  }

  lemma {:induction false} GenuineIsFromSent(s: RxState, sent: set<bytes>, groups: seq<seq<Sealed>>, events: seq<Event>)
    requires Genuine(s, events) && Setting(sent, groups, events)
    ensures FromSent(s, sent)
  {
    hide CounterOf, GoodGroups;
    forall c | c in s.cache ensures s.cache[c] in sent {
      var p :| 0 <= p < |events| && events[p] == Data(s.cache[c]);
    }
  }

  /** A sent frame whose counter is cached is cached as it was sent. */
  lemma {:induction false} CachedAsSent(s: RxState, sent: set<bytes>, f: bytes)
    requires FromSent(s, sent) && f in sent && CounterOf(f) in s.cache
    ensures s.cache[CounterOf(f)] == f
  {
    hide CounterOf;
  }

  lemma {:induction false} GroupCachedBut(s: RxState, sent: set<bytes>, group: seq<Sealed>, mi: nat)
    requires FromSent(s, sent) && GoodGroup(sent, group)
    requires mi < |group| && CounterOf(group[mi].frame) !in s.cache
    requires forall i :: 0 <= i < |group| && i != mi ==> CounterOf(group[i].frame) in s.cache
    ensures CachedBut(s.cache, FramesOf(group), mi)
  {
    hide CounterOf, FromSent;
    forall i | 0 <= i < |group| && i != mi ensures s.cache[CounterOf(group[i].frame)] == group[i].frame {
      CachedAsSent(s, sent, group[i].frame);
    }
  }

  /** With exactly one member not cached and the group not yet processed, the answer is that member. */
  lemma {:induction false} AnswerIsMissing(s: RxState, sent: set<bytes>, group: seq<Sealed>, g: nat, mi: nat)
    requires FromSent(s, sent) && GoodGroup(sent, group) && Num(g) !in s.seen
    requires mi < |group| && CounterOf(group[mi].frame) !in s.cache
    requires forall i :: 0 <= i < |group| && i != mi ==> CounterOf(group[i].frame) in s.cache
    ensures Answer(s, group, g).result == Ok(Some(group[mi].frame))
  {
    hide CounterOf, FromSent, RecoveryFrame, Accept, MaxLen, CachedBut, GoodGroup, Num;
    MembersFit(sent, group);
    DataStart(sent, group, mi);
    GroupCachedBut(s, sent, group, mi);
    RecoversExactly(s, group[|group| - 1].keyId, Num(g), FramesOf(group), mi);
  }

  lemma {:induction false} DataStart(sent: set<bytes>, group: seq<Sealed>, i: nat)
    requires GoodGroup(sent, group) && i < |group|
    ensures |group[i].frame| >= DATA_MIN_FRAME
    ensures group[i].frame[0] == TUNNEL_VERSION && group[i].frame[1] == DATA_FRAME_TYPE
  {
  }

  /** The answer to a group's recovery frame: never an error, and nothing but a member of the group. */
  lemma {:induction false} GenuineAnswer(s: RxState, sent: set<bytes>, group: seq<Sealed>, g: nat)
    requires FromSent(s, sent) && GoodGroup(sent, group)
    ensures var r := Answer(s, group, g).result;
            r.Ok? && (r.value.Some? ==> r.value.value in FramesOf(group))
  {
    var members := FramesOf(group);
    var key, num := group[|group| - 1].keyId, Num(g);
    MembersFit(sent, group);
    hide CounterOf, FromSent, Missing, RecoveryFrame, Accept, MaxLen, GoodGroup, Num, FramesOf;
    if num in s.seen {
      SeenAnswer(s, key, num, members);
    } else if |Missing(CountersOf(members), s.cache)| == 1 {
      OneMissingAnswer(s, sent, group, g);
    } else {
      NotOneMissing(s, key, num, members);
    }
  }

  lemma {:induction false} OneMissingAnswer(s: RxState, sent: set<bytes>, group: seq<Sealed>, g: nat)
    requires FromSent(s, sent) && GoodGroup(sent, group) && Num(g) !in s.seen
    requires Group(FramesOf(group)) && |Missing(CountersOf(FramesOf(group)), s.cache)| == 1
    ensures var r := Answer(s, group, g).result;
            r.Ok? && r.value.Some? && r.value.value in FramesOf(group)
  {
    hide CounterOf, FromSent, Missing, Answer, GoodGroup, Num, FramesOf;
    var members := FramesOf(group);
    OnlyMissing(CountersOf(members), s.cache);
    var mi := Missing(CountersOf(members), s.cache)[0];
    assert forall i :: 0 <= i < |group| && i != mi ==> CountersOf(members)[i] in s.cache;
    AnswerIsMissing(s, sent, group, g, mi);
    assert members[mi] == group[mi].frame;
  }

  lemma {:induction false} MembersFit(sent: set<bytes>, group: seq<Sealed>)
    requires GoodGroup(sent, group)
    ensures FEC_MIN_K <= |group| <= FEC_MAX_K && Feed(group) && |group[|group| - 1].keyId| == 8
    ensures Group(FramesOf(group)) && MaxLen(FramesOf(group)) < 0x1_0000
  {
    MaxLenIsMaximum(FramesOf(group));
  }

  lemma {:induction false} OnlyMissing(counters: seq<u64>, cache: map<u64, bytes>)
    requires |Missing(counters, cache)| == 1
    ensures var mi := Missing(counters, cache)[0];
            && mi < |counters| && counters[mi] !in cache
            && forall i :: 0 <= i < |counters| && i != mi ==> counters[i] in cache
  {
    forall i | 0 <= i < |counters| && i != Missing(counters, cache)[0] ensures counters[i] in cache {
      if counters[i] !in cache { MissingAll(counters, cache, i); }
    }
  }

  lemma {:induction false} SeenAnswer(s: RxState, key: bytes, g: u64, members: seq<bytes>)
    requires |key| == 8 && Group(members) && g in s.seen
    ensures Accept(s, RecoveryFrame(key, g, members)).result == Ok(Option.None)
  {
    hide RecoveryFrame, Shape, GroupSeqOf, ReadTable, Restore, TableError;
    RecoveryShape(key, g, members);
  }

  lemma {:induction false} NotOneMissing(s: RxState, key: bytes, g: u64, members: seq<bytes>)
    requires |key| == 8 && Group(members) && MaxLen(members) < 0x1_0000
    requires |Missing(CountersOf(members), s.cache)| != 1
    ensures Accept(s, RecoveryFrame(key, g, members)).result == Ok(Option.None)
  {
    hide RecoveryFrame, Accept, Missing, CounterOf, MaxLen;
    if g in s.seen {
      SeenAnswer(s, key, g, members);
    } else {
      OutcomeByMissing(s, key, g, members);
    }
  }

  /** Whatever the channel loses, repeats or reorders: every recovery frame is answered without an error, and a
      reconstructed frame is, byte for byte, a frame of that group that was not cached. */
  lemma {:induction false} OnlySentFrames(limit: nat, sent: set<bytes>, groups: seq<seq<Sealed>>, events: seq<Event>,
      p: nat)
    requires Setting(sent, groups, events) && p < |events| && events[p].Recovery?
    ensures var r := Outcome(limit, sent, groups, events, p);
            && r.Ok?
            && (r.value.Some? ==>
                  && r.value.value in FramesOf(groups[events[p].group]) && r.value.value in sent)
  {
    hide Genuine, Setting, Answer, CounterOf, FromSent;
    PrefixSetting(sent, groups, events, p);
    GroupAtEvent(sent, groups, events, p);
    RunIsGenuine(limit, sent, groups, events[..p]);
    var s, g := After(limit, sent, groups, events[..p]), events[p].group;
    GenuineIsFromSent(s, sent, groups, events[..p]);
    GenuineAnswer(s, sent, groups[g], g);
    GroupFramesSent(sent, groups[g]);
  }

  lemma {:induction false} GroupFramesSent(sent: set<bytes>, group: seq<Sealed>)
    requires GoodGroup(sent, group)
    ensures forall f :: f in FramesOf(group) ==> f in sent
  {
  }
}
