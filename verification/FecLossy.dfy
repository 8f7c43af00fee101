/** A channel that loses at most one frame of each group loses nothing. */
module FecLossy {
  import opened Bytes
  import opened Fec
  import opened FecCache
  import opened FecProofs
  import opened FecReceive
  import opened FecRun
  import opened Wrappers

  // ---- what a recovery frame is answered with ----

  /** Member `mi` is the only one of the group that is not cached. */
  ghost predicate OnlyUncached(cache: map<u64, bytes>, group: seq<Sealed>, mi: nat)
    requires Feed(group)
  {
    && mi < |group| && CounterOf(group[mi].frame) !in cache
    && forall i :: 0 <= i < |group| && i != mi ==> CounterOf(group[i].frame) in cache
  }

  /** `f` is the frame of the only member that is not cached. */
  ghost predicate SoleUncached(cache: map<u64, bytes>, group: seq<Sealed>, f: bytes)
    requires Feed(group)
  {
    exists mi: nat :: mi < |group| && group[mi].frame == f && OnlyUncached(cache, group, mi)
  }

  /** The answer to a group's recovery frame is a frame exactly when the group is not remembered as processed and
      exactly one member is not cached; the frame is that member. */
  lemma {:induction false} AnswerExactly(s: RxState, sent: set<bytes>, group: seq<Sealed>, g: nat, f: bytes)
    requires FromSent(s, sent) && GoodGroup(sent, group)
    ensures Feed(group)
    ensures Answer(s, group, g).result == Ok(Some(f)) <==>
            Num(g) !in s.seen && SoleUncached(s.cache, group, f)
  {
    hide CounterOf, FromSent, Answer, GoodGroup, Num, OnlyUncached;
    GoodIsFeed(sent, group);
    if Num(g) in s.seen {
      SeenIsNothing(s, sent, group, g);
    } else if mi: nat :| mi < |group| && OnlyUncached(s.cache, group, mi) {
      AnswerIsMember(s, sent, group, g, mi);
      forall mj: nat | mj < |group| && OnlyUncached(s.cache, group, mj) ensures mj == mi {
        OneUncached(s.cache, group, mi, mj);
      }
    } else {
      OtherwiseNothing(s, sent, group, g);
    }
  }

  /** How many members are not cached. */
  ghost function Uncached(cache: map<u64, bytes>, group: seq<Sealed>): nat
    requires Feed(group)
  {
    |Missing(CountersOf(FramesOf(group)), cache)|
  }

  /** A group not remembered as processed is answered with a frame exactly when one member, no more and no fewer, is
      not cached. */
  lemma {:induction false} AnswerByNumber(s: RxState, sent: set<bytes>, group: seq<Sealed>, g: nat)
    requires FromSent(s, sent) && GoodGroup(sent, group) && Num(g) !in s.seen
    ensures Feed(group)
    ensures var r := Answer(s, group, g).result; r.Ok? && (r.value.Some? <==> Uncached(s.cache, group) == 1)
  {
    hide CounterOf, FromSent, RecoveryFrame, Accept, MaxLen, GoodGroup, Num, FramesOf, Missing;
    GoodIsFeed(sent, group);
    MembersFit(sent, group);
    if Uncached(s.cache, group) == 1 {
      OneMissingAnswer(s, sent, group, g);
    } else {
      NotOneMissing(s, group[|group| - 1].keyId, Num(g), FramesOf(group));
    }
  }

  lemma {:induction false} OneUncached(cache: map<u64, bytes>, group: seq<Sealed>, i: nat, j: nat)
    requires Feed(group) && OnlyUncached(cache, group, i) && OnlyUncached(cache, group, j)
    ensures i == j
  {
    hide CounterOf;
  }

  lemma {:induction false} SeenIsNothing(s: RxState, sent: set<bytes>, group: seq<Sealed>, g: nat)
    requires FromSent(s, sent) && GoodGroup(sent, group) && Num(g) in s.seen
    ensures Answer(s, group, g).result == Ok(Option.None)
  {
    hide CounterOf, FromSent, RecoveryFrame, Accept, MaxLen, GoodGroup, Num, FramesOf;
    MembersFit(sent, group);
    SeenAnswer(s, group[|group| - 1].keyId, Num(g), FramesOf(group));
  }

  lemma {:induction false} AnswerIsMember(s: RxState, sent: set<bytes>, group: seq<Sealed>, g: nat, mi: nat)
    requires FromSent(s, sent) && GoodGroup(sent, group) && Num(g) !in s.seen
    requires mi < |group| && Feed(group) && OnlyUncached(s.cache, group, mi)
    ensures Answer(s, group, g).result == Ok(Some(group[mi].frame))
  {
    hide CounterOf, FromSent, Answer, GoodGroup, Num;
    AnswerIsMissing(s, sent, group, g, mi);
  }

  lemma {:induction false} OtherwiseNothing(s: RxState, sent: set<bytes>, group: seq<Sealed>, g: nat)
    requires FromSent(s, sent) && GoodGroup(sent, group) && Num(g) !in s.seen
    requires Feed(group) && forall mi: nat :: mi < |group| ==> !OnlyUncached(s.cache, group, mi)
    ensures Answer(s, group, g).result == Ok(Option.None)
  {
    hide CounterOf, FromSent, RecoveryFrame, Accept, MaxLen, GoodGroup, Num, FramesOf, OnlyUncached, Missing;
    var members := FramesOf(group);
    MembersFit(sent, group);
    if |Missing(CountersOf(members), s.cache)| == 1 {
      MissingIsOnly(s.cache, sent, group);
    } else {
      NotOneMissing(s, group[|group| - 1].keyId, Num(g), members);
    }
  }

  lemma {:induction false} MissingIsOnly(cache: map<u64, bytes>, sent: set<bytes>, group: seq<Sealed>)
    requires GoodGroup(sent, group) && Group(FramesOf(group))
    requires |Missing(CountersOf(FramesOf(group)), cache)| == 1
    ensures var mi := Missing(CountersOf(FramesOf(group)), cache)[0];
            mi < |group| && Feed(group) && OnlyUncached(cache, group, mi)
  {
    hide CounterOf, Missing;
    OnlyMissing(CountersOf(FramesOf(group)), cache);
    assert forall i :: 0 <= i < |group| ==> CountersOf(FramesOf(group))[i] == CounterOf(group[i].frame);
  }

  // ---- in a run ----

  /** Before its first arrival a sent frame is not cached. */
  lemma {:induction false} CachedHasArrived(limit: nat, sent: set<bytes>, groups: seq<seq<Sealed>>,
      events: seq<Event>, f: bytes)
    requires Setting(sent, groups, events) && f in sent
    ensures |f| >= DATA_MIN_FRAME
    ensures CounterOf(f) in After(limit, sent, groups, events).cache ==> Data(f) in events
  {
    hide After, CounterOf, GoodGroups, Carried;
    RunIsGenuine(limit, sent, groups, events);
    var s := After(limit, sent, groups, events);
    GenuineIsFromSent(s, sent, groups, events);
    if CounterOf(f) in s.cache { CachedAsSent(s, sent, f); }
  }

  /** A group remembered as processed is one whose recovery frame has arrived. */
  lemma {:induction false} SeenHasArrived(s: RxState, sent: set<bytes>, groups: seq<seq<Sealed>>, events: seq<Event>,
      g: nat)
    requires Genuine(s, events) && Setting(sent, groups, events) && g < |groups| <= 0x1_0000_0000_0000_0000
    ensures Num(g) in s.seen ==> Recovery(g) in events
  {
    hide RxValid, DistinctCounters, GoodGroups;
    if Num(g) in s.seen {
      var h: nat :| Num(g) == Num(h) && Recovery(h) in events;
      var p :| 0 <= p < |events| && events[p] == Recovery(h);
      assert h < |groups|;
      assert h == g;
    }
  }

  /** Event `p` is a recovery frame of a group that is not remembered as processed, and `f` the frame of the only
      member that is not cached then. */
  ghost predicate RestoresAt(limit: nat, sent: set<bytes>, groups: seq<seq<Sealed>>, events: seq<Event>,
                             p: nat, f: bytes)
    requires Setting(sent, groups, events)
  {
    && p < |events| && events[p].Recovery?
    && (PrefixSetting(sent, groups, events, p);
        GroupAtEvent(sent, groups, events, p);
        var s, g := After(limit, sent, groups, events[..p]), events[p].group;
        Num(g) !in s.seen && SoleUncached(s.cache, groups[g], f))
  }

  /** The answer at `p` is a frame exactly when `p` restores it. */
  lemma {:induction false} OutcomeExactly(limit: nat, sent: set<bytes>, groups: seq<seq<Sealed>>, events: seq<Event>,
      p: nat, f: bytes)
    requires Setting(sent, groups, events) && p < |events| && events[p].Recovery?
    ensures Outcome(limit, sent, groups, events, p) == Ok(Some(f)) <==>
            RestoresAt(limit, sent, groups, events, p, f)
  {
    hide After, Num, FromSent, Answer, CounterOf, Setting, GoodGroup, SoleUncached, Genuine;
    PrefixSetting(sent, groups, events, p);
    GroupAtEvent(sent, groups, events, p);
    RunIsGenuine(limit, sent, groups, events[..p]);
    var s := After(limit, sent, groups, events[..p]);
    GenuineIsFromSent(s, sent, groups, events[..p]);
    AnswerExactly(s, sent, groups[events[p].group], events[p].group, f);
  }

  /** `e` happens for the first time at `q`. */
  ghost predicate FirstAt(events: seq<Event>, q: nat, e: Event) {
    q < |events| && events[q] == e && e !in events[..q]
  }

  /** When a recovery frame comes for the first time, in particular before members that come later, it restores a
      frame exactly when one member, no more and no fewer, is not cached at that moment. */
  lemma {:induction false} FirstOutcomeExactly(limit: nat, sent: set<bytes>, groups: seq<seq<Sealed>>,
      events: seq<Event>, p: nat, g: nat, f: bytes)
    requires Setting(sent, groups, events) && g < |groups| <= 0x1_0000_0000_0000_0000
    requires FirstAt(events, p, Recovery(g))
    ensures Setting(sent, groups, events[..p]) && Feed(groups[g])
    ensures var cache, r := After(limit, sent, groups, events[..p]).cache, Outcome(limit, sent, groups, events, p);
            && (r == Ok(Some(f)) <==> SoleUncached(cache, groups[g], f))
            && r.Ok? && (r.value.Some? <==> Uncached(cache, groups[g]) == 1)
  {
    hide After, Num, FromSent, Answer, CounterOf, Setting, GoodGroup, SoleUncached, Uncached, Genuine;
    PrefixSetting(sent, groups, events, p);
    GroupAtEvent(sent, groups, events, p);
    GoodIsFeed(sent, groups[g]);
    RunIsGenuine(limit, sent, groups, events[..p]);
    var s := After(limit, sent, groups, events[..p]);
    GenuineIsFromSent(s, sent, groups, events[..p]);
    SeenHasArrived(s, sent, groups, events[..p], g);
    AnswerByNumber(s, sent, groups[g], g);
    AnswerExactly(s, sent, groups[g], g, f);
  }

  lemma {:induction false} GoodIsFeed(sent: set<bytes>, group: seq<Sealed>)
    requires GoodGroup(sent, group)
    ensures Feed(group) && group != []
  {
  }

  /** The first recovery frame of the group comes at `p`, when all members but number `mi` are cached. */
  ghost predicate CoveredAt(limit: nat, sent: set<bytes>, groups: seq<seq<Sealed>>, events: seq<Event>,
                            g: nat, p: nat, mi: nat)
    requires Setting(sent, groups, events) && g < |groups|
  {
    && FirstAt(events, p, Recovery(g)) && mi < |groups[g]|
    && (GroupAtEvent(sent, groups, events, p);
        forall i :: 0 <= i < |groups[g]| && i != mi ==>
          CachedAt(limit, sent, groups, events, p, CounterOf(groups[g][i].frame)))
  }

  /** Of a covered group, the remaining member had arrived or is restored. */
  lemma {:induction false} CoveredIsComplete(limit: nat, sent: set<bytes>, groups: seq<seq<Sealed>>, events: seq<Event>,
      g: nat, p: nat, mi: nat)
    requires Setting(sent, groups, events) && g < |groups| <= 0x1_0000_0000_0000_0000
    requires CoveredAt(limit, sent, groups, events, g, p, mi)
    ensures Data(groups[g][mi].frame) in events || RestoresAt(limit, sent, groups, events, p, groups[g][mi].frame)
  {
    PrefixSetting(sent, groups, events, p);
    GroupAtEvent(sent, groups, events, p);
    RunIsGenuine(limit, sent, groups, events[..p]);
    var s, group := After(limit, sent, groups, events[..p]), groups[g];
    GenuineIsFromSent(s, sent, groups, events[..p]);
    SeenHasArrived(s, sent, groups, events[..p], g);
    MemberIsSent(sent, group, mi);
    hide After, Num, FromSent, CounterOf, Setting, GoodGroup;
    if CounterOf(group[mi].frame) in s.cache {
      CachedAsSent(s, sent, group[mi].frame);
      assert Data(group[mi].frame) in events[..p];
    }
  }

  lemma {:induction false} MemberIsSent(sent: set<bytes>, group: seq<Sealed>, i: nat)
    requires GoodGroup(sent, group) && i < |group|
    ensures group[i].frame in sent && |group[i].frame| >= DATA_MIN_FRAME
  {
  }

  // ---- the run as a whole ----

  ghost function Delivered(events: seq<Event>): (r: set<bytes>)
    ensures forall f :: f in r <==> Data(f) in events
  {
    set e | e in events && e.Data? :: e.frame
  }

  ghost predicate Rebuilt(r: Result<Option<bytes>, FecError>) {
    r.Ok? && r.value.Some?
  }

  /** The frames reconstructed during the run. */
  ghost function Reconstructed(limit: nat, sent: set<bytes>, groups: seq<seq<Sealed>>, events: seq<Event>)
    : (r: set<bytes>)
    requires Setting(sent, groups, events)
  {
    set p | 0 <= p < |events| && events[p].Recovery? && Rebuilt(Outcome(limit, sent, groups, events, p))
          :: Outcome(limit, sent, groups, events, p).value.value
  }

  /** A frame that arrives, or that some recovery frame restores. */
  ghost predicate Reaches(limit: nat, sent: set<bytes>, groups: seq<seq<Sealed>>, events: seq<Event>, f: bytes)
    requires Setting(sent, groups, events)
  {
    || Data(f) in events
    || (exists p: nat :: RestoresAt(limit, sent, groups, events, p, f))
  }

  lemma {:induction false} ReachesMeans(limit: nat, sent: set<bytes>, groups: seq<seq<Sealed>>, events: seq<Event>,
      f: bytes)
    requires Setting(sent, groups, events)
    ensures Reaches(limit, sent, groups, events, f) <==>
            f in Delivered(events) + Reconstructed(limit, sent, groups, events)
  {
    hide Setting, Outcome, RestoresAt;
    if p: nat :| RestoresAt(limit, sent, groups, events, p, f) {
      RestoresWhere(limit, sent, groups, events, p, f);
      OutcomeExactly(limit, sent, groups, events, p, f);
      ReconstructedAt(limit, sent, groups, events, p, f);
    }
    if f in Reconstructed(limit, sent, groups, events) {
      var p: nat :| p < |events| && events[p].Recovery? && Rebuilt(Outcome(limit, sent, groups, events, p))
                    && Outcome(limit, sent, groups, events, p).value.value == f;
      OutcomeExactly(limit, sent, groups, events, p, f);
    }
  }

  lemma {:induction false} RestoresWhere(limit: nat, sent: set<bytes>, groups: seq<seq<Sealed>>, events: seq<Event>,
      p: nat, f: bytes)
    requires Setting(sent, groups, events) && RestoresAt(limit, sent, groups, events, p, f)
    ensures p < |events| && events[p].Recovery?
  {
    hide Setting, After, Num, SoleUncached;
  }

  lemma {:induction false} ReconstructedAt(limit: nat, sent: set<bytes>, groups: seq<seq<Sealed>>, events: seq<Event>,
      p: nat, f: bytes)
    requires Setting(sent, groups, events) && p < |events| && events[p].Recovery?
    requires Outcome(limit, sent, groups, events, p) == Ok(Some(f))
    ensures f in Reconstructed(limit, sent, groups, events)
  {
    hide Setting, Outcome;
  }

  /** Nothing is lost exactly when every sent frame arrives or is the only uncached member of its group at the
      coming of a recovery frame of that group that is not taken for a repetition. */
  lemma {:induction false} NothingLostExactly(limit: nat, sent: set<bytes>, groups: seq<seq<Sealed>>,
      events: seq<Event>)
    requires Setting(sent, groups, events)
    ensures Delivered(events) + Reconstructed(limit, sent, groups, events) == sent
            <==> forall f :: f in sent ==> Reaches(limit, sent, groups, events, f)
  {
    hide Setting, Reaches, Reconstructed, Delivered;
    ReceivedWasSent(sent, groups, events, limit);
    forall f ensures Reaches(limit, sent, groups, events, f) <==>
                     f in Delivered(events) + Reconstructed(limit, sent, groups, events) {
      ReachesMeans(limit, sent, groups, events, f);
    }
  }

  /** Every member arrived, or all but one were cached when the group's recovery frame first came. */
  ghost predicate AtMostOneLost(limit: nat, sent: set<bytes>, groups: seq<seq<Sealed>>, events: seq<Event>, g: nat)
    requires Setting(sent, groups, events) && g < |groups|
  {
    || (forall i :: 0 <= i < |groups[g]| ==> Data(groups[g][i].frame) in events)
    || (exists p: nat, mi: nat :: CoveredAt(limit, sent, groups, events, g, p, mi))
  }

  lemma {:induction false} CachedArrived(limit: nat, sent: set<bytes>, groups: seq<seq<Sealed>>, events: seq<Event>,
      p: nat, f: bytes)
    requires Setting(sent, groups, events) && p <= |events| && f in sent && |f| >= DATA_MIN_FRAME
    requires CachedAt(limit, sent, groups, events, p, CounterOf(f))
    ensures Data(f) in events
  {
    PrefixSetting(sent, groups, events, p);
    CachedHasArrived(limit, sent, groups, events[..p], f);
  }

  lemma {:induction false} GroupArrives(limit: nat, sent: set<bytes>, groups: seq<seq<Sealed>>, events: seq<Event>,
      g: nat, i: nat)
    requires Setting(sent, groups, events) && g < |groups| <= 0x1_0000_0000_0000_0000 && i < |groups[g]|
    requires AtMostOneLost(limit, sent, groups, events, g)
    ensures Reaches(limit, sent, groups, events, groups[g][i].frame)
  {
    var f := groups[g][i].frame;
    assert GoodGroup(sent, groups[g]);
    MemberIsSent(sent, groups[g], i);
    hide Setting, GoodGroup, RestoresAt, CounterOf, CachedAt;
    if Data(f) !in events {
      var p: nat, mi: nat :| CoveredAt(limit, sent, groups, events, g, p, mi);
      if i != mi {
        CachedArrived(limit, sent, groups, events, p, f);
      } else {
        CoveredIsComplete(limit, sent, groups, events, g, p, i);
      }
    }
  }

  // ---- from the sender's input to the receiver's output ----

  /** Inputs that belong to no complete group. */
  function Leftover(k: nat, inputs: seq<Sealed>): seq<Sealed>
    requires k > 0
  {
    if |inputs| < k then inputs else Leftover(k, inputs[k..])
  }

  ghost predicate Grouped(chunks: seq<seq<Sealed>>, x: Sealed) {
    exists g, i :: 0 <= g < |chunks| && 0 <= i < |chunks[g]| && chunks[g][i] == x
  }

  lemma {:induction false} GroupedOrLeftover(k: nat, inputs: seq<Sealed>, x: Sealed)
    requires k > 0 && x in inputs
    ensures x in Leftover(k, inputs) || Grouped(Chunks(k, inputs), x)
    decreases |inputs|
  {
    if |inputs| >= k {
      var chunks, rest := Chunks(k, inputs), Chunks(k, inputs[k..]);
      assert chunks == [inputs[..k]] + rest;
      var j :| 0 <= j < |inputs| && inputs[j] == x;
      if j < k {
        assert chunks[0][j] == x;
      } else {
        assert inputs[k..][j - k] == x;
        GroupedOrLeftover(k, inputs[k..], x);
        hide Chunks;
        if Grouped(rest, x) { LaterGroup(inputs[..k], rest, x); }
      }
    }
  }

  lemma {:induction false} LaterGroup(first: seq<Sealed>, rest: seq<seq<Sealed>>, x: Sealed)
    requires Grouped(rest, x)
    ensures Grouped([first] + rest, x)
  {
    var g, i :| 0 <= g < |rest| && 0 <= i < |rest[g]| && rest[g][i] == x;
    assert ([first] + rest)[g + 1][i] == x;
  }

  lemma {:induction false} RangeSize(s: set<u64>, n: nat)
    requires forall x :: x in s ==> x < n
    ensures |s| <= n
  {
    if n > 0 {
      var small := set x | x in s && x != n - 1;
      RangeSize(small, n - 1);
      if n - 1 < 0x1_0000_0000_0000_0000 && n - 1 in s { assert s == small + {n - 1}; } else { assert s == small; }
    } else {
      assert s == {};
    }
  }

  /** Sixty-four-bit counters run out before group numbers do. */
  lemma {:induction false} FewGroups(k: nat, inputs: seq<Sealed>)
    requires k > 0 && Feed(inputs)
    requires forall i, j :: 0 <= i < j < |inputs| ==> CounterOf(inputs[i].frame) != CounterOf(inputs[j].frame)
    ensures |Chunks(k, inputs)| <= 0x1_0000_0000_0000_0000
  {
    hide CounterOf, Chunks;
    var counters := CountersOf(FramesOf(inputs));
    assert NoDup(counters);
    OrderSize(counters);
    RangeSize(SetOf(counters), 0x1_0000_0000_0000_0000);
  }

  lemma {:induction false} ChunksAreGood(k: nat, inputs: seq<Sealed>, sent: set<bytes>)
    requires FEC_MIN_K <= k <= FEC_MAX_K && Feed(inputs)
    requires forall x :: x in inputs ==> x.frame in sent && WellFormed(x.frame)
    ensures GoodGroups(sent, Chunks(k, inputs))
  {
    forall g | 0 <= g < |Chunks(k, inputs)| ensures GoodGroup(sent, Chunks(k, inputs)[g]) {
      ChunkFeeds(k, inputs, g);
      ChunkIsGood(Chunks(k, inputs)[g], sent);
    }
  }

  lemma {:induction false} ChunkIsGood(group: seq<Sealed>, sent: set<bytes>)
    requires FEC_MIN_K <= |group| <= FEC_MAX_K && Feed(group)
    requires forall x :: x in group ==> x.frame in sent && WellFormed(x.frame)
    ensures GoodGroup(sent, group)
  {
    forall i | 0 <= i < |group| ensures group[i].frame in sent && WellFormed(group[i].frame) {
      assert group[i] in group;
    }
  }

  ghost predicate WellFormed(f: bytes) {
    DATA_MIN_FRAME <= |f| < 0x1_0000 && f[0] == TUNNEL_VERSION && f[1] == DATA_FRAME_TYPE
  }

  /** What the sender is given: well-formed data frames with distinct counters. */
  ghost predicate Traffic(inputs: seq<Sealed>) {
    && Feed(inputs) && (forall x :: x in inputs ==> WellFormed(x.frame))
    && (forall i, j :: 0 <= i < j < |inputs| ==> CounterOf(inputs[i].frame) != CounterOf(inputs[j].frame))
  }

  ghost function SentFrames(inputs: seq<Sealed>): (r: set<bytes>)
    ensures forall x :: x in inputs ==> x.frame in r
    ensures forall f :: f in r ==> exists i :: 0 <= i < |inputs| && inputs[i].frame == f
  {
    set x | x in inputs :: x.frame
  }

  lemma {:induction false} TrafficSetting(k: nat, inputs: seq<Sealed>, events: seq<Event>)
    requires FEC_MIN_K <= k <= FEC_MAX_K && Traffic(inputs)
    requires Carried(SentFrames(inputs), Chunks(k, inputs), events)
    ensures Setting(SentFrames(inputs), Chunks(k, inputs), events)
    ensures |Chunks(k, inputs)| <= 0x1_0000_0000_0000_0000
  {
    hide CounterOf, Chunks;
    FewGroups(k, inputs);
    ChunksAreGood(k, inputs, SentFrames(inputs));
    CountersDistinct(inputs);
  }

  lemma {:induction false} CountersDistinct(inputs: seq<Sealed>)
    requires Traffic(inputs)
    ensures DistinctCounters(SentFrames(inputs))
  {
    var sent := SentFrames(inputs);
    assert Feed(inputs);
    hide CounterOf, Traffic;
    forall a, b | a in sent && b in sent && CounterOf(a) == CounterOf(b) ensures a == b {
      var i: nat :| i < |inputs| && inputs[i].frame == a;
      var j: nat :| j < |inputs| && inputs[j].frame == b;
      if i != j { OtherCounter(inputs, i, j); }
    }
  }

  lemma {:induction false} OtherCounter(inputs: seq<Sealed>, i: nat, j: nat)
    requires Traffic(inputs) && i < |inputs| && j < |inputs| && i != j
    ensures CounterOf(inputs[i].frame) != CounterOf(inputs[j].frame)
  {
    hide CounterOf;
  }

  /** The whole path. The sender emits the recovery frames that the channel then carries, loses, repeats and
      reorders together with the data; if of every group at most one frame is lost and its recovery frame first comes
      while the others are cached, and the frames of the unfinished last group arrive, then the frames delivered and
      reconstructed are exactly the frames sent. Without any such hypothesis they are only frames sent. */
  lemma {:induction false} LossyRun(k: nat, inputs: seq<Sealed>, events: seq<Event>, limit: nat)
    requires FEC_MIN_K <= k <= FEC_MAX_K && Traffic(inputs)
    requires Carried(SentFrames(inputs), Chunks(k, inputs), events)
    ensures var out := Emitted(k, TxState(0, []), inputs); var groups := Chunks(k, inputs);
            |out| == |groups| && forall g :: 0 <= g < |out| ==> Feed(groups[g]) && out[g] == RecoveryOf(groups[g], g)
    ensures Setting(SentFrames(inputs), Chunks(k, inputs), events)
    ensures var sent, groups := SentFrames(inputs), Chunks(k, inputs);
            && Delivered(events) + Reconstructed(limit, sent, groups, events) <= sent
            && ((forall g :: 0 <= g < |groups| ==> AtMostOneLost(limit, sent, groups, events, g))
                && (forall x :: x in Leftover(k, inputs) ==> Data(x.frame) in events)
                ==> Delivered(events) + Reconstructed(limit, sent, groups, events) == sent)
  {
    hide SentFrames, Chunks, Traffic, Leftover, AtMostOneLost, Emitted, Reconstructed, Delivered, Carried,
         RecoveryOf, Feed, Setting, Reaches;
    SenderStarts(k, inputs);
    TrafficSetting(k, inputs, events);
    var sent, groups := SentFrames(inputs), Chunks(k, inputs);
    ReceivedWasSent(sent, groups, events, limit);
    if (forall g :: 0 <= g < |groups| ==> AtMostOneLost(limit, sent, groups, events, g))
       && (forall x :: x in Leftover(k, inputs) ==> Data(x.frame) in events)
    {
      forall f | f in sent ensures Reaches(limit, sent, groups, events, f) {
        var i :| 0 <= i < |inputs| && inputs[i].frame == f;
        SentArrives(k, inputs, inputs[i], events, limit);
      }
      NothingLostExactly(limit, sent, groups, events);
    }
  }

  lemma {:induction false} SenderStarts(k: nat, inputs: seq<Sealed>)
    requires FEC_MIN_K <= k <= FEC_MAX_K && Traffic(inputs)
    ensures Feed(inputs) && Collecting(k, TxState(0, []))
    ensures var out := Emitted(k, TxState(0, []), inputs); var groups := Chunks(k, inputs);
            |out| == |groups| && forall g :: 0 <= g < |out| ==> Feed(groups[g]) && out[g] == RecoveryOf(groups[g], g)
  {
    assert Num(0) == 0;
    EmitsEachGroup(k, 0, inputs);
    hide Emitted, Chunks, RecoveryOf, Num;
  }

  lemma {:induction false} SentArrives(k: nat, inputs: seq<Sealed>, x: Sealed, events: seq<Event>, limit: nat)
    requires FEC_MIN_K <= k <= FEC_MAX_K && x in inputs
    requires Setting(SentFrames(inputs), Chunks(k, inputs), events) && |Chunks(k, inputs)| <= 0x1_0000_0000_0000_0000
    requires forall g :: 0 <= g < |Chunks(k, inputs)| ==>
               AtMostOneLost(limit, SentFrames(inputs), Chunks(k, inputs), events, g)
    requires forall y :: y in Leftover(k, inputs) ==> Data(y.frame) in events
    ensures Reaches(limit, SentFrames(inputs), Chunks(k, inputs), events, x.frame)
  {
    hide Setting, Chunks, Leftover, AtMostOneLost, RestoresAt, SentFrames;
    var groups := Chunks(k, inputs);
    GroupedOrLeftover(k, inputs, x);
    if x !in Leftover(k, inputs) {
      var g, i :| 0 <= g < |groups| && 0 <= i < |groups[g]| && groups[g][i] == x;
      GroupArrives(limit, SentFrames(inputs), groups, events, g, i);
    }
  }

  lemma {:induction false} ReceivedWasSent(sent: set<bytes>, groups: seq<seq<Sealed>>, events: seq<Event>, limit: nat)
    requires Setting(sent, groups, events)
    ensures Delivered(events) + Reconstructed(limit, sent, groups, events) <= sent
  {
    hide DistinctCounters, GoodGroups, Outcome;
    forall f | f in Delivered(events) ensures f in sent {
      var p :| 0 <= p < |events| && events[p] == Data(f);
    }
    forall f | f in Reconstructed(limit, sent, groups, events) ensures f in sent {
      var p: nat :| p < |events| && events[p].Recovery? && Rebuilt(Outcome(limit, sent, groups, events, p))
                    && Outcome(limit, sent, groups, events, p).value.value == f;
      OnlySentFrames(limit, sent, groups, events, p);
    }
  }
}
