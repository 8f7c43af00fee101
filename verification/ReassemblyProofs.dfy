/** Fragments of many packets, in any order and any interleaving, give back the packets. */
module ReassemblyProofs {
  import opened Bytes
  import opened Header
  import opened Encode
  import opened Decode
  import opened Fragment
  import opened Reassembly
  import opened SplitProofs
  import opened GroupProofs
  import opened Wrappers

  // ---- runs of the reassembler ----

  /** A fragment on the wire and the clock reading when it arrives. */
  datatype Delivery = Delivery(wire: bytes, now: nat)

  /** Decode and insert. */
  function Deliver(groups: Groups, d: Delivery): Step
    requires DecodeBytes(d.wire).Ok?
  {
    var decoded := DecodeBytes(d.wire).value;
    InsertStep(groups, decoded.header, decoded.payload, d.now)
  }

  /** The groups of a fresh reassembler after a run. */
  function Run(run: seq<Delivery>): Groups
    requires forall i :: 0 <= i < |run| ==> DecodeBytes(run[i].wire).Ok?
  {
    if run == [] then map[]
    else Deliver(Run(run[..|run| - 1]), run[|run| - 1]).groups
  }

  // ---- schedules ----

  /** Fragment number `piece` of packet number `job`. */
  datatype Arrival = Arrival(job: nat, piece: nat)

  /** Every arrival names a fragment. */
  ghost predicate Named(counts: seq<nat>, sched: seq<Arrival>) {
    forall k :: 0 <= k < |sched| ==> sched[k].job < |counts| && sched[k].piece < counts[sched[k].job]
  }

  /** The numbers of all fragments. */
  function All(n: nat): (r: set<nat>)
    ensures forall i: nat :: i in r <==> i < n
  {
    if n == 0 then {} else All(n - 1) + {n - 1}
  }

  /** The fragments of packet `a` that have arrived since it was last complete. */
  ghost function Received(counts: seq<nat>, sched: seq<Arrival>, a: nat): (r: set<nat>)
    requires Named(counts, sched) && a < |counts|
    ensures r <= All(counts[a])
  {
    if sched == [] then {}
    else
      var x, before := sched[|sched| - 1], Received(counts, sched[..|sched| - 1], a);
      if x.job != a then before
      else if before + {x.piece} == All(counts[a]) then {}
      else before + {x.piece}
  }

  lemma {:induction false} ReceivedIsPartial(counts: seq<nat>, sched: seq<Arrival>, a: nat)
    requires Named(counts, sched) && a < |counts| && counts[a] > 0
    ensures Received(counts, sched, a) != All(counts[a])
  {
    assert 0 in All(counts[a]);
    if sched == [] {
    } else {
      ReceivedIsPartial(counts, sched[..|sched| - 1], a);
    }
  }

  lemma {:induction false} ReceivedMore(counts: seq<nat>, sched: seq<Arrival>, x: Arrival, a: nat)
    requires Named(counts, sched) && a < |counts| && x.job < |counts| && x.piece < counts[x.job]
    ensures Named(counts, sched + [x])
    ensures var before := Received(counts, sched, a);
            Received(counts, sched + [x], a) ==
            if x.job != a then before
            else if before + {x.piece} == All(counts[a]) then {} else before + {x.piece}
  {
    assert (sched + [x])[..|sched|] == sched;
  }

  // ---- the invariant ----

  ghost predicate Jobs(jobs: seq<Job>) {
    && |jobs| <= MAX_GROUPS
    && (forall a :: 0 <= a < |jobs| ==> jobs[a].chunk > 0 && Splittable(jobs[a]))
    && (forall a, b :: 0 <= a < b < |jobs| ==> JobKey(jobs[a]) != JobKey(jobs[b]))
  }

  function JobKey(j: Job): Key { KeyOf(j.header, j.id) }

  function StartsOf(j: Job): seq<nat>
    requires j.chunk > 0
  {
    StartsFrom(|j.payload|, j.chunk, 0)
  }

  ghost function CountsOf(jobs: seq<Job>): (r: seq<nat>)
    requires Jobs(jobs)
    ensures |r| == |jobs|
  {
    seq(|jobs|, a requires 0 <= a < |jobs| => |StartsOf(jobs[a])|)
  }

  /** The offsets of some fragments. */
  function Offsets(j: Job, pieces: set<nat>): set<nat>
    requires j.chunk > 0
  {
    set i | i in pieces && i < |StartsOf(j)| :: StartsOf(j)[i]
  }

  ghost predicate Within(now: nat, since: nat) { since <= now < since + REASSEMBLY_TIMEOUT }

  ghost predicate HoldsJob(groups: Groups, j: Job, got: set<nat>, since: nat)
    requires j.chunk > 0
  {
    && got <= Starts(j)
    && (JobKey(j) in groups <==> got != {} && got != Starts(j))
    && (JobKey(j) in groups ==>
          && Within(groups[JobKey(j)].created, since)
          && groups[JobKey(j)] == GroupOf(j, got, groups[JobKey(j)].created))
  }

  /** The reassembler holds exactly the packets that have started and not finished, each in the state
      that the set of its received fragments determines. */
  ghost predicate Holds(groups: Groups, jobs: seq<Job>, sched: seq<Arrival>, since: nat)
    requires Jobs(jobs) && Named(CountsOf(jobs), sched)
  {
    && (forall key :: key in groups ==> exists a: nat :: a < |jobs| && key == JobKey(jobs[a]))
    && (forall a: nat :: a < |jobs| ==>
          HoldsJob(groups, jobs[a], Offsets(jobs[a], Received(CountsOf(jobs), sched, a)), since))
  }

  // ---- fragments and their offsets ----

  lemma {:induction false} StartIsOne(j: Job, i: nat)
    requires j.chunk > 0 && i < |StartsOf(j)|
    ensures StartsOf(j)[i] in Starts(j)
  {
    ZeroMod(j.chunk);
    StartsFromMembers(j, 0, StartsOf(j)[i]);
  }

  lemma {:induction false} DistinctStarts(j: Job, i: nat, k: nat)
    requires j.chunk > 0 && i < |StartsOf(j)| && k < |StartsOf(j)| && i != k
    ensures StartsOf(j)[i] != StartsOf(j)[k]
  {
  }

  lemma {:induction false} OffsetsMember(j: Job, pieces: set<nat>, i: nat)
    requires j.chunk > 0 && i < |StartsOf(j)|
    ensures StartsOf(j)[i] in Offsets(j, pieces) <==> i in pieces
  {
    hide StartsOf;
    if StartsOf(j)[i] in Offsets(j, pieces) {
      var k: nat :| k in pieces && k < |StartsOf(j)| && StartsOf(j)[k] == StartsOf(j)[i];
      if k != i { DistinctStarts(j, k, i); }
    }
  }

  lemma {:induction false} OffsetsMore(j: Job, pieces: set<nat>, i: nat)
    requires j.chunk > 0 && i < |StartsOf(j)|
    ensures Offsets(j, pieces + {i}) == Offsets(j, pieces) + {StartsOf(j)[i]}
  {
    hide StartsOf;
  }

  lemma {:induction false} OffsetsAll(j: Job, pieces: set<nat>)
    requires j.chunk > 0 && pieces <= All(|StartsOf(j)|)
    ensures Offsets(j, pieces) <= Starts(j)
    ensures Offsets(j, pieces) == Starts(j) <==> pieces == All(|StartsOf(j)|)
  {
    hide StartsOf, Starts;
    forall s | s in Offsets(j, pieces) ensures s in Starts(j) {
      var i: nat :| i in pieces && i < |StartsOf(j)| && StartsOf(j)[i] == s;
      StartIsOne(j, i);
    }
    if pieces == All(|StartsOf(j)|) {
      forall s | s in Starts(j) ensures s in Offsets(j, pieces) {
        var i := IndexOfStart(j, s);
        OffsetsMember(j, pieces, i);
      }
    }
    if Offsets(j, pieces) == Starts(j) {
      forall i | i in All(|StartsOf(j)|) ensures i in pieces {
        StartIsOne(j, i);
        OffsetsMember(j, pieces, i);
      }
    }
  }

  lemma {:induction false} IndexOfStart(j: Job, s: nat) returns (i: nat)
    requires j.chunk > 0 && s in Starts(j)
    ensures i < |StartsOf(j)| && StartsOf(j)[i] == s
  {
    ZeroMod(j.chunk);
    StartsFromMembers(j, 0, s);
    i :| 0 <= i < |StartsOf(j)| && StartsOf(j)[i] == s;
  }

  lemma {:induction false} HasFragments(j: Job)
    requires Splittable(j) && j.chunk > 0
    ensures |StartsOf(j)| > 0
  {
  }

  // ---- one step ----

  /** A fragment of `j` that had not arrived yet. */
  lemma {:induction false} StepOnJob(groups: Groups, j: Job, got: set<nat>, s: nat, now: nat, since: nat)
    requires Splittable(j) && HoldsJob(groups, j, got, since) && s in Starts(j) && s !in got
    requires Within(now, since) && (JobKey(j) in groups || |groups| < MAX_GROUPS)
    ensures var step := InsertLive(groups, PieceHeader(j, s), Info(j, s), Slice(j, s), now);
            && HoldsJob(step.groups, j, got + {s}, since)
            && (forall key :: key != JobKey(j) ==>
                  (key in step.groups <==> key in groups) && (key in groups ==> step.groups[key] == groups[key]))
            && step.outcome == (if got + {s} == Starts(j) then Reassembled(HeaderBytes(Restored(j)) + j.payload)
                                else Incomplete)
  {
    var key := JobKey(j);
    assert KeyOf(PieceHeader(j, s), Info(j, s).id) == key by { PieceHeaderFields(j, s); }
    var g := if key in groups then groups[key] else NewGroup(PieceHeader(j, s), now);
    assert g == GroupOf(j, got, g.created) && Within(g.created, since) by {
      if key !in groups { NewGroupIsEmpty(j, s, now); assert got == {}; }
    }
    PlaceAddsFragment(j, got, s, g.created);
    var g' := GroupOf(j, got + {s}, g.created);
    hide PieceHeader, Splittable, Info, Starts, GroupOf, Place, Rebuild, HeaderBytes, NewGroup, Slice, KeyOf,
        InsertLive;
    InsertAccepted(groups, PieceHeader(j, s), Info(j, s), Slice(j, s), now, g, g');
    if got + {s} == Starts(j) {
      RebuiltIsRestored(j, g.created);
    } else {
      PartialIsIncomplete(j, got + {s}, g.created);
    }
  }

  /** `InsertLive` on its accepting path. */
  lemma {:induction false} InsertAccepted(groups: Groups, h: IPv8Header, f: FragmentInfo, payload: bytes, now: nat,
      g: Group, g': Group)
    requires var key := KeyOf(h, f.id);
             && (key in groups || |groups| < MAX_GROUPS)
             && g == (if key in groups then groups[key] else NewGroup(h, now))
    requires Place(g, h, f, payload) == Placed(g', Option.None)
    ensures var key := KeyOf(h, f.id);
            InsertLive(groups, h, f, payload, now) ==
            if Complete(g') then Step(groups - {key}, Rebuild(g')) else Step(groups[key := g'], Incomplete)
  {
    hide Place, Complete, Rebuild, NewGroup, KeyOf;
  }

  /** A repetition of a fragment that the group holds is refused and changes nothing. */
  lemma {:induction false} StepOnRepeat(groups: Groups, j: Job, got: set<nat>, s: nat, now: nat, since: nat)
    requires Splittable(j) && HoldsJob(groups, j, got, since) && s in got && got != Starts(j)
    ensures InsertLive(groups, PieceHeader(j, s), Info(j, s), Slice(j, s), now) == Step(groups, Rejected(Overlap))
  {
    var key := JobKey(j);
    assert KeyOf(PieceHeader(j, s), Info(j, s).id) == key by { PieceHeaderFields(j, s); }
    var g := groups[key];
    PlaceRepeats(j, got, s, g.created);
    hide PieceHeader, Splittable, Info, Starts, GroupOf, Place, NewGroup, Slice, KeyOf;
    assert groups[key := g] == groups;
  }

  /** What becomes of an arrival when `before` have been received. */
  function Verdict(j: Job, before: set<nat>, i: nat): Outcome
    requires Splittable(j) && j.chunk > 0
  {
    if i in before then Rejected(Overlap)
    else if before + {i} == All(|StartsOf(j)|) then Reassembled(HeaderBytes(Restored(j)) + j.payload)
    else Incomplete
  }

  /** Fragment `i` of `j` is inserted. */
  function Arrive(groups: Groups, j: Job, i: nat, now: nat): Step
    requires Splittable(j) && j.chunk > 0 && i < |StartsOf(j)|
  {
    StartIsOne(j, i);
    var s := StartsOf(j)[i];
    InsertLive(groups, PieceHeader(j, s), Info(j, s), Slice(j, s), now)
  }

  lemma {:induction false} StepOnPiece(groups: Groups, j: Job, before: set<nat>, i: nat, now: nat, since: nat)
    requires Splittable(j) && j.chunk > 0 && before < All(|StartsOf(j)|) && i < |StartsOf(j)|
    requires HoldsJob(groups, j, Offsets(j, before), since)
    requires Within(now, since) && (JobKey(j) in groups || |groups| < MAX_GROUPS)
    ensures var step := Arrive(groups, j, i, now);
            && HoldsJob(step.groups, j,
                        Offsets(j, if before + {i} == All(|StartsOf(j)|) then {} else before + {i}), since)
            && (forall key :: key != JobKey(j) ==>
                  (key in step.groups <==> key in groups) && (key in groups ==> step.groups[key] == groups[key]))
            && step.outcome == Verdict(j, before, i)
  {
    hide Arrive, Splittable, Starts, HeaderBytes, StartsOf, HoldsJob, Offsets;
    if i in before {
      RepeatOnPiece(groups, j, before, i, now, since);
      assert before + {i} == before;
    } else {
      NewOnPiece(groups, j, before, i, now, since);
      if before + {i} == All(|StartsOf(j)|) {
        CompleteIsEmpty(Arrive(groups, j, i, now).groups, j, since);
      }
    }
  }

  lemma {:induction false} RepeatOnPiece(groups: Groups, j: Job, before: set<nat>, i: nat, now: nat, since: nat)
    requires Splittable(j) && j.chunk > 0 && before < All(|StartsOf(j)|) && i < |StartsOf(j)| && i in before
    requires HoldsJob(groups, j, Offsets(j, before), since)
    ensures Arrive(groups, j, i, now) == Step(groups, Rejected(Overlap))
  {
    hide PieceHeader, Splittable, Info, Starts, GroupOf, InsertLive, Slice, StartsOf, HoldsJob, All, Offsets;
    StartIsOne(j, i);
    OffsetsMember(j, before, i);
    OffsetsAll(j, before);
    StepOnRepeat(groups, j, Offsets(j, before), StartsOf(j)[i], now, since);
  }

  lemma {:induction false} NewOnPiece(groups: Groups, j: Job, before: set<nat>, i: nat, now: nat, since: nat)
    requires Splittable(j) && j.chunk > 0 && before < All(|StartsOf(j)|) && i < |StartsOf(j)| && i !in before
    requires HoldsJob(groups, j, Offsets(j, before), since)
    requires Within(now, since) && (JobKey(j) in groups || |groups| < MAX_GROUPS)
    ensures var step, all := Arrive(groups, j, i, now), before + {i} == All(|StartsOf(j)|);
            && HoldsJob(step.groups, j, Offsets(j, before + {i}), since)
            && (all ==> Offsets(j, before + {i}) == Starts(j))
            && (forall key :: key != JobKey(j) ==>
                  (key in step.groups <==> key in groups) && (key in groups ==> step.groups[key] == groups[key]))
            && step.outcome == (if all then Reassembled(HeaderBytes(Restored(j)) + j.payload) else Incomplete)
  {
    hide PieceHeader, Splittable, Info, Starts, GroupOf, InsertLive, HeaderBytes, Slice, StartsOf, HoldsJob, Offsets;
    StartIsOne(j, i);
    OffsetsMember(j, before, i);
    OffsetsAll(j, before);
    StepOnJob(groups, j, Offsets(j, before), StartsOf(j)[i], now, since);
    OffsetsMore(j, before, i);
    assert before + {i} <= All(|StartsOf(j)|);
    OffsetsAll(j, before + {i});
  }

  lemma {:induction false} CompleteIsEmpty(groups: Groups, j: Job, since: nat)
    requires j.chunk > 0 && HoldsJob(groups, j, Starts(j), since)
    ensures HoldsJob(groups, j, Offsets(j, {}), since)
  {
    assert Offsets(j, {}) == {};
  }

  lemma {:induction false} NothingIsReaped(groups: Groups, jobs: seq<Job>, sched: seq<Arrival>, now: nat, since: nat)
    requires Jobs(jobs) && Named(CountsOf(jobs), sched) && Holds(groups, jobs, sched, since) && Within(now, since)
    ensures Reaped(groups, now) == groups
  {
    forall key | key in groups ensures Live(groups[key], now) {
      var a: nat :| a < |jobs| && key == JobKey(jobs[a]);
      assert HoldsJob(groups, jobs[a], Offsets(jobs[a], Received(CountsOf(jobs), sched, a)), since);
    }
  }

  ghost function KeysOf(jobs: seq<Job>): set<Key> {
    set a | 0 <= a < |jobs| :: JobKey(jobs[a])
  }

  lemma {:induction false} KeyCount(jobs: seq<Job>)
    ensures |KeysOf(jobs)| <= |jobs|
  {
    if jobs == [] {
      assert KeysOf(jobs) == {};
    } else {
      var rest := jobs[..|jobs| - 1];
      KeyCount(rest);
      assert KeysOf(jobs) == KeysOf(rest) + {JobKey(jobs[|jobs| - 1])};
    }
  }

  lemma {:induction false} SubsetSize<T>(a: set<T>, b: set<T>)
    requires a <= b
    ensures |a| <= |b|
  {
    assert b == a + (b - a);
  }

  lemma {:induction false} KeyIsOne(jobs: seq<Job>, a: nat)
    requires a < |jobs|
    ensures JobKey(jobs[a]) in KeysOf(jobs)
  {
    hide JobKey;
  }

  /** A packet that has no group yet finds room for one. */
  lemma {:induction false} RoomForAnother(groups: Groups, jobs: seq<Job>, a: nat)
    requires Jobs(jobs) && a < |jobs| && JobKey(jobs[a]) !in groups
    requires forall key :: key in groups ==> key in KeysOf(jobs)
    ensures |groups| < MAX_GROUPS
  {
    hide Splittable, JobKey, KeysOf;
    KeyCount(jobs);
    assert JobKey(jobs[a]) in KeysOf(jobs) by { KeyIsOne(jobs, a); }
    SubsetSize(groups.Keys + {JobKey(jobs[a])}, KeysOf(jobs));
  }

  lemma {:induction false} RoomForJob(groups: Groups, jobs: seq<Job>, sched: seq<Arrival>, a: nat, since: nat)
    requires Jobs(jobs) && Named(CountsOf(jobs), sched) && Holds(groups, jobs, sched, since) && a < |jobs|
    ensures JobKey(jobs[a]) in groups || |groups| < MAX_GROUPS
  {
    hide Splittable, JobKey, HoldsJob, Received, CountsOf;
    if JobKey(jobs[a]) !in groups {
      assert forall key :: key in groups ==> key in KeysOf(jobs);
      RoomForAnother(groups, jobs, a);
    }
  }

  lemma {:induction false} DistinctKeys(jobs: seq<Job>, a: nat, b: nat)
    requires Jobs(jobs) && a < |jobs| && b < |jobs| && a != b
    ensures JobKey(jobs[a]) != JobKey(jobs[b])
  {
    hide JobKey, Splittable;
    if a < b { } else { assert JobKey(jobs[b]) != JobKey(jobs[a]); }
  }

  lemma {:induction false} CountIs(jobs: seq<Job>, a: nat)
    requires Jobs(jobs) && a < |jobs|
    ensures CountsOf(jobs)[a] == |StartsOf(jobs[a])| > 0
  {
    hide Splittable, JobKey, StartsOf;
    HasFragments(jobs[a]);
  }

  /** The invariant survives any arrival, repetitions included, and the arrival fares as `Verdict` says. */
  lemma {:induction false} StepKeepsHolds(groups: Groups, jobs: seq<Job>, sched: seq<Arrival>, x: Arrival, now: nat,
      since: nat)
    requires Jobs(jobs) && Named(CountsOf(jobs), sched)
    requires Holds(groups, jobs, sched, since) && Within(now, since)
    requires x.job < |jobs| && x.piece < |StartsOf(jobs[x.job])|
    ensures var step := Arrive(groups, jobs[x.job], x.piece, now);
            && Named(CountsOf(jobs), sched + [x]) && Holds(step.groups, jobs, sched + [x], since)
            && step.outcome == Verdict(jobs[x.job], Received(CountsOf(jobs), sched, x.job), x.piece)
  {
    hide Splittable, Arrive, Starts, GroupOf, StartsOf, HeaderBytes, JobKey, Received, HoldsJob, CountsOf, Offsets,
         Verdict, All;
    var a, j := x.job, jobs[x.job];
    var before := Received(CountsOf(jobs), sched, a);
    CountIs(jobs, a);
    assert HoldsJob(groups, j, Offsets(j, before), since);
    ReceivedIsPartial(CountsOf(jobs), sched, a);
    RoomForJob(groups, jobs, sched, a, since);
    StepOnPiece(groups, j, before, x.piece, now, since);
    ReceivedMore(CountsOf(jobs), sched, x, a);
    OthersAreKept(groups, Arrive(groups, j, x.piece, now).groups, jobs, sched, x, since);
  }

  /** Only the group of the arriving fragment's packet has changed. */
  lemma {:induction false} OthersAreKept(groups: Groups, after: Groups, jobs: seq<Job>, sched: seq<Arrival>,
      x: Arrival, since: nat)
    requires Jobs(jobs) && Named(CountsOf(jobs), sched) && Named(CountsOf(jobs), sched + [x])
    requires Holds(groups, jobs, sched, since) && x.job < |jobs| && x.piece < CountsOf(jobs)[x.job]
    requires HoldsJob(after, jobs[x.job], Offsets(jobs[x.job], Received(CountsOf(jobs), sched + [x], x.job)), since)
    requires forall key :: key != JobKey(jobs[x.job]) ==>
               (key in after <==> key in groups) && (key in groups ==> after[key] == groups[key])
    ensures Holds(after, jobs, sched + [x], since)
  {
    hide Splittable, Starts, GroupOf, StartsOf, JobKey, Received, CountsOf, Offsets;
    forall b: nat | b < |jobs|
      ensures HoldsJob(after, jobs[b], Offsets(jobs[b], Received(CountsOf(jobs), sched + [x], b)), since)
    {
      ReceivedMore(CountsOf(jobs), sched, x, b);
      if b != x.job {
        DistinctKeys(jobs, x.job, b);
        assert HoldsJob(groups, jobs[b], Offsets(jobs[b], Received(CountsOf(jobs), sched, b)), since);
      }
    }
    forall key | key in after ensures exists a: nat :: a < |jobs| && key == JobKey(jobs[a]) {
      if key == JobKey(jobs[x.job]) {
      } else {
        assert key in groups;
      }
    }
  }

  // ---- whole runs ----

  /** The run delivers the named fragments within one timeout of `since`. */
  ghost predicate Carries(jobs: seq<Job>, sched: seq<Arrival>, run: seq<Delivery>, since: nat)
    requires Jobs(jobs) && Named(CountsOf(jobs), sched)
  {
    && |run| == |sched|
    && (forall k :: 0 <= k < |run| ==> Within(run[k].now, since) && CarriesOne(jobs, sched[k], run[k]))
  }

  ghost predicate CarriesOne(jobs: seq<Job>, x: Arrival, d: Delivery)
    requires x.job < |jobs| && Splittable(jobs[x.job]) && jobs[x.job].chunk > 0
    requires x.piece < |StartsOf(jobs[x.job])|
  {
    StartIsOne(jobs[x.job], x.piece);
    d.wire == PieceBytes(jobs[x.job], StartsOf(jobs[x.job])[x.piece])
  }

  /** A delivered fragment decodes and passes `Examine`. */
  lemma {:induction false} DeliveredPiece(groups: Groups, j: Job, s: nat, now: nat)
    requires Splittable(j) && s in Starts(j)
    ensures DecodeBytes(PieceBytes(j, s)).Ok?
    ensures Deliver(groups, Delivery(PieceBytes(j, s), now))
         == InsertLive(Reaped(groups, now), PieceHeader(j, s), Info(j, s), Slice(j, s), now)
  {
    hide PieceHeader, DecodeBytes, InsertLive, Splittable, Examine, Info, Slice, PieceBytes;
    PieceDecodes(j, s);
    PieceExamined(j, s);
  }

  lemma {:induction false} PieceArrives(groups: Groups, j: Job, i: nat, now: nat)
    requires Splittable(j) && j.chunk > 0 && i < |StartsOf(j)|
    ensures StartsOf(j)[i] in Starts(j) && DecodeBytes(PieceBytes(j, StartsOf(j)[i])).Ok?
    ensures Deliver(groups, Delivery(PieceBytes(j, StartsOf(j)[i]), now)) == Arrive(Reaped(groups, now), j, i, now)
  {
    hide PieceHeader, DecodeBytes, InsertLive, Splittable, Info, Slice, PieceBytes, StartsOf, Starts;
    StartIsOne(j, i);
    DeliveredPiece(groups, j, StartsOf(j)[i], now);
  }

  lemma {:induction false} PieceExamined(j: Job, s: nat)
    requires Splittable(j) && s in Starts(j)
    ensures Examine(PieceHeader(j, s), Slice(j, s)) == Ok(Info(j, s))
  {
    hide PieceHeader, ToExt, ParseInfo, HasFragment, HasExtension, ReservedOk, Slice;
    PieceHeaderFields(j, s);
    ModOf8(s, j.chunk);
    InfoRoundTrip(Info(j, s));
    SliceEnd(j, s);
    assert Info(j, s).more ==> |Slice(j, s)| == j.chunk;
  }

  lemma {:induction false} RunHolds(jobs: seq<Job>, sched: seq<Arrival>, run: seq<Delivery>, since: nat)
    requires Jobs(jobs) && Named(CountsOf(jobs), sched) && Carries(jobs, sched, run, since)
    ensures forall k :: 0 <= k < |run| ==> DecodeBytes(run[k].wire).Ok?
    ensures Holds(Run(run), jobs, sched, since)
    decreases |sched|
  {
    hide Splittable, DecodeBytes, PieceBytes, Starts, GroupOf, StartsOf, JobKey, CountsOf, Holds, Received, Deliver,
         CarriesOne;
    if sched == [] {
      NothingHeld(jobs, since);
    } else {
      var n := |sched| - 1;
      RunHolds(jobs, sched[..n], run[..n], since);
      ArrivalNamed(jobs, sched, n);
      RunStep(jobs, sched[..n], run[..n], sched[n], run[n], since);
      assert sched[..n] + [sched[n]] == sched;
    }
  }

  lemma {:induction false} NothingHeld(jobs: seq<Job>, since: nat)
    requires Jobs(jobs)
    ensures Named(CountsOf(jobs), []) && Holds(map[], jobs, [], since)
  {
    hide Splittable, Starts, GroupOf, StartsOf, JobKey, CountsOf;
    forall a: nat | a < |jobs|
      ensures HoldsJob(map[], jobs[a], Offsets(jobs[a], Received(CountsOf(jobs), [], a)), since)
    {
      assert Offsets(jobs[a], {}) == {};
    }
  }

  lemma {:induction false} ArrivalNamed(jobs: seq<Job>, sched: seq<Arrival>, k: nat)
    requires Jobs(jobs) && Named(CountsOf(jobs), sched) && k < |sched|
    ensures sched[k].job < |jobs| && sched[k].piece < |StartsOf(jobs[sched[k].job])|
  {
    hide Splittable, JobKey, StartsOf;
  }

  /** One more delivery after a run. */
  lemma {:induction false} RunStep(jobs: seq<Job>, sched: seq<Arrival>, run: seq<Delivery>, x: Arrival, d: Delivery,
      since: nat)
    requires Jobs(jobs) && Named(CountsOf(jobs), sched)
    requires forall k :: 0 <= k < |run| ==> DecodeBytes(run[k].wire).Ok?
    requires Holds(Run(run), jobs, sched, since)
    requires x.job < |jobs| && x.piece < |StartsOf(jobs[x.job])|
    requires Within(d.now, since) && CarriesOne(jobs, x, d)
    ensures Named(CountsOf(jobs), sched + [x]) && DecodeBytes(d.wire).Ok?
    ensures Holds(Deliver(Run(run), d).groups, jobs, sched + [x], since)
    ensures Deliver(Run(run), d).outcome == Verdict(jobs[x.job], Received(CountsOf(jobs), sched, x.job), x.piece)
  {
    hide Splittable, DecodeBytes, PieceBytes, Starts, GroupOf, StartsOf, JobKey, Arrive, Deliver, Run, Holds,
         HeaderBytes, Received, CountsOf, Verdict;
    var j, groups := jobs[x.job], Run(run);
    StartIsOne(j, x.piece);
    PieceArrives(groups, j, x.piece, d.now);
    NothingIsReaped(groups, jobs, sched, d.now, since);
    StepKeepsHolds(groups, jobs, sched, x, d.now, since);
  }
}
