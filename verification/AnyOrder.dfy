/** The reassembly theorem, from packet bytes to packet bytes. */
module AnyOrder {
  import opened Bytes
  import opened Counting
  import opened Header
  import opened Encode
  import opened Decode
  import opened Fragment
  import opened Reassembly
  import opened RoundTrip
  import opened SplitProofs
  import opened GroupProofs
  import opened ReassemblyProofs
  import opened Wrappers

  /** A request to split `packet`. */
  datatype Task = Task(packet: bytes, maxLen: nat, id: u32)

  /** The packet really was cut into fragments. */
  ghost predicate Cut(t: Task) {
    && DecodeBytes(t.packet).Ok? && |t.packet| > t.maxLen
    && Split(t.packet, t.maxLen, t.id).Ok? && Split(t.packet, t.maxLen, t.id).value != []
  }

  function Fragments(t: Task): seq<bytes>
    requires Cut(t)
  {
    Split(t.packet, t.maxLen, t.id).value
  }

  function TaskJob(t: Task): Job
    requires Cut(t)
  {
    JobOf(DecodeBytes(t.packet).value, t.maxLen, t.id)
  }

  /** The reassembly key of a packet. */
  function TaskKey(t: Task): Key
    requires Cut(t)
  {
    KeyOf(DecodeBytes(t.packet).value.header, t.id)
  }

  /** The packet as its receiver should see it: fragment flag cleared, nothing after the payload. */
  function RestoredPacket(t: Task): bytes
    requires Cut(t)
  {
    CutIsSplittable(t);
    HeaderBytes(Restored(TaskJob(t))) + TaskJob(t).payload
  }

  /** Every fragment fits in `maxLen` and is the piece at its start. */
  lemma {:induction false} CutIsSplittable(t: Task)
    requires Cut(t)
    ensures Splittable(TaskJob(t))
    ensures |Fragments(t)| == |StartsOf(TaskJob(t))|
    ensures forall i :: 0 <= i < |Fragments(t)| ==>
              && |Fragments(t)[i]| <= t.maxLen
              && Fragments(t)[i] == PieceBytes(TaskJob(t), StartsOf(TaskJob(t))[i])
  {
    hide DecodeBytes, Splittable, PieceBytes, HeaderBytes, Refusal, CarriesFragment;
    var d := DecodeBytes(t.packet).value;
    var j := TaskJob(t);
    SplitTested(t);
    SplitSucceeds(t.packet, t.maxLen, t.id);
    PiecesAreAll(j, 0);
    forall i | 0 <= i < |Fragments(t)| ensures |Fragments(t)[i]| <= t.maxLen {
      PieceLength(d, t.maxLen, t.id, StartsOf(j)[i]);
    }
  }

  /** The tests `Split` has passed. */
  lemma {:induction false} SplitTested(t: Task)
    requires Cut(t)
    ensures var d := DecodeBytes(t.packet).value;
            && |d.payload| <= MAX_PAYLOAD_LEN && !CarriesFragment(d.header.extHeaders) && TaskJob(t).chunk >= 8
            && Split(t.packet, t.maxLen, t.id) == Pieces(TaskJob(t), 0)
  {
  }

  /** How many fragments each packet was cut into. */
  ghost function Counts(tasks: seq<Task>): (r: seq<nat>)
    requires forall a :: 0 <= a < |tasks| ==> Cut(tasks[a])
    ensures |r| == |tasks|
  {
    seq(|tasks|, a requires 0 <= a < |tasks| => |Fragments(tasks[a])|)
  }

  /** Up to 64 packets under different keys, cut in whatever sizes; any of their fragments, in any order and any
      interleaving and any number of times, delivered to a fresh reassembler within one timeout. */
  ghost predicate Traffic(tasks: seq<Task>, sched: seq<Arrival>, run: seq<Delivery>, since: nat) {
    && |tasks| <= MAX_GROUPS
    && (forall a :: 0 <= a < |tasks| ==> Cut(tasks[a]))
    && (forall a, b :: 0 <= a < b < |tasks| ==> TaskKey(tasks[a]) != TaskKey(tasks[b]))
    && Named(Counts(tasks), sched)
    && |run| == |sched|
    && (forall k :: 0 <= k < |run| ==>
          && Within(run[k].now, since)
          && run[k].wire == Fragments(tasks[sched[k].job])[sched[k].piece])
  }

  /** Every fragment of every packet exactly once: a permutation of all fragments. */
  ghost predicate Once(counts: seq<nat>, sched: seq<Arrival>) {
    && Distinct(sched)
    && (forall a, i: nat :: 0 <= a < |counts| && i < counts[a] ==> Arrival(a, i) in sched)
  }

  ghost predicate Scenario(tasks: seq<Task>, sched: seq<Arrival>, run: seq<Delivery>, since: nat) {
    Traffic(tasks, sched, run, since) && Once(Counts(tasks), sched)
  }

  /** No later arrival belongs to the packet of arrival `k`. */
  ghost predicate IsLast(sched: seq<Arrival>, k: nat)
    requires k < |sched|
  {
    forall l :: k < l < |sched| ==> sched[l].job != sched[k].job
  }

  ghost function JobsOf(tasks: seq<Task>): seq<Job>
    requires forall a :: 0 <= a < |tasks| ==> Cut(tasks[a])
  {
    seq(|tasks|, a requires 0 <= a < |tasks| => TaskJob(tasks[a]))
  }

  lemma {:induction false} TrafficJobs(tasks: seq<Task>, sched: seq<Arrival>, run: seq<Delivery>, since: nat)
    requires Traffic(tasks, sched, run, since)
    ensures Jobs(JobsOf(tasks)) && CountsOf(JobsOf(tasks)) == Counts(tasks) && Named(Counts(tasks), sched)
    ensures Carries(JobsOf(tasks), sched, run, since)
  {
    hide Splittable, DecodeBytes, PieceBytes, Fragments;
    forall a | 0 <= a < |tasks| ensures Splittable(TaskJob(tasks[a])) && TaskJob(tasks[a]).chunk > 0 {
      CutIsSplittable(tasks[a]);
      SplitTested(tasks[a]);
    }
    var jobs := JobsOf(tasks);
    forall a, b | 0 <= a < b < |jobs| ensures JobKey(jobs[a]) != JobKey(jobs[b]) {
      assert JobKey(jobs[a]) == TaskKey(tasks[a]) && JobKey(jobs[b]) == TaskKey(tasks[b]);
    }
    assert Jobs(jobs);
    forall a | 0 <= a < |tasks| ensures |StartsOf(jobs[a])| == |Fragments(tasks[a])| { CutIsSplittable(tasks[a]); }
    assert CountsOf(jobs) == Counts(tasks);
    forall k | 0 <= k < |run| ensures CarriesOne(jobs, sched[k], run[k]) { CutIsSplittable(tasks[sched[k].job]); }
  }

  /** Arrival `k` of any such run: a fragment that has arrived since its packet was last complete is refused as
      overlapping; one that completes the set returns the packet; any other is absorbed. */
  lemma {:induction false} EveryArrival(tasks: seq<Task>, sched: seq<Arrival>, run: seq<Delivery>, since: nat, k: nat)
    requires Traffic(tasks, sched, run, since) && k < |run|
    ensures forall l :: 0 <= l < |run| ==> DecodeBytes(run[l].wire).Ok?
    ensures Named(Counts(tasks), sched[..k])
    ensures var x := sched[k]; var before := Received(Counts(tasks), sched[..k], x.job);
            Deliver(Run(run[..k]), run[k]).outcome ==
            if x.piece in before then Rejected(Overlap)
            else if before + {x.piece} == All(Counts(tasks)[x.job]) then Reassembled(RestoredPacket(tasks[x.job]))
            else Incomplete
  {
    hide Traffic, DecodeBytes, PieceBytes, Starts, GroupOf, StartsOf, JobKey, Deliver, Run, Splittable, HeaderBytes,
         Received, Counts, CountsOf, Carries, Fragments;
    TrafficTasks(tasks, sched, run, since);
    TrafficJobs(tasks, sched, run, since);
    var jobs := JobsOf(tasks);
    CutIsSplittable(tasks[sched[k].job]);
    OutcomeAt(jobs, sched, run, since, k);
    CountIs(jobs, sched[k].job);
  }

  lemma {:induction false} TrafficTasks(tasks: seq<Task>, sched: seq<Arrival>, run: seq<Delivery>, since: nat)
    requires Traffic(tasks, sched, run, since)
    ensures |run| == |sched| && forall k :: 0 <= k < |run| ==> sched[k].job < |tasks|
    ensures forall a :: 0 <= a < |tasks| ==> Cut(tasks[a])
  {
    hide Cut, TaskKey, Fragments;
  }

  lemma {:induction false} OutcomeAt(jobs: seq<Job>, sched: seq<Arrival>, run: seq<Delivery>, since: nat, k: nat)
    requires Jobs(jobs) && Named(CountsOf(jobs), sched) && Carries(jobs, sched, run, since) && k < |run|
    ensures forall l :: 0 <= l < |run| ==> DecodeBytes(run[l].wire).Ok?
    ensures Named(CountsOf(jobs), sched[..k]) && |run| == |sched| && sched[k].job < |jobs|
    ensures Deliver(Run(run[..k]), run[k]).outcome
         == Verdict(jobs[sched[k].job], Received(CountsOf(jobs), sched[..k], sched[k].job), sched[k].piece)
  {
    hide DecodeBytes, PieceBytes, Starts, GroupOf, StartsOf, JobKey, Deliver, Run, Holds, Splittable, HeaderBytes,
         Received, CountsOf, Verdict, CarriesOne;
    RunHolds(jobs, sched, run, since);
    ArrivalNamed(jobs, sched, k);
    RunHolds(jobs, sched[..k], run[..k], since);
    RunStep(jobs, sched[..k], run[..k], sched[k], run[k], since);
  }

  // ---- every fragment exactly once ----

  /** The fragments of packet `a` among some arrivals. */
  ghost function Seen(sched: seq<Arrival>, a: nat): set<nat> {
    set k | 0 <= k < |sched| && sched[k].job == a :: sched[k].piece
  }

  lemma {:induction false} SeenMore(sched: seq<Arrival>, x: Arrival, a: nat)
    ensures Seen(sched + [x], a) == Seen(sched, a) + if x.job == a then {x.piece} else {}
  {
    var all := sched + [x];
    forall i | i in Seen(sched, a) ensures i in Seen(all, a) {
      var k :| 0 <= k < |sched| && sched[k].job == a && sched[k].piece == i;
      assert all[k] == sched[k];
    }
    assert all[|sched|] == x;
  }

  /** Without repetitions what has been received is what has been seen, until that is everything. */
  lemma {:induction false} ReceivedIsSeen(counts: seq<nat>, sched: seq<Arrival>, a: nat)
    requires Named(counts, sched) && a < |counts| && Distinct(sched)
    ensures Seen(sched, a) <= All(counts[a])
    ensures Received(counts, sched, a) == if Seen(sched, a) == All(counts[a]) then {} else Seen(sched, a)
  {
    if sched == [] {
      assert Seen(sched, a) == {};
    } else {
      var n := |sched| - 1;
      ReceivedIsSeen(counts, sched[..n], a);
      SeenMore(sched[..n], sched[n], a);
      assert sched == sched[..n] + [sched[n]];
      NotSeenBefore(sched, n, n);
    }
  }

  lemma {:induction false} SeenAt(sched: seq<Arrival>, a: nat, i: nat) returns (k: nat)
    requires i in Seen(sched, a)
    ensures k < |sched| && sched[k] == Arrival(a, i)
  {
    k :| 0 <= k < |sched| && sched[k].job == a && sched[k].piece == i;
  }

  lemma {:induction false} NotSeenBefore(sched: seq<Arrival>, n: nat, k: nat)
    requires n <= k < |sched| && Distinct(sched)
    ensures sched[k].piece !in Seen(sched[..n], sched[k].job)
  {
    hide Distinct, Seen;
    if sched[k].piece in Seen(sched[..n], sched[k].job) {
      var l := SeenAt(sched[..n], sched[k].job, sched[k].piece);
      DistinctAt(sched, l, k);
    }
  }

  /** All fragments of a packet have been seen after arrival `k` exactly when none of them is still to come. */
  lemma {:induction false} CompleteAtLast(counts: seq<nat>, sched: seq<Arrival>, k: nat)
    requires Named(counts, sched) && Once(counts, sched) && k < |sched|
    ensures Seen(sched[..k + 1], sched[k].job) == All(counts[sched[k].job]) <==> IsLast(sched, k)
  {
    var a, early := sched[k].job, sched[..k + 1];
    if IsLast(sched, k) {
      forall i | i in All(counts[a]) ensures i in Seen(early, a) {
        var l :| 0 <= l < |sched| && sched[l] == Arrival(a, i);
        assert early[l] == sched[l];
      }
    } else {
      var l :| k < l < |sched| && sched[l].job == a;
      NotSeenBefore(sched, k + 1, l);
    }
  }

  /** Delivery `k` of the run returns a packet exactly when it is the last fragment of its packet to
      arrive, and the packet is then the original one; otherwise it is absorbed without error. */
  lemma {:induction false} EveryDelivery(tasks: seq<Task>, sched: seq<Arrival>, run: seq<Delivery>, since: nat, k: nat)
    requires Scenario(tasks, sched, run, since) && k < |run|
    ensures forall l :: 0 <= l < |run| ==> DecodeBytes(run[l].wire).Ok?
    ensures Deliver(Run(run[..k]), run[k]).outcome ==
            if IsLast(sched, k) then Reassembled(RestoredPacket(tasks[sched[k].job])) else Incomplete
  {
    hide Traffic, DecodeBytes, Deliver, Run, Received, Counts, Seen, RestoredPacket, All;
    TrafficTasks(tasks, sched, run, since);
    TrafficNamed(tasks, sched, run, since);
    assert forall a :: 0 <= a < |tasks| ==> Cut(tasks[a]);
    EveryArrival(tasks, sched, run, since, k);
    var counts, a := Counts(tasks), sched[k].job;
    ReceivedIsSeen(counts, sched[..k], a);
    NotSeenBefore(sched, k, k);
    CompleteAtLast(counts, sched, k);
    SeenMore(sched[..k], sched[k], a);
    assert sched[..k] + [sched[k]] == sched[..k + 1];
    NotAll(Seen(sched[..k], a), sched[k].piece, counts[a]);
  }

  lemma {:induction false} NotAll(s: set<nat>, i: nat, n: nat)
    requires i < n && i !in s
    ensures s != All(n)
  {
    assert i in All(n);
  }

  lemma {:induction false} TrafficNamed(tasks: seq<Task>, sched: seq<Arrival>, run: seq<Delivery>, since: nat)
    requires Traffic(tasks, sched, run, since)
    ensures Named(Counts(tasks), sched)
  {
    hide Cut, TaskKey, Fragments;
  }

  /** After the run the reassembler is empty again. */
  lemma {:induction false} NothingIsLeft(tasks: seq<Task>, sched: seq<Arrival>, run: seq<Delivery>, since: nat)
    requires Scenario(tasks, sched, run, since)
    ensures forall l :: 0 <= l < |run| ==> DecodeBytes(run[l].wire).Ok?
    ensures Run(run) == map[]
  {
    hide Traffic, DecodeBytes, PieceBytes, GroupOf, StartsOf, JobKey, Run, Splittable, Carries, Holds, Received, Starts,
         CountsOf, Counts;
    TrafficTasks(tasks, sched, run, since);
    TrafficJobs(tasks, sched, run, since);
    var jobs := JobsOf(tasks);
    RunHolds(jobs, sched, run, since);
    forall a: nat | a < |jobs| ensures Received(CountsOf(jobs), sched, a) == {} {
      AllReceived(CountsOf(jobs), sched, a);
    }
    EmptyWhenAllReceived(Run(run), jobs, sched, since);
  }

  lemma {:induction false} AllReceived(counts: seq<nat>, sched: seq<Arrival>, a: nat)
    requires Named(counts, sched) && Once(counts, sched) && a < |counts|
    ensures Received(counts, sched, a) == {}
  {
    hide Received;
    ReceivedIsSeen(counts, sched, a);
    forall i | i in All(counts[a]) ensures i in Seen(sched, a) {
      var l :| 0 <= l < |sched| && sched[l] == Arrival(a, i);
    }
  }

  lemma {:induction false} EmptyWhenAllReceived(groups: Groups, jobs: seq<Job>, sched: seq<Arrival>, since: nat)
    requires Jobs(jobs) && Named(CountsOf(jobs), sched) && Holds(groups, jobs, sched, since)
    requires forall a: nat :: a < |jobs| ==> Received(CountsOf(jobs), sched, a) == {}
    ensures groups == map[]
  {
    hide StartsOf, GroupOf, JobKey, Splittable, Starts, Received, CountsOf;
    forall a: nat | a < |jobs| ensures JobKey(jobs[a]) !in groups {
      assert HoldsJob(groups, jobs[a], Offsets(jobs[a], Received(CountsOf(jobs), sched, a)), since);
      assert Offsets(jobs[a], {}) == {};
    }
  }

  /** The reassembled packet is the original, byte for byte, if and only if the original was not marked
      as a fragment, had zero in byte 39 and carried nothing after its payload. */
  lemma {:induction false} RestoredIsOriginal(t: Task)
    requires Cut(t)
    ensures var d := DecodeBytes(t.packet).value;
            RestoredPacket(t) == t.packet
            <==> !HasFragment(d.header.flags) && t.packet[39] == 0 && |t.packet| == Consumed(d)
  {
    hide DecodeBytes;
    var d := DecodeBytes(t.packet).value;
    CutIsSplittable(t);
    DecodeThenEncode(t.packet);
    var p, r := t.packet, RestoredPacket(t);
    RestoredReads(t);
    if !HasFragment(d.header.flags) {
      assert Packet(d.header, d.payload) == Ok(r);
      if |p| == Consumed(d) { assert p[..Consumed(d)] == p; }
      if r == p { assert p[..|p|] == p; }
    }
  }

  /** A restored packet decodes to the restored header. */
  lemma {:induction false} RestoredReads(t: Task)
    requires Cut(t)
    ensures DecodeBytes(RestoredPacket(t)) == Ok(Decoded(Restored(TaskJob(t)), TaskJob(t).payload))
  {
    hide DecodeBytes, HeaderBytes;
    CutIsSplittable(t);
    var j := TaskJob(t);
    RestoredAccepted(j);
    assert Packet(Restored(j), j.payload) == Ok(RestoredPacket(t));
    PrintedPacketDecodes(Restored(j), j.payload, RestoredPacket(t));
  }
}
