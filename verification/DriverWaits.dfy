/** When a READ waits while a frame that it would accept is queued. */
module DriverWaits {
  import opened Bytes
  import opened Counting
  import opened Driver
  import opened DriverSafety
  import opened Wrappers

  /** A waiting READ and a queued frame that it accepts. */
  ghost predicate Beside(s: State)
    requires Indexed(s)
  {
    exists w, f :: w in s.pending && f in Frames(s.queue, s.store) && Wanted(f, w.ifIndex)
  }

  ghost predicate QueueHas(s: State, ifIndex: u32)
    requires Indexed(s)
  {
    exists f :: f in Frames(s.queue, s.store) && Wanted(f, ifIndex)
  }

  ghost predicate Awaited(s: State, f: Frame) {
    exists w :: w in s.pending && Wanted(f, w.ifIndex)
  }

  /** A READ starts to wait beside a queued frame that it accepts, or a frame is queued beside a READ that waits for
      it. */
  ghost predicate Misses(s: State, a: Action)
    requires Enabled(s, a)
  {
    match a
    case Park(t) => QueueHas(s, s.threads[t].ifIndex)
    case Enqueue(t) => Awaited(s, s.threads[t].frame)
    case _ => false
  }

  // ---- what steps do to the waiting READs and the queued frames ----

  predicate FewerWaiters(s: State, e: State) {
    e.pending == s.pending || exists k: nat :: k < |s.pending| && e.pending == Without(s.pending, k)
  }

  lemma {:induction false} WithoutMembers<T>(s: seq<T>, k: nat, x: T)
    requires k < |s| && x in Without(s, k)
    ensures x in s
  {
  }

  lemma {:induction false} WaitersAfter(s: State, a: Action)
    requires Enabled(s, a) && !a.Park?
    ensures FewerWaiters(s, Apply(s, a))
  {
    hide Frames, FirstWanted, Without, Began, Done, Indexed;
    if Receives(a) {
      ReceiveWaiters(s, a);
    } else if Reads(a) {
      ReadWaiters(s, a);
    } else {
      OtherWaiters(s, a);
    }
  }

  lemma {:induction false} ReceiveWaiters(s: State, a: Action)
    requires Enabled(s, a) && Receives(a)
    ensures FewerWaiters(s, Apply(s, a))
  {
    hide Frames, FirstWanted, Without, Began, Done, Indexed;
  }

  lemma {:induction false} ReadWaiters(s: State, a: Action)
    requires Enabled(s, a) && Reads(a) && !a.Park?
    ensures Apply(s, a).pending == s.pending
  {
    hide Frames, FirstWanted, Without, Began, Done, Indexed;
  }

  lemma {:induction false} OtherWaiters(s: State, a: Action)
    requires Enabled(s, a) && !Receives(a) && !Reads(a)
    ensures FewerWaiters(s, Apply(s, a))
  {
    hide Frames, FirstWanted, Without, Began, Done, Indexed;
  }

  lemma {:induction false} NoNewWaiter(s: State, a: Action, w: Waiter)
    requires Enabled(s, a) && !a.Park? && w in Apply(s, a).pending
    ensures w in s.pending
  {
    hide Apply, Without, Enabled;
    WaitersAfter(s, a);
    if Apply(s, a).pending != s.pending {
      var k: nat :| k < |s.pending| && Apply(s, a).pending == Without(s.pending, k);
      WithoutMembers(s.pending, k, w);
    }
  }

  /** Only queueing makes a frame appear in the queue. */
  lemma {:induction false} NoNewFrame(s: State, a: Action, f: Frame)
    requires Enabled(s, a) && Sound(s) && !a.Enqueue?
    requires Indexed(Apply(s, a)) && f in Frames(Apply(s, a).queue, Apply(s, a).store)
    ensures f in Frames(s.queue, s.store)
  {
    hide Apply, Frames, Enabled, Partitioned, Accounted, NodesHold, InOrder, Without;
    if a.CheckQueue? {
      DequeuedFrames(s, a.t, f);
    } else {
      StepFrame(s, a);
      if a.Fill? {
        FilledFrames(s, a.t, a.ok);
      }
    }
  }

  lemma {:induction false} FilledFrames(s: State, t: nat, ok: bool)
    requires Enabled(s, Fill(t, ok)) && Sound(s)
    ensures var e := Apply(s, Fill(t, ok));
            Indexed(e) && Frames(e.queue, e.store) == Frames(s.queue, s.store)
  {
    hide Apply, Frames, Partitioned, Accounted, NodesHold, InOrder;
    FillWrites(s, t, ok);
    FillUnseen(s, t, Apply(s, Fill(t, ok)).store);
  }

  lemma {:induction false} DequeuedFrames(s: State, t: nat, f: Frame)
    requires Enabled(s, CheckQueue(t)) && Indexed(Apply(s, CheckQueue(t)))
    requires f in Frames(Apply(s, CheckQueue(t)).queue, Apply(s, CheckQueue(t)).store)
    ensures f in Frames(s.queue, s.store)
  {
    hide FirstWanted;
    var e := Apply(s, CheckQueue(t));
    var i :| 0 <= i < |e.queue| && Frames(e.queue, e.store)[i] == f;
    assert e.queue[i] in s.queue;
    var k :| 0 <= k < |s.queue| && s.queue[k] == e.queue[i];
    assert Frames(s.queue, s.store)[k] == f;
  }

  // ---- one step, exactly ----

  /** From a state without such a pair a step leads to one exactly when it misses: it parks a READ whose frame is
      already queued, or queues a frame whose READ already waits. */
  lemma {:induction false} BesideExactly(s: State, a: Action)
    requires Enabled(s, a) && Sound(s) && !Beside(s)
    ensures Indexed(Apply(s, a)) && (Beside(Apply(s, a)) <==> Misses(s, a))
  {
    hide Apply, Sound, Enabled, Misses, Frames, Wanted;
    StepKeepsSound(s, a);
    SoundIsIndexed(s);
    SoundIsIndexed(Apply(s, a));
    if a.Park? {
      ParkBeside(s, a.t);
    } else if a.Enqueue? {
      EnqueueBeside(s, a.t);
    } else {
      OnlyThoseMiss(s, a);
      if Beside(Apply(s, a)) {
        var w, f :| w in Apply(s, a).pending && f in Frames(Apply(s, a).queue, Apply(s, a).store)
            && Wanted(f, w.ifIndex);
        NoNewWaiter(s, a, w);
        NoNewFrame(s, a, f);
      }
    }
  }

  lemma {:induction false} SoundIsIndexed(s: State)
    requires Sound(s)
    ensures Indexed(s)
  {
    hide Partitioned, Accounted, NodesHold, InOrder;
  }

  lemma {:induction false} OnlyThoseMiss(s: State, a: Action)
    requires Enabled(s, a) && !a.Park? && !a.Enqueue?
    ensures !Misses(s, a)
  {
    hide Enabled;
  }

  /** A READ that starts to wait is beside a frame exactly when the queue has one that it accepts. */
  lemma {:induction false} ParkBeside(s: State, t: nat)
    requires Enabled(s, Park(t)) && Indexed(s) && !Beside(s)
    ensures Indexed(Apply(s, Park(t))) && (Beside(Apply(s, Park(t))) <==> Misses(s, Park(t)))
  {
    hide Frames, Wanted;
    var e, th := Apply(s, Park(t)), s.threads[t];
    assert e.pending == s.pending + [Waiter(th.irp, th.ifIndex, th.file)];
    assert Waiter(th.irp, th.ifIndex, th.file) in e.pending;
    if Beside(e) {
      var w, f :| w in e.pending && f in Frames(e.queue, e.store) && Wanted(f, w.ifIndex);
      assert w in s.pending || w == Waiter(th.irp, th.ifIndex, th.file);
    }
  }

  /** A frame that is queued is beside a READ exactly when one waits that accepts it. */
  lemma {:induction false} EnqueueBeside(s: State, t: nat)
    requires Enabled(s, Enqueue(t)) && Sound(s) && !Beside(s)
    ensures Indexed(Apply(s, Enqueue(t))) && (Beside(Apply(s, Enqueue(t))) <==> Misses(s, Enqueue(t)))
  {
    hide Frames, Wanted, Sound;
    QueuedFrames(s, t);
    var e, f := Apply(s, Enqueue(t)), s.threads[t].frame;
    assert f in Frames(e.queue, e.store);
    if Beside(e) {
      var w, g :| w in e.pending && g in Frames(e.queue, e.store) && Wanted(g, w.ifIndex);
      assert g in Frames(s.queue, s.store) || g == f;
    }
    if Awaited(s, f) {
      var w :| w in s.pending && Wanted(f, w.ifIndex);
      assert w in e.pending;
    }
  }

  lemma {:induction false} QueuedFrames(s: State, t: nat)
    requires Enabled(s, Enqueue(t)) && Sound(s)
    ensures var e := Apply(s, Enqueue(t));
            && Indexed(e) && e.pending == s.pending
            && Frames(e.queue, e.store) == Frames(s.queue, s.store) + [s.threads[t].frame]
  {
    hide Partitioned, Accounted, InOrder;
    assert Holding(s.threads[t], s.store);
  }

  // ---- runs ----

  /** The actions are possible one after the other. */
  ghost predicate Possible(s: State, run: seq<Action>)
    decreases |run|
  {
    run == [] || (Enabled(s, run[0]) && Possible(Apply(s, run[0]), run[1..]))
  }

  /** At no point of the run, its ends included, does a READ wait beside a frame that it accepts. */
  ghost predicate NeverBeside(s: State, run: seq<Action>)
    requires Possible(s, run)
    decreases |run|
  {
    && Indexed(s) && !Beside(s)
    && (run != [] ==> NeverBeside(Apply(s, run[0]), run[1..]))
  }

  /** No step of the run misses. */
  ghost predicate NoMiss(s: State, run: seq<Action>)
    requires Possible(s, run)
    decreases |run|
  {
    run != [] ==> !Misses(s, run[0]) && NoMiss(Apply(s, run[0]), run[1..])
  }

  lemma {:induction false} NeverBesideFrom(s: State, run: seq<Action>)
    requires Possible(s, run) && Sound(s) && Indexed(s) && !Beside(s)
    ensures NeverBeside(s, run) <==> NoMiss(s, run)
    decreases |run|
  {
    hide Apply, Sound, Enabled, Misses, Beside;
    if run == [] {
    } else {
      var e := Apply(s, run[0]);
      BesideExactly(s, run[0]);
      StepKeepsSound(s, run[0]);
      if !Beside(e) {
        NeverBesideFrom(e, run[1..]);
      } else {
        BesideNow(e, run[1..]);
      }
    }
  }

  lemma {:induction false} BesideNow(s: State, run: seq<Action>)
    requires Possible(s, run) && Indexed(s) && Beside(s)
    ensures !NeverBeside(s, run)
  {
    hide Apply, Enabled, Beside;
  }

  /** The driver keeps READs and the frames they accept apart, all through a run from its start, exactly when no READ
      starts to wait while the queue has a frame that it accepts and no frame is queued while a READ waits for it. */
  lemma {:induction false} NeverBesideExactly(threads: nat, run: seq<Action>)
    requires Possible(Started(threads), run)
    ensures NeverBeside(Started(threads), run) <==> NoMiss(Started(threads), run)
  {
    hide Possible, Sound, Started, Beside;
    StartedIsSound(threads);
    SoundIsIndexed(Started(threads));
    StartsApart(threads);
    NeverBesideFrom(Started(threads), run);
  }

  lemma {:induction false} StartsApart(threads: nat)
    ensures Indexed(Started(threads)) && !Beside(Started(threads))
  {
    hide Upto;
  }

  // ---- orderly schedules ----

  /** A thread that carries a frame past the waiting READs and has not queued it yet. */
  predicate Carrying(th: Thread) {
    th.Storing? || th.Filling? || th.Queueing?
  }

  /** The step falls between the two critical sections of another thread: a frame is queued between the look into
      the queue and the start to wait of a READ that accepts it, or a READ starts to wait between the search for a
      READ and the queueing of a frame that it accepts. */
  ghost predicate Overlaps(s: State, a: Action)
    requires Enabled(s, a)
  {
    match a
    case Enqueue(t) =>
      exists u: nat :: u < |s.threads| && s.threads[u].Parking? && Wanted(s.threads[t].frame, s.threads[u].ifIndex)
    case Park(u) =>
      exists t: nat :: t < |s.threads| && Carrying(s.threads[t]) && Wanted(s.threads[t].frame, s.threads[u].ifIndex)
    case _ => false
  }

  /** The action asks for a READ of any interface. */
  predicate ReadsAny(a: Action) {
    a.Dispatch? && a.request.Recv? && a.request.ifIndex == IFINDEX_ANY
  }

  ghost predicate Orderly(s: State, run: seq<Action>)
    requires Possible(s, run)
    decreases |run|
  {
    run != [] ==> !ReadsAny(run[0]) && !Overlaps(s, run[0]) && Orderly(Apply(s, run[0]), run[1..])
  }

  /** No READ is for any interface; READs about to wait have found no frame, frames about to be queued no READ. */
  ghost predicate Apart(s: State)
    requires Indexed(s)
  {
    && (forall w :: w in s.pending ==> w.ifIndex != IFINDEX_ANY)
    && (forall u: nat :: u < |s.threads| ==> ThreadApart(s, s.threads[u]))
  }

  ghost predicate ThreadApart(s: State, th: Thread)
    requires Indexed(s)
  {
    && (th.Checking? || th.Parking? ==> th.ifIndex != IFINDEX_ANY)
    && (th.Parking? ==> !QueueHas(s, th.ifIndex))
    && (Carrying(th) ==> !Awaited(s, th.frame))
  }

  lemma {:induction false} ApartMeans(s: State, t: nat)
    requires Indexed(s) && Apart(s) && t < |s.threads|
    ensures ThreadApart(s, s.threads[t])
  {
    hide ThreadApart;
  }

  lemma {:induction false} OrderlyHits(s: State, a: Action)
    requires Enabled(s, a) && Indexed(s) && Apart(s)
    ensures !Misses(s, a)
  {
    hide QueueHas, Awaited;
    ApartMeans(s, a.t);
  }

  /** Where the thread that steps gets to: the ways to be about to wait, or to carry a frame. */
  predicate Arrives(s: State, a: Action, th: Thread)
    requires Enabled(s, a)
  {
    && (th.Checking? ==> a.Dispatch? && a.request.Recv? && a.request.ifIndex == th.ifIndex)
    && (th.Parking? ==>
          a.CheckQueue? && s.threads[a.t].ifIndex == th.ifIndex
          && FirstWanted(Frames(s.queue, s.store), th.ifIndex, 0) == Option.None)
    && (Carrying(th) ==>
          || (Carrying(s.threads[a.t]) && s.threads[a.t].frame == th.frame)
          || (a.FindWaiter? && s.threads[a.t].frame == th.frame
              && FirstWaiter(s.pending, ByIfIndex(th.frame.ifIndex), 0) == Option.None))
  }

  lemma {:induction false} MoverArrives(s: State, a: Action)
    requires Enabled(s, a)
    ensures a.t < |s.threads|
    ensures |Apply(s, a).threads| == |s.threads| && Arrives(s, a, Apply(s, a).threads[a.t])
  {
    hide Frames, FirstWanted, FirstWaiter, Without, Indexed;
    if Receives(a) {
      ReceiverArrives(s, a);
    } else if Reads(a) {
      ReaderArrives(s, a);
    } else {
      OtherArrives(s, a);
    }
  }

  lemma {:induction false} ReceiverArrives(s: State, a: Action)
    requires Enabled(s, a) && Receives(a)
    ensures |Apply(s, a).threads| == |s.threads| && Arrives(s, a, Apply(s, a).threads[a.t])
  {
    hide Frames, FirstWanted, FirstWaiter, Without, Indexed;
  }

  lemma {:induction false} ReaderArrives(s: State, a: Action)
    requires Enabled(s, a) && Reads(a)
    ensures |Apply(s, a).threads| == |s.threads| && Arrives(s, a, Apply(s, a).threads[a.t])
  {
    hide Frames, FirstWanted, FirstWaiter, Without, Indexed;
  }

  lemma {:induction false} OtherArrives(s: State, a: Action)
    requires Enabled(s, a) && !Receives(a) && !Reads(a)
    ensures |Apply(s, a).threads| == |s.threads| && Arrives(s, a, Apply(s, a).threads[a.t])
  {
    hide Frames, FirstWanted, FirstWaiter, Without, Indexed;
  }

  /** A step that overlaps nothing leaves the other threads apart from what it adds. */
  lemma {:induction false} OthersStayApart(s: State, a: Action, u: nat)
    requires Enabled(s, a) && Sound(s) && Indexed(Apply(s, a)) && !Overlaps(s, a) && u < |s.threads| && u != a.t
    requires Indexed(s) && ThreadApart(s, s.threads[u])
    ensures ThreadApart(Apply(s, a), s.threads[u])
  {
    hide Apply, Sound, Enabled, Frames, Wanted;
    var e, th := Apply(s, a), s.threads[u];
    if th.Parking? && QueueHas(e, th.ifIndex) {
      var f :| f in Frames(e.queue, e.store) && Wanted(f, th.ifIndex);
      if a.Enqueue? {
        EnqueuedForOther(s, a.t, u, f);
      } else {
        NoNewFrame(s, a, f);
      }
    }
    if Carrying(th) && Awaited(e, th.frame) {
      var w :| w in e.pending && Wanted(th.frame, w.ifIndex);
      if a.Park? {
        ParkedWaiter(s, a.t, w);
      } else {
        NoNewWaiter(s, a, w);
      }
    }
  }

  lemma {:induction false} EnqueuedForOther(s: State, t: nat, u: nat, f: Frame)
    requires Enabled(s, Enqueue(t)) && Sound(s) && !Overlaps(s, Enqueue(t)) && Indexed(Apply(s, Enqueue(t)))
    requires u < |s.threads| && s.threads[u].Parking? && Wanted(f, s.threads[u].ifIndex)
    requires f in Frames(Apply(s, Enqueue(t)).queue, Apply(s, Enqueue(t)).store)
    ensures f in Frames(s.queue, s.store)
  {
    hide Apply, Sound, Frames, Wanted, Overlaps;
    QueuedFrames(s, t);
    if f !in Frames(s.queue, s.store) {
      EnqueueOverlaps(s, t, u);
    }
  }

  lemma {:induction false} EnqueueOverlaps(s: State, t: nat, u: nat)
    requires Enabled(s, Enqueue(t)) && u < |s.threads| && s.threads[u].Parking?
    requires Wanted(s.threads[t].frame, s.threads[u].ifIndex)
    ensures Overlaps(s, Enqueue(t))
  {
    hide Wanted;
  }

  lemma {:induction false} ParkedWaiter(s: State, t: nat, w: Waiter)
    requires Enabled(s, Park(t)) && w in Apply(s, Park(t)).pending
    ensures w in s.pending || w.ifIndex == s.threads[t].ifIndex
  {
  }

  lemma {:induction false} MoverStaysApart(s: State, a: Action)
    requires Enabled(s, a) && Sound(s) && Indexed(Apply(s, a)) && !ReadsAny(a) && Indexed(s) && Apart(s)
    ensures a.t < |Apply(s, a).threads| && ThreadApart(Apply(s, a), Apply(s, a).threads[a.t])
  {
    hide Apply, Sound, Enabled, Frames, Wanted, FirstWanted, FirstWaiter;
    MoverArrives(s, a);
    ApartMeans(s, a.t);
    var e, th := Apply(s, a), Apply(s, a).threads[a.t];
    if th.Parking? {
      CheckerIs(s, a);
      NothingWanted(s, th.ifIndex);
      if QueueHas(e, th.ifIndex) {
        var f :| f in Frames(e.queue, e.store) && Wanted(f, th.ifIndex);
        NoNewFrame(s, a, f);
      }
    }
    if Carrying(th) && Awaited(e, th.frame) {
      CarrierKeeps(s, a);
      var w :| w in e.pending && Wanted(th.frame, w.ifIndex);
      NoNewWaiter(s, a, w);
      if a.FindWaiter? {
        NotMatched(s.pending, th.frame, w);
      }
    }
  }

  lemma {:induction false} CheckerIs(s: State, a: Action)
    requires Enabled(s, a)
    ensures a.CheckQueue? ==> s.threads[a.t].Checking?
  {
  }

  lemma {:induction false} CarrierKeeps(s: State, a: Action)
    requires Enabled(s, a)
    ensures Carrying(s.threads[a.t]) || a.FindWaiter? ==> !a.Park?
    ensures a.FindWaiter? ==> !Carrying(s.threads[a.t])
  {
  }

  lemma {:induction false} NothingWanted(s: State, ifIndex: u32)
    requires Indexed(s) && FirstWanted(Frames(s.queue, s.store), ifIndex, 0) == Option.None
    ensures !QueueHas(s, ifIndex)
  {
    hide Wanted, Frames;
    forall f | f in Frames(s.queue, s.store) ensures !Wanted(f, ifIndex) {
      var k :| 0 <= k < |Frames(s.queue, s.store)| && Frames(s.queue, s.store)[k] == f;
    }
  }

  lemma {:induction false} NotMatched(pending: seq<Waiter>, f: Frame, w: Waiter)
    requires FirstWaiter(pending, ByIfIndex(f.ifIndex), 0) == Option.None && w in pending
    requires w.ifIndex != IFINDEX_ANY
    ensures !Wanted(f, w.ifIndex)
  {
    var k :| 0 <= k < |pending| && pending[k] == w;
    assert !Matches(pending[k], ByIfIndex(f.ifIndex));
  }

  lemma {:induction false} WaitersStaySpecific(s: State, a: Action, w: Waiter)
    requires Enabled(s, a) && Indexed(s) && Apart(s) && w in Apply(s, a).pending
    ensures w.ifIndex != IFINDEX_ANY
  {
    hide Apply, Frames, Wanted;
    if a.Park? {
      ParkedWaiter(s, a.t, w);
      ApartMeans(s, a.t);
    } else {
      NoNewWaiter(s, a, w);
    }
  }

  lemma {:induction false} StepStaysApart(s: State, a: Action)
    requires Enabled(s, a) && Sound(s) && Indexed(s) && Apart(s) && !ReadsAny(a) && !Overlaps(s, a)
    ensures Sound(Apply(s, a)) && Indexed(Apply(s, a)) && Apart(Apply(s, a))
  {
    hide Apply, Sound, Enabled, ThreadApart, Overlaps;
    StepKeepsSound(s, a);
    SoundIsIndexed(Apply(s, a));
    StepFrame(s, a);
    MoverStaysApart(s, a);
    var e := Apply(s, a);
    forall w | w in e.pending ensures w.ifIndex != IFINDEX_ANY { WaitersStaySpecific(s, a, w); }
    forall u: nat | u < |e.threads| ensures ThreadApart(e, e.threads[u]) {
      if u != a.t {
        ApartMeans(s, u);
        OthersStayApart(s, a, u);
      }
    }
  }

  lemma {:induction false} OrderlyFrom(s: State, run: seq<Action>)
    requires Possible(s, run) && Orderly(s, run) && Sound(s) && Indexed(s) && Apart(s)
    ensures NoMiss(s, run)
    decreases |run|
  {
    hide Apply, Sound, Enabled, Misses, Apart, Overlaps;
    if run == [] {
    } else {
      OrderlyHits(s, run[0]);
      StepStaysApart(s, run[0]);
      OrderlyFrom(Apply(s, run[0]), run[1..]);
    }
  }

  lemma {:induction false} StartsSettled(threads: nat)
    ensures Indexed(Started(threads)) && Apart(Started(threads))
  {
    hide Upto;
  }

  /** If no READ is for any interface, and no frame is queued between the two sections of a READ that accepts it, and
      no READ starts to wait between the two sections of a frame that it accepts, then no READ ever waits beside a
      frame that it accepts. */
  lemma {:induction false} OrderlyNeverBeside(threads: nat, run: seq<Action>)
    requires Possible(Started(threads), run) && Orderly(Started(threads), run)
    ensures NeverBeside(Started(threads), run)
  {
    hide Possible, Orderly, Sound, Started, Apart, NoMiss, NeverBeside;
    StartedIsSound(threads);
    StartsSettled(threads);
    OrderlyFrom(Started(threads), run);
    NeverBesideExactly(threads, run);
  }

  // ---- who is handed a frame ----

  /** An arriving frame is handed over exactly when a READ waits for its very interface, or the frame itself is for
      any interface; it goes to the first such READ. A READ of any interface that accepts it does not count. */
  lemma {:induction false} HandedExactly(s: State, t: nat)
    requires Enabled(s, FindWaiter(t))
    ensures var f, e := s.threads[t].frame, Apply(s, FindWaiter(t));
            && t < |e.threads|
            && (e.threads[t].Handing? <==>
                  exists w :: w in s.pending && (w.ifIndex == f.ifIndex || f.ifIndex == IFINDEX_ANY))
            && (e.threads[t].Handing? ==>
                  exists k: nat :: k < |s.pending| && e.threads[t].victim == s.pending[k].irp
                    && e.pending == Without(s.pending, k)
                    && (s.pending[k].ifIndex == f.ifIndex || f.ifIndex == IFINDEX_ANY)
                    && forall j :: 0 <= j < k ==> s.pending[j].ifIndex != f.ifIndex && f.ifIndex != IFINDEX_ANY)
            && (!e.threads[t].Handing? ==> e.threads[t] == Storing(f, s.threads[t].caller) && e.pending == s.pending)
  {
    hide Without;
    var f := s.threads[t].frame;
    match FirstWaiter(s.pending, ByIfIndex(f.ifIndex), 0) {
      case Some(k) =>
        assert Matches(s.pending[k], ByIfIndex(f.ifIndex));
        assert s.pending[k] in s.pending;
      case None =>
        forall w | w in s.pending ensures w.ifIndex != f.ifIndex && f.ifIndex != IFINDEX_ANY {
          var k :| 0 <= k < |s.pending| && s.pending[k] == w;
          assert !Matches(s.pending[k], ByIfIndex(f.ifIndex));
        }
    }
  }

  /** A waiting READ that accepts an arriving frame is one that the frame looks for exactly when it waits for the
      frame's very interface or the frame is for any; then the frame is handed over, and otherwise the READ goes on
      waiting. */
  lemma {:induction false} MatchedExactly(s: State, t: nat, w: Waiter)
    requires Enabled(s, FindWaiter(t)) && w in s.pending && Wanted(s.threads[t].frame, w.ifIndex)
    ensures var f, e := s.threads[t].frame, Apply(s, FindWaiter(t));
            var matched := w.ifIndex == f.ifIndex || f.ifIndex == IFINDEX_ANY;
            && (matched <==> Matches(w, ByIfIndex(f.ifIndex)))
            && (matched ==> e.threads[t].Handing?)
            && (!matched ==> w in e.pending)
  {
    hide FirstWaiter, Without, Apply;
    HandedExactly(s, t);
    var f, e := s.threads[t].frame, Apply(s, FindWaiter(t));
    if e.threads[t].Handing? && w.ifIndex != f.ifIndex && f.ifIndex != IFINDEX_ANY {
      var k: nat :| k < |s.pending| && e.pending == Without(s.pending, k)
                    && (s.pending[k].ifIndex == f.ifIndex || f.ifIndex == IFINDEX_ANY);
      OthersWait(s.pending, k, w);
    }
  }

  lemma {:induction false} OthersWait(pending: seq<Waiter>, k: nat, w: Waiter)
    requires k < |pending| && w in pending && w != pending[k]
    ensures w in Without(pending, k)
  {
    var j :| 0 <= j < |pending| && pending[j] == w;
    assert Without(pending, k)[if j < k then j else j - 1] == w;
  }
}
