/** The driver's invariant, in every interleaving. */
module DriverSafety {
  import opened Bytes
  import opened Counting
  import opened Driver
  import opened DriverProofs
  import opened Wrappers

  // ---- frames of one interface ----

  function Of(frames: seq<Frame>, i: u32): seq<Frame> {
    if frames == [] then []
    else Of(frames[..|frames| - 1], i) + if frames[|frames| - 1].ifIndex == i then [frames[|frames| - 1]] else []
  }

  lemma {:induction false} OfMore(frames: seq<Frame>, f: Frame, i: u32)
    ensures Of(frames + [f], i) == Of(frames, i) + if f.ifIndex == i then [f] else []
  {
    assert (frames + [f])[..|frames|] == frames;
  }

  lemma {:induction false} OfPlus(a: seq<Frame>, b: seq<Frame>, i: u32)
    ensures Of(a + b, i) == Of(a, i) + Of(b, i)
  {
    if b == [] {
      assert a + b == a;
    } else {
      var m := |b| - 1;
      OfPlus(a, b[..m], i);
      assert (a + b)[..|a + b| - 1] == a + b[..m];
    }
  }

  lemma {:induction false} OfNone(frames: seq<Frame>, i: u32)
    requires forall m :: 0 <= m < |frames| ==> frames[m].ifIndex != i
    ensures Of(frames, i) == []
  {
    if frames == [] {
    } else {
      OfNone(frames[..|frames| - 1], i);
    }
  }

  /** Taking the first frame a READ accepts takes the oldest frame of its interface. */
  lemma {:induction false} TakesOldest(frames: seq<Frame>, wanted: u32, k: nat, i: u32)
    requires k < |frames| && Wanted(frames[k], wanted) && forall m :: 0 <= m < k ==> !Wanted(frames[m], wanted)
    ensures (if frames[k].ifIndex == i then [frames[k]] else []) + Of(Without(frames, k), i) == Of(frames, i)
  {
    hide Of, Wanted;
    OfWithout(frames, k, i);
    if frames[k].ifIndex == i { NoneEarlier(frames, wanted, k, i); }
  }

  lemma {:induction false} NoneEarlier(frames: seq<Frame>, wanted: u32, k: nat, i: u32)
    requires k < |frames| && Wanted(frames[k], wanted) && forall m :: 0 <= m < k ==> !Wanted(frames[m], wanted)
    requires frames[k].ifIndex == i
    ensures Of(frames[..k], i) == []
  {
    hide Of;
    OfNone(frames[..k], i);
  }

  lemma {:induction false} OfWithout(frames: seq<Frame>, k: nat, i: u32)
    requires k < |frames|
    ensures var one := if frames[k].ifIndex == i then [frames[k]] else [];
            Of(Without(frames, k), i) == Of(frames[..k], i) + Of(frames[k + 1..], i)
            && Of(frames, i) == Of(frames[..k], i) + one + Of(frames[k + 1..], i)
  {
    hide Of;
    OfPlus(frames[..k], frames[k + 1..], i);
    OfPlus(frames[..k] + [frames[k]], frames[k + 1..], i);
    OfMore(frames[..k], frames[k], i);
    assert frames[..k] + [frames[k]] + frames[k + 1..] == frames;
  }

  // ---- the invariant ----

  /** Every node and request is in exactly one place; a request is issued once. */
  ghost predicate Partitioned(s: State) {
    && (forall x: nat :: RxSum(s, x) == One(x < RX_NODES))
    && (forall x: nat :: TxSum(s, x) == One(x < TX_NODES))
    && (forall x: nat :: IrpSum(s, x) == Occ(s.issued, x) <= 1)
  }

  /** Every frame that arrived, or was taken off the queue, is accounted for. */
  ghost predicate Accounted(s: State) {
    && (forall f :: FramesIn(s, f) == Occ(s.arrived, f))
    && (forall f :: FramesOut(s, f) == Occ(s.dequeued, f))
  }

  /** A node that a thread is about to queue or to read out holds that thread's frame. */
  predicate Holding(th: Thread, store: seq<Frame>) {
    th.Queueing? || th.Copying? ==> th.node < |store| && store[th.node] == th.frame
  }

  ghost predicate NodesHold(s: State) {
    forall t :: 0 <= t < |s.threads| ==> Holding(s.threads[t], s.store)
  }

  /** Of each interface, what was queued is what has been taken off, then what is still there. */
  ghost predicate InOrder(s: State)
    requires Indexed(s)
  {
    forall i: u32 :: Of(s.inserted, i) == Of(s.dequeued, i) + Of(Frames(s.queue, s.store), i)
  }

  ghost predicate Sound(s: State) {
    Indexed(s) && Partitioned(s) && Accounted(s) && NodesHold(s) && InOrder(s)
  }

  // ---- it holds at the start ----

  lemma {:induction false} IdleHold(n: nat, kind: Kind, p: Passage, x: nat, f: Frame)
    ensures Held(kind, seq(n, _ => Idle), x) == 0 && Carried(p, seq(n, _ => Idle), f) == 0
  {
    if n == 0 {
    } else {
      IdleHold(n - 1, kind, p, x, f);
      var threads := seq(n, _ => Idle);
      assert threads[..n - 1] == seq(n - 1, _ => Idle);
      assert threads[n - 1] == Idle;
    }
  }

  lemma {:induction false} StartedIsSound(n: nat)
    ensures Sound(Started(n))
  {
    var s := Started(n);
    var noone := Frame(0, []);
    forall x: nat ensures RxSum(s, x) == One(x < RX_NODES) && TxSum(s, x) == One(x < TX_NODES)
                       && IrpSum(s, x) == Occ(s.issued, x) {
      OccUpto(RX_NODES, x);
      OccUpto(TX_NODES, x);
      IdleHold(n, RxNode, Inward, x, noone);
      IdleHold(n, TxNode, Inward, x, noone);
      IdleHold(n, Request, Inward, x, noone);
    }
    forall f ensures FramesIn(s, f) == Occ(s.arrived, f) && FramesOut(s, f) == Occ(s.dequeued, f) {
      IdleHold(n, RxNode, Inward, 0, f);
      IdleHold(n, RxNode, Outward, 0, f);
    }
  }

  // ---- and every step keeps it ----

  lemma {:induction false} StepIssues(s: State, a: Action, x: nat)
    requires Enabled(s, a)
    ensures Occ(Apply(s, a).issued, x) == Occ(s.issued, x) + One(a.Dispatch? && a.irp == x)
  {
    hide Occ, Frames, FirstWaiter, FirstWanted, Without, Began, Done;
    if a.Dispatch? { OccMore(s.issued, a.irp, x); }
  }

  lemma {:induction false} PartitionKept(s: State, a: Action)
    requires Enabled(s, a) && Partitioned(s) && NodesHold(s)
    ensures Partitioned(Apply(s, a))
  {
    var e := Apply(s, a);
    CopiesOwn(s, a);
    hide Apply, RxSum, TxSum, IrpSum, FramesIn, FramesOut, Occ, Enabled, NodesHold;
    forall x: nat ensures RxSum(e, x) == One(x < RX_NODES) && TxSum(e, x) == One(x < TX_NODES)
                       && IrpSum(e, x) == Occ(e.issued, x) <= 1 {
      StepBalances(s, a, x, Frame(0, []));
      StepIssues(s, a, x);
      if a.Dispatch? && a.irp == x { Absent(s.issued, x); }
    }
  }

  lemma {:induction false} CopiesOwn(s: State, a: Action)
    requires Enabled(s, a) && NodesHold(s)
    ensures a.Copy? ==> s.store[s.threads[a.t].node] == s.threads[a.t].frame
  {
  }

  lemma {:induction false} AccountsKept(s: State, a: Action)
    requires Enabled(s, a) && Accounted(s) && NodesHold(s)
    ensures Accounted(Apply(s, a))
  {
    hide Apply, Enabled, NodesHold, FramesIn, FramesOut, Occ;
    var e := Apply(s, a);
    forall f ensures FramesIn(e, f) == Occ(e.arrived, f) && FramesOut(e, f) == Occ(e.dequeued, f) {
      AccountKept(s, a, f);
    }
  }

  lemma {:induction false} AccountKept(s: State, a: Action, f: Frame)
    requires Enabled(s, a) && NodesHold(s)
    requires FramesIn(s, f) == Occ(s.arrived, f) && FramesOut(s, f) == Occ(s.dequeued, f)
    ensures FramesIn(Apply(s, a), f) == Occ(Apply(s, a).arrived, f)
    ensures FramesOut(Apply(s, a), f) == Occ(Apply(s, a).dequeued, f)
  {
    hide Apply, Enabled, NodesHold, RxSum, TxSum, IrpSum, FramesIn, FramesOut, Occ;
    CopiesOwn(s, a);
    StepBalances(s, a, 0, f);
  }

  /** A queued node is a node, and no thread holds it. */
  lemma {:induction false} QueuedIsFree(s: State, n: nat)
    requires Partitioned(s) && n in s.queue
    ensures n < RX_NODES
    ensures forall t: nat :: t < |s.threads| ==> Held1(RxNode, s.threads[t], n) == 0
  {
    hide Occ, TxSum, IrpSum, Held1, Held;
    Present(s.queue, n);
    assert RxSum(s, n) == One(n < RX_NODES);
    forall t: nat | t < |s.threads| ensures Held1(RxNode, s.threads[t], n) == 0 {
      HeldMember(RxNode, s.threads, t, n);
    }
  }

  /** Two threads never hold the same node. */
  lemma {:induction false} HeldOnce(s: State, t: nat, u: nat, n: nat)
    requires Partitioned(s) && t < |s.threads| && u < |s.threads| && t != u && Held1(RxNode, s.threads[t], n) > 0
    ensures Held1(RxNode, s.threads[u], n) == 0
  {
    hide Occ, TxSum, IrpSum, Held1;
    assert RxSum(s, n) == One(n < RX_NODES);
    HeldTwo(RxNode, s.threads, t, u, n);
  }

  lemma {:induction false} IndexedKept(s: State, a: Action)
    requires Enabled(s, a) && Partitioned(Apply(s, a))
    ensures Indexed(Apply(s, a))
  {
    var e := Apply(s, a);
    assert |e.store| == RX_NODES by {
      hide Frames, FirstWaiter, FirstWanted, Without, Began, Done, Partitioned;
    }
    hide Apply, Partitioned;
    forall i | 0 <= i < |e.queue| ensures e.queue[i] < RX_NODES { QueuedIsFree(e, e.queue[i]); }
  }

  // The steps in three classes, so that each proof looks at one.

  predicate Receives(a: Action) {
    a.Indicate? || a.FindWaiter? || a.HandOver? || a.TakeRx? || a.Fill? || a.Enqueue? || a.GiveBack?
  }

  predicate Reads(a: Action) {
    a.Dispatch? || a.CheckQueue? || a.Copy? || a.ReturnRx? || a.Park? || a.Finish?
  }

  /** What one step may do to the threads and the nodes. */
  ghost predicate Framed(s: State, a: Action, e: State) {
    && |e.threads| == |s.threads| && (forall u :: 0 <= u < |s.threads| && u != a.t ==> e.threads[u] == s.threads[u])
    && (!a.Fill? ==> e.store == s.store)
    && (!a.Enqueue? && !a.CheckQueue? ==>
          e.queue == s.queue && e.inserted == s.inserted && e.dequeued == s.dequeued)
  }

  lemma {:induction false} StepFrame(s: State, a: Action)
    requires Enabled(s, a)
    ensures Framed(s, a, Apply(s, a))
  {
    hide Apply, Enabled, Framed;
    if Receives(a) {
      ReceiveFrame(s, a);
    } else if Reads(a) {
      ReadFrame(s, a);
    } else {
      OtherFrame(s, a);
    }
  }

  lemma {:induction false} ReceiveFrame(s: State, a: Action)
    requires Enabled(s, a) && Receives(a)
    ensures Framed(s, a, Apply(s, a))
  {
    hide Frames, FirstWaiter, FirstWanted, Without, Began, Done, Indexed;
  }

  lemma {:induction false} ReadFrame(s: State, a: Action)
    requires Enabled(s, a) && Reads(a)
    ensures Framed(s, a, Apply(s, a))
  {
    hide Frames, FirstWaiter, FirstWanted, Without, Began, Done, Indexed;
  }

  lemma {:induction false} OtherFrame(s: State, a: Action)
    requires Enabled(s, a) && !Receives(a) && !Reads(a)
    ensures Framed(s, a, Apply(s, a))
  {
    hide Frames, FirstWaiter, FirstWanted, Without, Began, Done, Indexed;
  }

  lemma {:induction false} FillWrites(s: State, t: nat, ok: bool)
    requires Enabled(s, Fill(t, ok))
    ensures var e := Apply(s, Fill(t, ok));
            && e.queue == s.queue && |e.store| == |s.store|
            && forall n :: 0 <= n < |s.store| && n != s.threads[t].node ==> e.store[n] == s.store[n]
  {
    hide Frames, FirstWaiter, FirstWanted, Without, Began, Done;
  }

  /** The thread that steps holds what it should. */
  lemma {:induction false} MoverHolds(s: State, a: Action)
    requires Enabled(s, a)
    ensures Holding(Apply(s, a).threads[a.t], Apply(s, a).store)
  {
    hide Frames, FirstWaiter, Without;
    if a.Fill? {
    } else if a.CheckQueue? {
    } else {
      MoverHasNothing(s, a);
    }
  }

  lemma {:induction false} MoverHasNothing(s: State, a: Action)
    requires Enabled(s, a) && !a.Fill? && !a.CheckQueue?
    ensures !Apply(s, a).threads[a.t].Queueing? && !Apply(s, a).threads[a.t].Copying?
  {
    hide Apply, Enabled;
    if Receives(a) {
      ReceiverHasNothing(s, a);
    } else if Reads(a) {
      ReaderHasNothing(s, a);
    } else {
      OtherHasNothing(s, a);
    }
  }

  lemma {:induction false} ReceiverHasNothing(s: State, a: Action)
    requires Enabled(s, a) && Receives(a) && !a.Fill?
    ensures !Apply(s, a).threads[a.t].Queueing? && !Apply(s, a).threads[a.t].Copying?
  {
    hide Frames, FirstWaiter, FirstWanted, Without, Indexed;
  }

  lemma {:induction false} ReaderHasNothing(s: State, a: Action)
    requires Enabled(s, a) && Reads(a) && !a.CheckQueue?
    ensures !Apply(s, a).threads[a.t].Queueing? && !Apply(s, a).threads[a.t].Copying?
  {
    hide Frames, FirstWaiter, FirstWanted, Without, Indexed;
  }

  lemma {:induction false} OtherHasNothing(s: State, a: Action)
    requires Enabled(s, a) && !Receives(a) && !Reads(a)
    ensures !Apply(s, a).threads[a.t].Queueing? && !Apply(s, a).threads[a.t].Copying?
  {
    hide Frames, FirstWaiter, FirstWanted, Without, Indexed;
  }

  lemma {:induction false} HeldKept(s: State, a: Action)
    requires Enabled(s, a) && Partitioned(s) && NodesHold(s)
    ensures NodesHold(Apply(s, a))
  {
    var e := Apply(s, a);
    StepFrame(s, a);
    if a.Fill? { FillWrites(s, a.t, a.ok); }
    MoverHolds(s, a);
    hide Apply, Partitioned;
    forall u: nat | u < |e.threads| ensures Holding(e.threads[u], e.store) {
      if u != a.t {
        assert Holding(s.threads[u], s.store);
        if a.Fill? && (e.threads[u].Queueing? || e.threads[u].Copying?) {
          OtherNode(s, a.t, u);
        }
      }
    }
  }

  lemma {:induction false} OtherNode(s: State, t: nat, u: nat)
    requires Partitioned(s) && t < |s.threads| && u < |s.threads| && t != u && s.threads[t].Filling?
    requires s.threads[u].Queueing? || s.threads[u].Copying?
    ensures s.threads[u].node != s.threads[t].node
  {
    hide Partitioned;
    HeldOnce(s, t, u, s.threads[t].node);
  }

  lemma {:induction false} OrderKept(s: State, a: Action)
    requires Enabled(s, a) && Partitioned(s) && NodesHold(s) && InOrder(s) && Indexed(Apply(s, a))
    ensures InOrder(Apply(s, a))
  {
    var e := Apply(s, a);
    if a.Fill? { FillWrites(s, a.t, a.ok); }
    StepFrame(s, a);
    if a.Fill? {
      FillUnseen(s, a.t, e.store);
    } else if a.Enqueue? {
      EnqueueOrder(s, a.t);
    } else if a.CheckQueue? {
      DequeueOrder(s, a.t);
    }
    hide Apply, Of, Frames, Partitioned, NodesHold;
  }

  /** Filling a node changes no queued frame. */
  lemma {:induction false} FillUnseen(s: State, t: nat, store: seq<Frame>)
    requires Indexed(s) && Partitioned(s) && t < |s.threads| && s.threads[t].Filling? && |store| == |s.store|
    requires forall n :: 0 <= n < |store| && n != s.threads[t].node ==> store[n] == s.store[n]
    ensures Frames(s.queue, store) == Frames(s.queue, s.store)
  {
    hide Partitioned;
    forall i | 0 <= i < |s.queue| ensures store[s.queue[i]] == s.store[s.queue[i]] {
      QueuedIsFree(s, s.queue[i]);
      assert Held1(RxNode, s.threads[t], s.queue[i]) == 0;
    }
  }

  lemma {:induction false} EnqueueOrder(s: State, t: nat)
    requires Indexed(s) && t < |s.threads| && s.threads[t].Queueing? && Holding(s.threads[t], s.store) && InOrder(s)
    requires Indexed(DoEnqueue(s, t))
    ensures InOrder(DoEnqueue(s, t))
  {
    hide Of, Frames;
    var e, th, frames := DoEnqueue(s, t), s.threads[t], Frames(s.queue, s.store);
    assert Frames(e.queue, e.store) == frames + [th.frame];
    forall i: u32 ensures Of(e.inserted, i) == Of(e.dequeued, i) + Of(Frames(e.queue, e.store), i) {
      OfMore(s.inserted, th.frame, i);
      OfMore(frames, th.frame, i);
    }
  }

  lemma {:induction false} DequeueOrder(s: State, t: nat)
    requires Indexed(s) && t < |s.threads| && s.threads[t].Checking? && InOrder(s)
    requires Indexed(DoCheckQueue(s, t))
    ensures InOrder(DoCheckQueue(s, t))
  {
    var frames, wanted := Frames(s.queue, s.store), s.threads[t].ifIndex;
    var e := DoCheckQueue(s, t);
    match FirstWanted(frames, wanted, 0) {
      case None =>
      case Some(k) =>
        assert Frames(e.queue, e.store) == Without(frames, k);
        hide Frames, Without;
        forall i: u32 ensures Of(e.inserted, i) == Of(e.dequeued, i) + Of(Frames(e.queue, e.store), i) {
          OfMore(s.dequeued, frames[k], i);
          TakesOldest(frames, wanted, k, i);
          hide Of;
          Regroup(Of(s.dequeued, i), if frames[k].ifIndex == i then [frames[k]] else [], Of(Without(frames, k), i));
        }
    }
  }

  lemma {:induction false} Regroup(a: seq<Frame>, b: seq<Frame>, c: seq<Frame>)
    ensures a + (b + c) == a + b + c
  {
  }

  lemma {:induction false} StepKeepsSound(s: State, a: Action)
    requires Enabled(s, a) && Sound(s)
    ensures Sound(Apply(s, a))
  {
    hide Partitioned, Accounted, NodesHold, InOrder, Apply, Indexed;
    PartitionKept(s, a);
    AccountsKept(s, a);
    HeldKept(s, a);
    IndexedKept(s, a);
    OrderKept(s, a);
  }

  /** Whatever the threads do and however they interleave. */
  lemma {:induction false} EveryRunIsSound(s: State, run: seq<Action>, e: State)
    requires Sound(s) && Runs(s, run, e)
    ensures Sound(e)
    decreases |run|
  {
    hide Sound, Apply, Enabled;
    if run == [] {
    } else {
      StepKeepsSound(s, run[0]);
      EveryRunIsSound(Apply(s, run[0]), run[1..], e);
    }
  }

  // ---- what that means ----

  ghost predicate Reachable(s: State) {
    exists threads: nat, run :: Runs(Started(threads), run, s)
  }

  lemma {:induction false} ReachableIsSound(s: State)
    requires Reachable(s)
    ensures Sound(s)
  {
    hide Sound, Started, Runs;
    var threads: nat, run :| Runs(Started(threads), run, s);
    StartedIsSound(threads);
    EveryRunIsSound(Started(threads), run, s);
  }

  /** No request is completed twice, and a completed request is nowhere else. */
  lemma {:induction false} CompletedOnce(s: State, i: nat, j: nat)
    requires Reachable(s) && i < |s.completed|
    ensures j < |s.completed| && i != j ==> s.completed[j].irp != s.completed[i].irp
    ensures s.completed[i].irp in s.issued
    ensures forall w :: w in s.pending ==> w.irp != s.completed[i].irp
    ensures forall w :: w in s.inflight ==> w.irp != s.completed[i].irp
    ensures forall t :: 0 <= t < |s.threads| ==> Held1(Request, s.threads[t], s.completed[i].irp) == 0
  {
    hide Reachable, Accounted, NodesHold, InOrder, RxSum, TxSum, Occ, Held1, Indexed;
    ReachableIsSound(s);
    var irps, x := CompletedIrps(s.completed), s.completed[i].irp;
    assert irps[i] == x;
    OccMember(irps, i);
    assert IrpSum(s, x) == Occ(s.issued, x) <= 1;
    if x !in s.issued { Absent(s.issued, x); }
    if j < |irps| && i < j { OnceMeansDistinct(irps, i, j); }
    if j < i { assert irps[j] == s.completed[j].irp; if irps[j] == x { OnceMeansDistinct(irps, j, i); } }
    forall w | w in s.pending ensures w.irp != x {
      var k :| 0 <= k < |s.pending| && s.pending[k] == w;
      assert WaitingIrps(s.pending)[k] == w.irp;
      OccMember(WaitingIrps(s.pending), k);
    }
    forall w | w in s.inflight ensures w.irp != x {
      var k :| 0 <= k < |s.inflight| && s.inflight[k] == w;
      assert SentIrps(s.inflight)[k] == w.irp;
      OccMember(SentIrps(s.inflight), k);
    }
    forall t: nat | t < |s.threads| ensures Held1(Request, s.threads[t], x) == 0 {
      HeldMember(Request, s.threads, t, x);
    }
  }

  lemma {:induction false} OccOf(frames: seq<Frame>, f: Frame)
    ensures Occ(Of(frames, f.ifIndex), f) == Occ(frames, f)
  {
    if frames == [] {
    } else {
      var n := |frames| - 1;
      OccOf(frames[..n], f);
      var early := Of(frames[..n], f.ifIndex);
      if frames[n].ifIndex == f.ifIndex {
        OccMore(early, frames[n], f);
      } else {
        assert Of(frames, f.ifIndex) == early;
      }
    }
  }

  lemma {:induction false} QueuedOrTaken(s: State, f: Frame)
    requires Indexed(s) && InOrder(s)
    ensures Occ(s.inserted, f) == Occ(s.dequeued, f) + Occ(Frames(s.queue, s.store), f)
  {
    hide Of, Occ, Frames;
    var i, frames := f.ifIndex, Frames(s.queue, s.store);
    OccOf(s.inserted, f);
    OccOf(s.dequeued, f);
    OccOf(frames, f);
    OccPlus(Of(s.dequeued, i), Of(frames, i), f);
  }

  /** A READ never returns a frame that did not arrive, nor one frame twice. */
  lemma {:induction false} ReadsAreGenuine(s: State, f: Frame)
    requires Reachable(s)
    ensures Occ(s.delivered, f) <= Occ(s.inserted, f)
    ensures Occ(s.handed, f) + Occ(s.delivered, f) <= Occ(s.arrived, f)
  {
    hide Reachable, Partitioned, NodesHold, InOrder, Occ, Carried, Frames;
    ReachableIsSound(s);
    QueuedOrTaken(s, f);
    assert FramesIn(s, f) == Occ(s.arrived, f) && FramesOut(s, f) == Occ(s.dequeued, f);
  }

  /** With every thread idle, each frame that arrived was handed to a waiting READ, dropped, read from the queue,
      or is still queued; and each receive node is either free or queued. */
  lemma {:induction false} NothingIsLost(s: State, f: Frame, n: nat)
    requires Reachable(s) && forall t :: 0 <= t < |s.threads| ==> s.threads[t] == Idle
    ensures Indexed(s)
    ensures Occ(s.arrived, f)
         == Occ(s.handed, f) + Occ(s.dropped, f) + Occ(s.delivered, f) + Occ(Frames(s.queue, s.store), f)
    ensures Occ(s.freeRx, n) + Occ(s.queue, n) == One(n < RX_NODES)
    ensures Occ(s.freeTx, n) + Occ(SentNodes(s.inflight), n) == One(n < TX_NODES)
    ensures Occ(WaitingIrps(s.pending), n) + Occ(SentIrps(s.inflight), n) + Occ(CompletedIrps(s.completed), n)
         == Occ(s.issued, n)
  {
    hide Reachable, NodesHold, InOrder, Occ, Frames, Held, Carried, SentNodes, SentIrps, WaitingIrps, CompletedIrps;
    ReachableIsSound(s);
    QueuedOrTaken(s, f);
    IdleHold(|s.threads|, RxNode, Inward, n, f);
    IdleHold(|s.threads|, TxNode, Outward, n, f);
    IdleHold(|s.threads|, Request, Inward, n, f);
    assert s.threads == seq(|s.threads|, _ => Idle);
    assert FramesIn(s, f) == Occ(s.arrived, f) && FramesOut(s, f) == Occ(s.dequeued, f);
    assert RxSum(s, n) == One(n < RX_NODES) && TxSum(s, n) == One(n < TX_NODES) && IrpSum(s, n) == Occ(s.issued, n);
  }

  // ---- what is not promised ----

  /** Eight steps of two threads: a READ finds the queue empty, a frame is queued because no READ waits yet, and
      the READ then starts to wait. */
  function MissedFrame(i: u32): seq<Action> {
    [Dispatch(0, 1, Recv(i, 0)), CheckQueue(0), Indicate(1, Frame(i, [])), FindWaiter(1), TakeRx(1), Fill(1, true),
     Enqueue(1), Park(0)]
  }

  /** The state after the first `k` of them. */
  function Scene(i: u32, k: nat): State {
    var f := Frame(i, []);
    var reader := if k == 0 || k == 8 then Idle else if k == 1 then Checking(1, i, 0) else Parking(1, i, 0);
    var writer :=
      if k == 3 then Indicating(f, Option.None) else if k == 4 then Storing(f, Option.None)
      else if k == 5 then Filling(0, f, Option.None) else if k == 6 then Queueing(0, f, Option.None) else Idle;
    var free, store := Upto(RX_NODES), seq(RX_NODES, _ => Frame(0, []));
    State([reader, writer], if k < 5 then free else free[1..], if k < 7 then [] else [0], Upto(TX_NODES),
          if k < 6 then store else store[0 := f], if k < 8 then [] else [Waiter(1, i, 0)], [],
          if k == 0 then [] else [1], [], if k < 3 then [] else [f], [], [], if k < 7 then [] else [f], [], [])
  }

  lemma {:induction false} SceneRead(i: u32, k: nat)
    requires k < 2 || k == 7
    ensures Enabled(Scene(i, k), MissedFrame(i)[k]) && Apply(Scene(i, k), MissedFrame(i)[k]) == Scene(i, k + 1)
  {
    hide Upto;
  }

  lemma {:induction false} SceneFrame(i: u32, k: nat)
    requires 2 <= k < 5
    ensures Enabled(Scene(i, k), MissedFrame(i)[k]) && Apply(Scene(i, k), MissedFrame(i)[k]) == Scene(i, k + 1)
  {
    hide Upto;
  }

  lemma {:induction false} SceneFill(i: u32)
    ensures Enabled(Scene(i, 5), MissedFrame(i)[5]) && Apply(Scene(i, 5), MissedFrame(i)[5]) == Scene(i, 6)
  {
    hide Upto;
  }

  lemma {:induction false} SceneQueue(i: u32)
    ensures Enabled(Scene(i, 6), MissedFrame(i)[6]) && Apply(Scene(i, 6), MissedFrame(i)[6]) == Scene(i, 7)
  {
    hide Upto;
  }

  lemma {:induction false} ScenesRun(i: u32, k: nat)
    requires k <= 8
    ensures Runs(Scene(i, k), MissedFrame(i)[k..], Scene(i, 8))
    decreases 8 - k
  {
    hide Apply, Enabled, Scene;
    if k < 8 {
      if k < 2 || k == 7 {
        SceneRead(i, k);
      } else if k < 5 {
        SceneFrame(i, k);
      } else if k == 5 {
        SceneFill(i);
      } else {
        SceneQueue(i);
      }
      ScenesRun(i, k + 1);
      assert MissedFrame(i)[k..][1..] == MissedFrame(i)[k + 1..];
    }
  }

  /** So a READ can wait while a frame it would accept is queued: looking and waiting are separate sections. */
  lemma {:induction false} WaitsBesideFrame(i: u32) returns (e: State)
    ensures Runs(Started(2), MissedFrame(i), e)
    ensures e.threads == [Idle, Idle] && e.pending == [Waiter(1, i, 0)] && Indexed(e)
    ensures Frames(e.queue, e.store) == [Frame(i, [])]
  {
    hide Runs, Scene, Started, Indexed, Frames, MissedFrame;
    e := Scene(i, 8);
    LastScene(i);
    FirstScene(i);
    ScenesRun(i, 0);
    assert MissedFrame(i)[0..] == MissedFrame(i);
  }

  lemma {:induction false} FirstScene(i: u32)
    ensures Started(2) == Scene(i, 0)
  {
    hide Upto;
    assert seq(2, _ => Idle) == [Idle, Idle];
  }

  lemma {:induction false} LastScene(i: u32)
    ensures var e := Scene(i, 8);
            && e.threads == [Idle, Idle] && e.pending == [Waiter(1, i, 0)] && Indexed(e)
            && Frames(e.queue, e.store) == [Frame(i, [])]
  {
    hide Upto;
  }
}
