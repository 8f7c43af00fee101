/** What every interleaving of the driver's steps keeps. */
module DriverProofs {
  import opened Bytes
  import opened Counting
  import opened Driver
  import opened Wrappers

  // ---- lists ----

  lemma {:induction false} OccUpto(n: nat, x: nat)
    ensures Occ(Upto(n), x) == One(x < n)
  {
    if n == 0 {
    } else {
      OccUpto(n - 1, x);
      assert Upto(n)[..n - 1] == Upto(n - 1);
    }
  }

  // ---- what threads hold ----

  datatype Kind = RxNode | TxNode | Request

  /** How often the thread holds `x`. */
  function Held1(kind: Kind, th: Thread, x: nat): nat {
    match kind
    case RxNode =>
      One((th.Filling? || th.Queueing? || th.Unfilling? || th.Copying? || th.Returning?) && th.node == x)
    case TxNode => One((th.Loading? || th.Unloading? || th.SendDone?) && th.node == x)
    case Request =>
      One((th.Handing? || th.CleaningVictim? || th.DrainingVictim? || th.Cancelling?) && th.victim == x)
      + One((th.Indicating? || th.Handing? || th.Storing? || th.Filling? || th.Queueing? || th.Unfilling?)
            && th.caller == Some(x))
      + One((th.Checking? || th.Copying? || th.Returning? || th.Parking? || th.Acquiring? || th.Loading?
             || th.Unloading? || th.SendDone? || th.Cleaning? || th.CleaningVictim? || th.Finishing?) && th.irp == x)
  }

  function Held(kind: Kind, threads: seq<Thread>, x: nat): nat {
    if threads == [] then 0
    else Held(kind, threads[..|threads| - 1], x) + Held1(kind, threads[|threads| - 1], x)
  }

  /** Frames on their way to the queue, or from it to a reader. */
  datatype Passage = Inward | Outward

  function Carried1(p: Passage, th: Thread, f: Frame): nat {
    match p
    case Inward =>
      One((th.Indicating? || th.Handing? || th.Storing? || th.Filling? || th.Queueing?) && th.frame == f)
    case Outward =>
      One((th.Copying? || th.Returning?) && th.frame == f) + One(th.Finishing? && th.answer.frame == Some(f))
  }

  function Carried(p: Passage, threads: seq<Thread>, f: Frame): nat {
    if threads == [] then 0
    else Carried(p, threads[..|threads| - 1], f) + Carried1(p, threads[|threads| - 1], f)
  }

  lemma {:induction false} HeldUpdate(kind: Kind, threads: seq<Thread>, t: nat, th: Thread, x: nat)
    requires t < |threads|
    ensures Held(kind, threads[t := th], x) + Held1(kind, threads[t], x) == Held(kind, threads, x) + Held1(kind, th, x)
  {
    hide Held1;
    var n := |threads| - 1;
    if t < n {
      HeldUpdate(kind, threads[..n], t, th, x);
      assert threads[t := th][..n] == threads[..n][t := th];
    } else {
      assert threads[t := th][..n] == threads[..n];
    }
  }

  lemma {:induction false} CarriedUpdate(p: Passage, threads: seq<Thread>, t: nat, th: Thread, f: Frame)
    requires t < |threads|
    ensures Carried(p, threads[t := th], f) + Carried1(p, threads[t], f)
         == Carried(p, threads, f) + Carried1(p, th, f)
  {
    hide Carried1;
    var n := |threads| - 1;
    if t < n {
      CarriedUpdate(p, threads[..n], t, th, f);
      assert threads[t := th][..n] == threads[..n][t := th];
    } else {
      assert threads[t := th][..n] == threads[..n];
    }
  }

  lemma {:induction false} HeldMember(kind: Kind, threads: seq<Thread>, t: nat, x: nat)
    requires t < |threads|
    ensures Held1(kind, threads[t], x) <= Held(kind, threads, x)
  {
    hide Held1;
    var n := |threads| - 1;
    if t < n { HeldMember(kind, threads[..n], t, x); }
  }

  lemma {:induction false} HeldTwo(kind: Kind, threads: seq<Thread>, t: nat, u: nat, x: nat)
    requires t < |threads| && u < |threads| && t != u
    ensures Held1(kind, threads[t], x) + Held1(kind, threads[u], x) <= Held(kind, threads, x)
  {
    hide Held1;
    var n := |threads| - 1;
    if t == n { HeldMember(kind, threads[..n], u, x); }
    else if u == n { HeldMember(kind, threads[..n], t, x); }
    else { HeldTwo(kind, threads[..n], t, u, x); }
  }

  // ---- projections of the lists of requests ----

  function SentNodes(inflight: seq<Sent>): (r: seq<nat>)
    ensures |r| == |inflight|
  {
    seq(|inflight|, i requires 0 <= i < |inflight| => inflight[i].node)
  }

  function SentIrps(inflight: seq<Sent>): (r: seq<nat>)
    ensures |r| == |inflight|
  {
    seq(|inflight|, i requires 0 <= i < |inflight| => inflight[i].irp)
  }

  function WaitingIrps(pending: seq<Waiter>): (r: seq<nat>)
    ensures |r| == |pending|
  {
    seq(|pending|, i requires 0 <= i < |pending| => pending[i].irp)
  }

  function CompletedIrps(completed: seq<Completion>): (r: seq<nat>)
    ensures |r| == |completed|
  {
    seq(|completed|, i requires 0 <= i < |completed| => completed[i].irp)
  }

  lemma {:induction false} SentWithout(inflight: seq<Sent>, k: nat, x: nat)
    requires k < |inflight|
    ensures Occ(SentNodes(Without(inflight, k)), x) + One(inflight[k].node == x) == Occ(SentNodes(inflight), x)
    ensures Occ(SentIrps(Without(inflight, k)), x) + One(inflight[k].irp == x) == Occ(SentIrps(inflight), x)
  {
    OccWithout(SentNodes(inflight), k, x);
    OccWithout(SentIrps(inflight), k, x);
    assert SentNodes(Without(inflight, k)) == Without(SentNodes(inflight), k);
    assert SentIrps(Without(inflight, k)) == Without(SentIrps(inflight), k);
  }

  lemma {:induction false} SentMore(inflight: seq<Sent>, y: Sent, x: nat)
    ensures Occ(SentNodes(inflight + [y]), x) == Occ(SentNodes(inflight), x) + One(y.node == x)
    ensures Occ(SentIrps(inflight + [y]), x) == Occ(SentIrps(inflight), x) + One(y.irp == x)
  {
    OccMore(SentNodes(inflight), y.node, x);
    OccMore(SentIrps(inflight), y.irp, x);
    assert SentNodes(inflight + [y]) == SentNodes(inflight) + [y.node];
    assert SentIrps(inflight + [y]) == SentIrps(inflight) + [y.irp];
  }

  lemma {:induction false} WaitingWithout(pending: seq<Waiter>, k: nat, x: nat)
    requires k < |pending|
    ensures Occ(WaitingIrps(Without(pending, k)), x) + One(pending[k].irp == x) == Occ(WaitingIrps(pending), x)
  {
    OccWithout(WaitingIrps(pending), k, x);
    assert WaitingIrps(Without(pending, k)) == Without(WaitingIrps(pending), k);
  }

  lemma {:induction false} WaitingMore(pending: seq<Waiter>, y: Waiter, x: nat)
    ensures Occ(WaitingIrps(pending + [y]), x) == Occ(WaitingIrps(pending), x) + One(y.irp == x)
  {
    OccMore(WaitingIrps(pending), y.irp, x);
    assert WaitingIrps(pending + [y]) == WaitingIrps(pending) + [y.irp];
  }

  lemma {:induction false} CompletedMore(completed: seq<Completion>, y: Completion, x: nat)
    ensures Occ(CompletedIrps(completed + [y]), x) == Occ(CompletedIrps(completed), x) + One(y.irp == x)
  {
    OccMore(CompletedIrps(completed), y.irp, x);
    assert CompletedIrps(completed + [y]) == CompletedIrps(completed) + [y.irp];
  }

  // ---- the sums that no step changes ----

  function RxSum(s: State, x: nat): nat {
    Occ(s.freeRx, x) + Occ(s.queue, x) + Held(RxNode, s.threads, x)
  }

  function TxSum(s: State, x: nat): nat {
    Occ(s.freeTx, x) + Occ(SentNodes(s.inflight), x) + Held(TxNode, s.threads, x)
  }

  /** Where a request can be, besides never issued. */
  function IrpSum(s: State, x: nat): nat {
    Occ(WaitingIrps(s.pending), x) + Occ(SentIrps(s.inflight), x) + Held(Request, s.threads, x)
    + Occ(CompletedIrps(s.completed), x)
  }

  function FramesIn(s: State, f: Frame): nat {
    Occ(s.handed, f) + Occ(s.dropped, f) + Occ(s.inserted, f) + Carried(Inward, s.threads, f)
  }

  function FramesOut(s: State, f: Frame): nat {
    Occ(s.delivered, f) + Carried(Outward, s.threads, f)
  }

  // ---- one step ----

  /** The sums are as they were, counting what was issued, arrived and taken off the queue. */
  ghost predicate Balanced(s: State, e: State, x: nat, f: Frame) {
    && RxSum(e, x) == RxSum(s, x) && TxSum(e, x) == TxSum(s, x)
    && IrpSum(e, x) + Occ(s.issued, x) == IrpSum(s, x) + Occ(e.issued, x)
    && FramesIn(e, f) + Occ(s.arrived, f) == FramesIn(s, f) + Occ(e.arrived, f)
    && FramesOut(e, f) + Occ(s.dequeued, f) == FramesOut(s, f) + Occ(e.dequeued, f)
  }

  function RxLists(s: State, th: Thread, x: nat): nat { Occ(s.freeRx, x) + Occ(s.queue, x) + Held1(RxNode, th, x) }

  function TxLists(s: State, th: Thread, x: nat): nat {
    Occ(s.freeTx, x) + Occ(SentNodes(s.inflight), x) + Held1(TxNode, th, x)
  }

  function IrpLists(s: State, th: Thread, x: nat): nat {
    Occ(WaitingIrps(s.pending), x) + Occ(SentIrps(s.inflight), x) + Held1(Request, th, x)
    + Occ(CompletedIrps(s.completed), x)
  }

  function InLists(s: State, th: Thread, f: Frame): nat {
    Occ(s.handed, f) + Occ(s.dropped, f) + Occ(s.inserted, f) + Carried1(Inward, th, f)
  }

  function OutLists(s: State, th: Thread, f: Frame): nat {
    Occ(s.delivered, f) + Carried1(Outward, th, f)
  }

  /** Thread `t` moves to `th`, and what the lists lose it gains. */
  ghost predicate Moves(s: State, e: State, t: nat, th: Thread, x: nat, f: Frame) {
    && t < |s.threads| && e.threads == s.threads[t := th]
    && RxLists(e, th, x) == RxLists(s, s.threads[t], x)
    && TxLists(e, th, x) == TxLists(s, s.threads[t], x)
    && IrpLists(e, th, x) + Occ(s.issued, x) == IrpLists(s, s.threads[t], x) + Occ(e.issued, x)
    && InLists(e, th, f) + Occ(s.arrived, f) == InLists(s, s.threads[t], f) + Occ(e.arrived, f)
    && OutLists(e, th, f) + Occ(s.dequeued, f) == OutLists(s, s.threads[t], f) + Occ(e.dequeued, f)
  }

  lemma {:induction false} MoveBalances(s: State, e: State, t: nat, th: Thread, x: nat, f: Frame)
    requires Moves(s, e, t, th, x, f)
    ensures Balanced(s, e, x, f)
  {
    hide Held, Held1, Carried, Carried1, Occ, SentNodes, SentIrps, WaitingIrps, CompletedIrps;
    HeldUpdate(RxNode, s.threads, t, th, x);
    HeldUpdate(TxNode, s.threads, t, th, x);
    HeldUpdate(Request, s.threads, t, th, x);
    CarriedUpdate(Inward, s.threads, t, th, f);
    CarriedUpdate(Outward, s.threads, t, th, f);
  }

  /** `th` and `el` hold the same nodes and frames. */
  predicate SameLoad(th: Thread, el: Thread, x: nat, f: Frame) {
    && Held1(RxNode, el, x) == Held1(RxNode, th, x) && Held1(TxNode, el, x) == Held1(TxNode, th, x)
    && Carried1(Inward, el, f) == Carried1(Inward, th, f) && Carried1(Outward, el, f) == Carried1(Outward, th, f)
  }

  lemma {:induction false} GotoBalances(s: State, t: nat, el: Thread, x: nat, f: Frame)
    requires t < |s.threads| && SameLoad(s.threads[t], el, x, f)
    requires Held1(Request, el, x) == Held1(Request, s.threads[t], x)
    ensures Balanced(s, Goto(s, t, el), x, f)
  {
    hide Occ, SentNodes, SentIrps, WaitingIrps, CompletedIrps, Balanced, One, Held1, Carried1;
    MoveBalances(s, Goto(s, t, el), t, el, x, f);
  }

  lemma {:induction false} TakeWaiterBalances(s: State, t: nat, k: nat, el: Thread, x: nat, f: Frame)
    requires t < |s.threads| && k < |s.pending| && SameLoad(s.threads[t], el, x, f)
    requires Held1(Request, el, x) == Held1(Request, s.threads[t], x) + One(s.pending[k].irp == x)
    ensures Balanced(s, TakeWaiter(s, t, k, el), x, f)
  {
    hide Occ, SentNodes, SentIrps, WaitingIrps, CompletedIrps, Balanced, One, Held1, Carried1, Without;
    WaitingWithout(s.pending, k, x);
    MoveBalances(s, TakeWaiter(s, t, k, el), t, el, x, f);
  }

  lemma {:induction false} CompleteBalances(s: State, t: nat, c: Completion, el: Thread, x: nat, f: Frame)
    requires t < |s.threads| && SameLoad(s.threads[t], el, x, f)
    requires Held1(Request, el, x) + One(c.irp == x) == Held1(Request, s.threads[t], x)
    ensures Balanced(s, Complete(s, t, c, el), x, f)
  {
    hide Occ, SentNodes, SentIrps, WaitingIrps, CompletedIrps, Balanced, One, Held1, Carried1;
    CompletedMore(s.completed, c, x);
    MoveBalances(s, Complete(s, t, c, el), t, el, x, f);
  }

  lemma {:induction false} DiscardBalances(s: State, t: nat, g: Frame, el: Thread, x: nat, f: Frame)
    requires t < |s.threads| && Carried1(Inward, s.threads[t], f) == Carried1(Inward, el, f) + One(g == f)
    requires Held1(RxNode, el, x) == Held1(RxNode, s.threads[t], x)
          && Held1(TxNode, el, x) == Held1(TxNode, s.threads[t], x)
    requires Held1(Request, el, x) == Held1(Request, s.threads[t], x)
    requires Carried1(Outward, el, f) == Carried1(Outward, s.threads[t], f)
    ensures Balanced(s, Discard(s, t, g, el), x, f)
  {
    hide Occ, SentNodes, SentIrps, WaitingIrps, CompletedIrps, Balanced, One, Held1, Carried1;
    OccMore(s.dropped, g, f);
    MoveBalances(s, Discard(s, t, g, el), t, el, x, f);
  }

  // ---- what a thread gives up or takes on ----

  lemma {:induction false} DequeueLoads(irp: nat, ifIndex: u32, file: nat, node: nat, g: Frame, x: nat, f: Frame)
    ensures var th := Checking(irp, ifIndex, file); var el := Copying(irp, node, g);
            && Held1(RxNode, el, x) == Held1(RxNode, th, x) + One(node == x)
                && Held1(TxNode, el, x) == Held1(TxNode, th, x)
            && Held1(Request, el, x) == Held1(Request, th, x) && Carried1(Inward, el, f) == Carried1(Inward, th, f)
            && Carried1(Outward, el, f) == Carried1(Outward, th, f) + One(g == f)
  {
  }

  lemma {:induction false} FinishLoads(irp: nat, answer: Answer, x: nat, f: Frame)
    ensures var th := Finishing(irp, answer);
            && Held1(RxNode, Idle, x) == Held1(RxNode, th, x) && Held1(TxNode, Idle, x) == Held1(TxNode, th, x)
            && Held1(Request, Idle, x) + One(irp == x) == Held1(Request, th, x)
            && Carried1(Inward, Idle, f) == Carried1(Inward, th, f)
            && Carried1(Outward, Idle, f) + (if answer.frame.Some? then One(answer.frame.value == f) else 0)
               == Carried1(Outward, th, f)
  {
  }

  lemma {:induction false} StoringLoads(node: nat, g: Frame, caller: Option<nat>, x: nat, f: Frame)
    ensures var th := Storing(g, caller); var el := Filling(node, g, caller);
            && Held1(RxNode, el, x) == Held1(RxNode, th, x) + One(node == x)
                && Held1(TxNode, el, x) == Held1(TxNode, th, x)
            && Held1(Request, el, x) == Held1(Request, th, x) && Carried1(Inward, el, f) == Carried1(Inward, th, f)
            && Carried1(Outward, el, f) == Carried1(Outward, th, f)
  {
  }

  lemma {:induction false} IndicateBalances(s: State, t: nat, g: Frame, x: nat, f: Frame)
    requires t < |s.threads| && s.threads[t] == Idle
    ensures Balanced(s, DoIndicate(s, t, g), x, f)
  {
    hide Occ, SentNodes, SentIrps, WaitingIrps, CompletedIrps, Balanced, Without, Upto;
    OccMore(s.arrived, g, f);
    MoveBalances(s, DoIndicate(s, t, g), t, Indicating(g, Option.None), x, f);
  }

  lemma {:induction false} FindWaiterBalances(s: State, t: nat, g: Frame, caller: Option<nat>, x: nat, f: Frame)
    requires t < |s.threads| && s.threads[t] == Indicating(g, caller)
    ensures Balanced(s, DoFindWaiter(s, t), x, f)
  {
    hide Balanced, Goto, TakeWaiter, Complete, Discard;
    var found := FirstWaiter(s.pending, ByIfIndex(g.ifIndex), 0);
    if found.Some? {
      TakeWaiterBalances(s, t, found.value, Handing(s.pending[found.value].irp, g, caller), x, f);
    } else {
      GotoBalances(s, t, Storing(g, caller), x, f);
    }
  }

  lemma {:induction false} HandOverBalances(s: State, t: nat, ok: bool, victim: nat, g: Frame, caller: Option<nat>,
      x: nat, f: Frame)
    requires t < |s.threads| && s.threads[t] == Handing(victim, g, caller)
    ensures Balanced(s, DoHandOver(s, t, ok), x, f)
  {
    hide Occ, SentNodes, SentIrps, WaitingIrps, CompletedIrps, Balanced, Without, Upto;
    if ok { OccMore(s.handed, g, f); } else { OccMore(s.dropped, g, f); }
    CompletedMore(s.completed,
        Completion(victim, if ok then Answer(Success, Some(g)) else Answer(TooSmall, Option.None)), x);
    MoveBalances(s, DoHandOver(s, t, ok), t, Done(caller, Success), x, f);
  }

  lemma {:induction false} TakeRxBalances(s: State, t: nat, g: Frame, caller: Option<nat>, x: nat, f: Frame)
    requires t < |s.threads| && s.threads[t] == Storing(g, caller)
    ensures Balanced(s, DoTakeRx(s, t), x, f)
  {
    hide Discard, Balanced;
    if s.freeRx == [] {
      DiscardBalances(s, t, g, Done(caller, NoResources), x, f);
    } else {
      TakeFreeRxBalances(s, t, g, caller, x, f);
    }
  }

  lemma {:induction false} TakeFreeRxBalances(s: State, t: nat, g: Frame, caller: Option<nat>, x: nat, f: Frame)
    requires t < |s.threads| && s.threads[t] == Storing(g, caller) && s.freeRx != []
    ensures Balanced(s, Goto(s, t, Filling(s.freeRx[0], g, caller)).(freeRx := s.freeRx[1..]), x, f)
  {
    hide Occ, SentNodes, SentIrps, WaitingIrps, CompletedIrps, Balanced, One, Without, Held1, Carried1;
    OccHead(s.freeRx, x);
    StoringLoads(s.freeRx[0], g, caller, x, f);
    MoveBalances(s, Goto(s, t, Filling(s.freeRx[0], g, caller)).(freeRx := s.freeRx[1..]), t,
                 Filling(s.freeRx[0], g, caller), x, f);
  }

  lemma {:induction false} FillBalances(s: State, t: nat, ok: bool, node: nat, g: Frame, caller: Option<nat>, x: nat,
      f: Frame)
    requires t < |s.threads| && s.threads[t] == Filling(node, g, caller) && node < |s.store|
    ensures Balanced(s, DoFill(s, t, ok), x, f)
  {
    hide Occ, SentNodes, SentIrps, WaitingIrps, CompletedIrps, Balanced, Without, Upto;
    if ok {
      MoveBalances(s, DoFill(s, t, ok), t, Queueing(node, g, caller), x, f);
    } else {
      DiscardBalances(s, t, g, Unfilling(node, caller), x, f);
    }
  }

  lemma {:induction false} EnqueueBalances(s: State, t: nat, node: nat, g: Frame, caller: Option<nat>, x: nat, f: Frame)
    requires t < |s.threads| && s.threads[t] == Queueing(node, g, caller)
    ensures Balanced(s, DoEnqueue(s, t), x, f)
  {
    hide Occ, SentNodes, SentIrps, WaitingIrps, CompletedIrps, Balanced, Without, Upto;
    OccMore(s.queue, node, x);
    OccMore(s.inserted, g, f);
    MoveBalances(s, DoEnqueue(s, t), t, Done(caller, Success), x, f);
  }

  lemma {:induction false} GiveBackBalances(s: State, t: nat, node: nat, caller: Option<nat>, x: nat, f: Frame)
    requires t < |s.threads| && s.threads[t] == Unfilling(node, caller)
    ensures Balanced(s, DoGiveBack(s, t), x, f)
  {
    hide Occ, SentNodes, SentIrps, WaitingIrps, CompletedIrps, Balanced, Without, Upto;
    OccMore(s.freeRx, node, x);
    MoveBalances(s, DoGiveBack(s, t), t, Done(caller, Success), x, f);
  }

  lemma {:induction false} CheckQueueBalances(s: State, t: nat, irp: nat, ifIndex: u32, file: nat, x: nat, f: Frame)
    requires t < |s.threads| && s.threads[t] == Checking(irp, ifIndex, file) && Indexed(s)
    ensures Balanced(s, DoCheckQueue(s, t), x, f)
  {
    hide Frames, Balanced, Goto, Without;
    var found := FirstWanted(Frames(s.queue, s.store), ifIndex, 0);
    if found.Some? {
      DequeueBalances(s, t, irp, ifIndex, file, found.value, x, f);
    } else {
      GotoBalances(s, t, Parking(irp, ifIndex, file), x, f);
    }
  }

  lemma {:induction false} DequeueBalances(s: State, t: nat, irp: nat, ifIndex: u32, file: nat, k: nat, x: nat,
      f: Frame)
    requires t < |s.threads| && s.threads[t] == Checking(irp, ifIndex, file) && k < |s.queue| && s.queue[k] < |s.store|
    ensures var g := s.store[s.queue[k]];
            var e := Goto(s, t, Copying(irp, s.queue[k], g));
            Balanced(s, e.(queue := Without(s.queue, k), dequeued := s.dequeued + [g]), x, f)
  {
    hide Occ, SentNodes, SentIrps, WaitingIrps, CompletedIrps, Balanced, One, Without, Held1, Carried1;
    var g := s.store[s.queue[k]];
    OccWithout(s.queue, k, x);
    OccMore(s.dequeued, g, f);
    DequeueLoads(irp, ifIndex, file, s.queue[k], g, x, f);
    MoveBalances(s, Goto(s, t, Copying(irp, s.queue[k], g)).(queue := Without(s.queue, k),
        dequeued := s.dequeued + [g]), t,
                 Copying(irp, s.queue[k], g), x, f);
  }

  lemma {:induction false} CopyBalances(s: State, t: nat, irp: nat, node: nat, g: Frame, x: nat, f: Frame)
    requires t < |s.threads| && s.threads[t] == Copying(irp, node, g) && node < |s.store| && s.store[node] == g
    ensures Balanced(s, DoCopy(s, t), x, f)
  {
    hide Balanced, Goto;
    GotoBalances(s, t, Returning(irp, node, g), x, f);
  }

  lemma {:induction false} ReturnRxBalances(s: State, t: nat, irp: nat, node: nat, g: Frame, x: nat, f: Frame)
    requires t < |s.threads| && s.threads[t] == Returning(irp, node, g)
    ensures Balanced(s, DoReturnRx(s, t), x, f)
  {
    hide Occ, SentNodes, SentIrps, WaitingIrps, CompletedIrps, Balanced, Without, Upto;
    OccMore(s.freeRx, node, x);
    MoveBalances(s, DoReturnRx(s, t), t, Finishing(irp, Answer(Success, Some(g))), x, f);
  }

  lemma {:induction false} ParkBalances(s: State, t: nat, irp: nat, ifIndex: u32, file: nat, x: nat, f: Frame)
    requires t < |s.threads| && s.threads[t] == Parking(irp, ifIndex, file)
    ensures Balanced(s, DoPark(s, t), x, f)
  {
    hide Occ, SentNodes, SentIrps, WaitingIrps, CompletedIrps, Balanced, Without, Upto;
    WaitingMore(s.pending, Waiter(irp, ifIndex, file), x);
    MoveBalances(s, DoPark(s, t), t, Idle, x, f);
  }

  lemma {:induction false} TakeTxBalances(s: State, t: nat, irp: nat, x: nat, f: Frame)
    requires t < |s.threads| && s.threads[t] == Acquiring(irp)
    ensures Balanced(s, DoTakeTx(s, t), x, f)
  {
    hide Occ, SentNodes, SentIrps, WaitingIrps, CompletedIrps, Balanced, Without, Upto;
    if s.freeTx != [] { OccHead(s.freeTx, x); }
    if s.freeTx == [] {
      GotoBalances(s, t, Finishing(irp, Answer(Busy, Option.None)), x, f);
    } else {
      MoveBalances(s, DoTakeTx(s, t), t, Loading(irp, s.freeTx[0]), x, f);
    }
  }

  lemma {:induction false} SubmitBalances(s: State, t: nat, ok: bool, irp: nat, node: nat, x: nat, f: Frame)
    requires t < |s.threads| && s.threads[t] == Loading(irp, node)
    ensures Balanced(s, DoSubmit(s, t, ok), x, f)
  {
    hide Occ, SentNodes, SentIrps, WaitingIrps, CompletedIrps, Balanced, Without, Upto;
    SentMore(s.inflight, Sent(irp, node), x);
    if ok {
      MoveBalances(s, DoSubmit(s, t, ok), t, Idle, x, f);
    } else {
      GotoBalances(s, t, Unloading(irp, node), x, f);
    }
  }

  lemma {:induction false} ReturnFailedBalances(s: State, t: nat, irp: nat, node: nat, x: nat, f: Frame)
    requires t < |s.threads| && s.threads[t] == Unloading(irp, node)
    ensures Balanced(s, DoReturnFailed(s, t), x, f)
  {
    hide Occ, SentNodes, SentIrps, WaitingIrps, CompletedIrps, Balanced, Without, Upto;
    OccMore(s.freeTx, node, x);
    MoveBalances(s, DoReturnFailed(s, t), t, Finishing(irp, Answer(NoResources, Option.None)), x, f);
  }

  lemma {:induction false} SendCompleteBalances(s: State, t: nat, k: nat, ok: bool, x: nat, f: Frame)
    requires t < |s.threads| && s.threads[t] == Idle && k < |s.inflight|
    ensures Balanced(s, DoSendComplete(s, t, k, ok), x, f)
  {
    hide Occ, SentNodes, SentIrps, WaitingIrps, CompletedIrps, Balanced, Without, Upto;
    SentWithout(s.inflight, k, x);
    MoveBalances(s, DoSendComplete(s, t, k, ok), t, SendDone(s.inflight[k].irp, s.inflight[k].node, ok), x, f);
  }

  lemma {:induction false} ReturnTxBalances(s: State, t: nat, irp: nat, node: nat, ok: bool, x: nat, f: Frame)
    requires t < |s.threads| && s.threads[t] == SendDone(irp, node, ok)
    ensures Balanced(s, DoReturnTx(s, t), x, f)
  {
    hide Occ, SentNodes, SentIrps, WaitingIrps, CompletedIrps, Balanced, Without, Upto;
    OccMore(s.freeTx, node, x);
    MoveBalances(s, DoReturnTx(s, t), t, Finishing(irp, Answer(if ok then Success else Unsuccessful, Option.None)), x,
        f);
  }

  lemma {:induction false} DispatchBalances(s: State, t: nat, irp: nat, r: Driver.Request, x: nat, f: Frame)
    requires t < |s.threads| && s.threads[t] == Idle
    ensures Balanced(s, DoDispatch(s, t, irp, r), x, f)
  {
    hide Balanced, Began, Goto;
    if r.Inject? {
      InjectBalances(s, t, irp, r, x, f);
    } else {
      BeginBalances(s, t, irp, r, x, f);
    }
  }

  lemma {:induction false} InjectBalances(s: State, t: nat, irp: nat, r: Driver.Request, x: nat, f: Frame)
    requires t < |s.threads| && s.threads[t] == Idle && r.Inject?
    ensures Balanced(s, Goto(s, t, Began(irp, r)).(issued := s.issued + [irp], arrived := s.arrived + [r.frame]), x, f)
  {
    hide Occ, SentNodes, SentIrps, WaitingIrps, CompletedIrps, Balanced, One, Held1, Carried1, Began;
    OccMore(s.issued, irp, x);
    OccMore(s.arrived, r.frame, f);
    BeganHolds(irp, r, x, f);
    MoveBalances(s, Goto(s, t, Began(irp, r)).(issued := s.issued + [irp], arrived := s.arrived + [r.frame]), t,
                 Began(irp, r), x, f);
  }

  lemma {:induction false} BeginBalances(s: State, t: nat, irp: nat, r: Driver.Request, x: nat, f: Frame)
    requires t < |s.threads| && s.threads[t] == Idle && !r.Inject?
    ensures Balanced(s, Goto(s, t, Began(irp, r)).(issued := s.issued + [irp]), x, f)
  {
    hide Occ, SentNodes, SentIrps, WaitingIrps, CompletedIrps, Balanced, One, Held1, Carried1, Began;
    OccMore(s.issued, irp, x);
    BeganHolds(irp, r, x, f);
    MoveBalances(s, Goto(s, t, Began(irp, r)).(issued := s.issued + [irp]), t, Began(irp, r), x, f);
  }

  /** A request that begins holds itself, and the frame it injects. */
  lemma {:induction false} BeganHolds(irp: nat, r: Driver.Request, x: nat, f: Frame)
    ensures var th := Began(irp, r);
            && Held1(Request, th, x) == One(irp == x) && Held1(RxNode, th, x) == 0 && Held1(TxNode, th, x) == 0
            && Carried1(Inward, th, f) == (if r.Inject? then One(r.frame == f) else 0) && Carried1(Outward, th, f) == 0
    ensures Held1(Request, Idle, x) == Held1(RxNode, Idle, x) == Held1(TxNode, Idle, x) == 0
    ensures Carried1(Inward, Idle, f) == Carried1(Outward, Idle, f) == 0
  {
  }

  lemma {:induction false} CleanNextBalances(s: State, t: nat, irp: nat, file: nat, x: nat, f: Frame)
    requires t < |s.threads| && s.threads[t] == Cleaning(irp, file)
    ensures Balanced(s, DoCleanNext(s, t), x, f)
  {
    hide Balanced, Goto, TakeWaiter, Complete, Discard;
    var found := FirstWaiter(s.pending, ByFile(file), 0);
    if found.Some? {
      TakeWaiterBalances(s, t, found.value, CleaningVictim(irp, file, s.pending[found.value].irp), x, f);
    } else {
      GotoBalances(s, t, Finishing(irp, Answer(Success, Option.None)), x, f);
    }
  }

  lemma {:induction false} CleanVictimBalances(s: State, t: nat, irp: nat, file: nat, victim: nat, x: nat, f: Frame)
    requires t < |s.threads| && s.threads[t] == CleaningVictim(irp, file, victim)
    ensures Balanced(s, DoCleanVictim(s, t), x, f)
  {
    hide Balanced, Goto, TakeWaiter, Complete, Discard;
    CompleteBalances(s, t, Completion(victim, Answer(Cancelled, Option.None)), Cleaning(irp, file), x, f);
  }

  lemma {:induction false} DrainNextBalances(s: State, t: nat, x: nat, f: Frame)
    requires t < |s.threads| && s.threads[t] == Draining
    ensures Balanced(s, DoDrainNext(s, t), x, f)
  {
    hide Balanced, Goto, TakeWaiter, Complete, Discard;
    var found := FirstWaiter(s.pending, Any, 0);
    if found.Some? {
      TakeWaiterBalances(s, t, found.value, DrainingVictim(s.pending[found.value].irp), x, f);
    } else {
      GotoBalances(s, t, Idle, x, f);
    }
  }

  lemma {:induction false} DrainVictimBalances(s: State, t: nat, victim: nat, x: nat, f: Frame)
    requires t < |s.threads| && s.threads[t] == DrainingVictim(victim)
    ensures Balanced(s, DoDrainVictim(s, t), x, f)
  {
    hide Balanced, Goto, TakeWaiter, Complete, Discard;
    CompleteBalances(s, t, Completion(victim, Answer(Removed, Option.None)), Draining, x, f);
  }

  lemma {:induction false} CancelBalances(s: State, t: nat, k: nat, x: nat, f: Frame)
    requires t < |s.threads| && s.threads[t] == Idle && k < |s.pending|
    ensures Balanced(s, DoCancel(s, t, k), x, f)
  {
    hide Balanced, Goto, TakeWaiter, Complete, Discard;
    TakeWaiterBalances(s, t, k, Cancelling(s.pending[k].irp), x, f);
  }

  lemma {:induction false} CancelVictimBalances(s: State, t: nat, victim: nat, x: nat, f: Frame)
    requires t < |s.threads| && s.threads[t] == Cancelling(victim)
    ensures Balanced(s, DoCancelVictim(s, t), x, f)
  {
    hide Balanced, Goto, TakeWaiter, Complete, Discard;
    CompleteBalances(s, t, Completion(victim, Answer(Cancelled, Option.None)), Idle, x, f);
  }

  lemma {:induction false} FinishBalances(s: State, t: nat, irp: nat, answer: Answer, x: nat, f: Frame)
    requires t < |s.threads| && s.threads[t] == Finishing(irp, answer)
    ensures Balanced(s, DoFinish(s, t), x, f)
  {
    hide Occ, SentNodes, SentIrps, WaitingIrps, CompletedIrps, Balanced, One, Without, Held1, Carried1;
    CompletedMore(s.completed, Completion(irp, answer), x);
    if answer.frame.Some? { OccMore(s.delivered, answer.frame.value, f); }
    FinishLoads(irp, answer, x, f);
    MoveBalances(s, DoFinish(s, t), t, Idle, x, f);
  }

  /** No step makes or loses a node, a request or a frame. */
  lemma {:induction false} StepBalances(s: State, a: Action, x: nat, f: Frame)
    requires Enabled(s, a)
    requires a.Copy? ==> s.store[s.threads[a.t].node] == s.threads[a.t].frame
    ensures Balanced(s, Apply(s, a), x, f)
  {
    hide Balanced, DoIndicate, DoFindWaiter, DoHandOver, DoTakeRx, DoFill, DoEnqueue, DoGiveBack, DoCheckQueue, DoCopy,
         DoReturnRx, DoPark, DoTakeTx, DoSubmit, DoReturnFailed, DoSendComplete, DoReturnTx, DoDispatch, DoCleanNext,
         DoCleanVictim, DoDrainNext, DoDrainVictim, DoCancel, DoCancelVictim, DoFinish, Goto;
    var th := s.threads[a.t];
    match a {
      case Indicate(t, g) => IndicateBalances(s, t, g, x, f);
      case Dispatch(t, irp, r) => DispatchBalances(s, t, irp, r, x, f);
      case FindWaiter(t) => FindWaiterBalances(s, t, th.frame, th.caller, x, f);
      case HandOver(t, ok) => HandOverBalances(s, t, ok, th.victim, th.frame, th.caller, x, f);
      case TakeRx(t) => TakeRxBalances(s, t, th.frame, th.caller, x, f);
      case Fill(t, ok) => FillBalances(s, t, ok, th.node, th.frame, th.caller, x, f);
      case Enqueue(t) => EnqueueBalances(s, t, th.node, th.frame, th.caller, x, f);
      case GiveBack(t) => GiveBackBalances(s, t, th.node, th.caller, x, f);
      case CheckQueue(t) => CheckQueueBalances(s, t, th.irp, th.ifIndex, th.file, x, f);
      case Copy(t) => CopyBalances(s, t, th.irp, th.node, th.frame, x, f);
      case ReturnRx(t) => ReturnRxBalances(s, t, th.irp, th.node, th.frame, x, f);
      case Park(t) => ParkBalances(s, t, th.irp, th.ifIndex, th.file, x, f);
      case TakeTx(t) => TakeTxBalances(s, t, th.irp, x, f);
      case Submit(t, ok) => SubmitBalances(s, t, ok, th.irp, th.node, x, f);
      case ReturnFailed(t) => ReturnFailedBalances(s, t, th.irp, th.node, x, f);
      case SendComplete(t, k, ok) => SendCompleteBalances(s, t, k, ok, x, f);
      case ReturnTx(t) => ReturnTxBalances(s, t, th.irp, th.node, th.ok, x, f);
      case CleanNext(t) => CleanNextBalances(s, t, th.irp, th.file, x, f);
      case CleanVictim(t) => CleanVictimBalances(s, t, th.irp, th.file, th.victim, x, f);
      case StartDrain(t) => GotoBalances(s, t, Draining, x, f);
      case DrainNext(t) => DrainNextBalances(s, t, x, f);
      case DrainVictim(t) => DrainVictimBalances(s, t, th.victim, x, f);
      case Cancel(t, k) => CancelBalances(s, t, k, x, f);
      case CancelVictim(t) => CancelVictimBalances(s, t, th.victim, x, f);
      case Finish(t) => FinishBalances(s, t, th.irp, th.answer, x, f);
    }
  }
}
