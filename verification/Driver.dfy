/** The NDIS protocol driver as a machine of atomic steps: one step per critical section, per completion, and per
    access to a frame node between them. Any number of threads interleave. */
module Driver {
  import opened Bytes
  import opened Counting
  import opened Wrappers

  const IFINDEX_ANY: u32 := 0xFFFF_FFFF
  const RX_NODES := 128
  const TX_NODES := 32

  datatype Frame = Frame(ifIndex: u32, data: bytes)

  /** A READ request waiting for a frame. */
  datatype Waiter = Waiter(irp: nat, ifIndex: u32, file: nat)

  datatype Status = Success | Cancelled | Removed | Busy | NoResources | NoDevice | Unsuccessful | Invalid | TooSmall

  /** How a request is completed; a READ served from the queue carries the frame. */
  datatype Answer = Answer(status: Status, frame: Option<Frame>)

  datatype Completion = Completion(irp: nat, answer: Answer)

  datatype Sent = Sent(irp: nat, node: nat)

  /** Where a thread is in the routine it runs; `caller` is the request of a thread that injects a frame. */
  datatype Thread =
    | Idle
    | Indicating(frame: Frame, caller: Option<nat>)
    | Handing(victim: nat, frame: Frame, caller: Option<nat>)
    | Storing(frame: Frame, caller: Option<nat>)
    | Filling(node: nat, frame: Frame, caller: Option<nat>)
    | Queueing(node: nat, frame: Frame, caller: Option<nat>)
    | Unfilling(node: nat, caller: Option<nat>)
    | Checking(irp: nat, ifIndex: u32, file: nat)
    | Copying(irp: nat, node: nat, frame: Frame)
    | Returning(irp: nat, node: nat, frame: Frame)
    | Parking(irp: nat, ifIndex: u32, file: nat)
    | Acquiring(irp: nat)
    | Loading(irp: nat, node: nat)
    | Unloading(irp: nat, node: nat)
    | SendDone(irp: nat, node: nat, ok: bool)
    | Cleaning(irp: nat, file: nat)
    | CleaningVictim(irp: nat, file: nat, victim: nat)
    | Draining
    | DrainingVictim(victim: nat)
    | Cancelling(victim: nat)
    | Finishing(irp: nat, answer: Answer)

  /** `store` is what the receive nodes hold. The last six fields are histories: frames that arrived, were handed to
      a waiting READ, were dropped, were queued, were taken off the queue, and were read from the queue. */
  datatype State = State(
    threads: seq<Thread>, freeRx: seq<nat>, queue: seq<nat>, freeTx: seq<nat>, store: seq<Frame>,
    pending: seq<Waiter>, inflight: seq<Sent>, issued: seq<nat>, completed: seq<Completion>,
    arrived: seq<Frame>, handed: seq<Frame>, dropped: seq<Frame>,
    inserted: seq<Frame>, dequeued: seq<Frame>, delivered: seq<Frame>)

  /** What a new request asks for. */
  datatype Request =
    | Recv(ifIndex: u32, file: nat)
    | Send
    | Inject(frame: Frame)
    | Cleanup(file: nat)
    | Immediate(status: Status)

  datatype Action =
    | Indicate(t: nat, frame: Frame)
    | Dispatch(t: nat, irp: nat, request: Request)
    | FindWaiter(t: nat)
    | HandOver(t: nat, ok: bool)
    | TakeRx(t: nat)
    | Fill(t: nat, ok: bool)
    | Enqueue(t: nat)
    | GiveBack(t: nat)
    | CheckQueue(t: nat)
    | Copy(t: nat)
    | ReturnRx(t: nat)
    | Park(t: nat)
    | TakeTx(t: nat)
    | Submit(t: nat, ok: bool)
    | ReturnFailed(t: nat)
    | SendComplete(t: nat, k: nat, ok: bool)
    | ReturnTx(t: nat)
    | CleanNext(t: nat)
    | CleanVictim(t: nat)
    | StartDrain(t: nat)
    | DrainNext(t: nat)
    | DrainVictim(t: nat)
    | Cancel(t: nat, k: nat)
    | CancelVictim(t: nat)
    | Finish(t: nat)

  // ---- the list walks ----

  predicate Wanted(f: Frame, ifIndex: u32) {
    ifIndex == IFINDEX_ANY || f.ifIndex == ifIndex
  }

  /** The first queued frame from `k` on that a READ for `ifIndex` accepts. */
  function FirstWanted(frames: seq<Frame>, ifIndex: u32, k: nat): (r: Option<nat>)
    ensures r.Some? ==> k <= r.value < |frames| && Wanted(frames[r.value], ifIndex)
    ensures r.Some? ==> forall m :: k <= m < r.value ==> !Wanted(frames[m], ifIndex)
    ensures r == Option.None ==> forall m :: k <= m < |frames| ==> !Wanted(frames[m], ifIndex)
    decreases |frames| - k
  {
    if k >= |frames| then Option.None
    else if Wanted(frames[k], ifIndex) then Some(k)
    else FirstWanted(frames, ifIndex, k + 1)
  }

  /** Which waiters a removal looks for. */
  datatype Match = ByIfIndex(ifIndex: u32) | ByFile(file: nat) | Any

  /** A frame of one interface looks for a waiter of exactly that interface. */
  predicate Matches(w: Waiter, m: Match) {
    match m
    case ByIfIndex(i) => i == IFINDEX_ANY || w.ifIndex == i
    case ByFile(f) => w.file == f
    case Any => true
  }

  function FirstWaiter(pending: seq<Waiter>, m: Match, k: nat): (r: Option<nat>)
    ensures r.Some? ==> k <= r.value < |pending| && Matches(pending[r.value], m)
    ensures r.Some? ==> forall j :: k <= j < r.value ==> !Matches(pending[j], m)
    ensures r == Option.None ==> forall j :: k <= j < |pending| ==> !Matches(pending[j], m)
    decreases |pending| - k
  {
    if k >= |pending| then Option.None
    else if Matches(pending[k], m) then Some(k)
    else FirstWaiter(pending, m, k + 1)
  }

  // ---- the step relation ----

  /** What the queued nodes hold, in queue order. */
  function Frames(queue: seq<nat>, store: seq<Frame>): (r: seq<Frame>)
    requires forall i :: 0 <= i < |queue| ==> queue[i] < |store|
    ensures |r| == |queue| && forall i :: 0 <= i < |r| ==> r[i] == store[queue[i]]
  {
    seq(|queue|, i requires 0 <= i < |queue| => store[queue[i]])
  }

  /** A receiving thread is done: the driver's own goes idle, an injecting one completes its request. */
  function Done(caller: Option<nat>, status: Status): Thread {
    match caller
    case Some(irp) => Finishing(irp, Answer(status, Option.None))
    case None => Idle
  }

  predicate Indexed(s: State) {
    && |s.store| == RX_NODES
    && (forall i :: 0 <= i < |s.queue| ==> s.queue[i] < RX_NODES)
  }

  /** The thread is where the action starts, and what the environment supplies exists. */
  predicate Enabled(s: State, a: Action) {
    a.t < |s.threads| && Indexed(s) &&
    match a
    case Indicate(t, _) => s.threads[t].Idle?
    case Dispatch(t, irp, _) => s.threads[t].Idle? && irp !in s.issued
    case FindWaiter(t) => s.threads[t].Indicating?
    case HandOver(t, _) => s.threads[t].Handing?
    case TakeRx(t) => s.threads[t].Storing?
    case Fill(t, ok) => s.threads[t].Filling? && s.threads[t].node < RX_NODES && (s.threads[t].caller.Some? ==> ok)
    case Enqueue(t) => s.threads[t].Queueing? && s.threads[t].node < RX_NODES
    case GiveBack(t) => s.threads[t].Unfilling?
    case CheckQueue(t) => s.threads[t].Checking?
    case Copy(t) => s.threads[t].Copying? && s.threads[t].node < RX_NODES
    case ReturnRx(t) => s.threads[t].Returning?
    case Park(t) => s.threads[t].Parking?
    case TakeTx(t) => s.threads[t].Acquiring?
    case Submit(t, _) => s.threads[t].Loading?
    case ReturnFailed(t) => s.threads[t].Unloading?
    case SendComplete(t, k, _) => s.threads[t].Idle? && k < |s.inflight|
    case ReturnTx(t) => s.threads[t].SendDone?
    case CleanNext(t) => s.threads[t].Cleaning?
    case CleanVictim(t) => s.threads[t].CleaningVictim?
    case StartDrain(t) => s.threads[t].Idle?
    case DrainNext(t) => s.threads[t].Draining?
    case DrainVictim(t) => s.threads[t].DrainingVictim?
    case Cancel(t, k) => s.threads[t].Idle? && k < |s.pending|
    case CancelVictim(t) => s.threads[t].Cancelling?
    case Finish(t) => s.threads[t].Finishing?
  }

  function Began(irp: nat, request: Request): Thread {
    match request
    case Recv(i, file) => Checking(irp, i, file)
    case Send => Acquiring(irp)
    case Inject(f) => Indicating(f, Some(irp))
    case Cleanup(file) => Cleaning(irp, file)
    case Immediate(status) => Finishing(irp, Answer(status, Option.None))
  }

  /** The thread is there, and at a place of that kind. */
  function At(s: State, t: nat): Thread {
    if t < |s.threads| then s.threads[t] else Idle
  }

  /** The thread goes on elsewhere. */
  function Goto(s: State, t: nat, th: Thread): State
    requires t < |s.threads|
  {
    s.(threads := s.threads[t := th])
  }

  /** A waiting READ is taken off the list. */
  function TakeWaiter(s: State, t: nat, k: nat, th: Thread): State
    requires t < |s.threads| && k < |s.pending|
  {
    s.(threads := s.threads[t := th], pending := Without(s.pending, k))
  }

  function Complete(s: State, t: nat, c: Completion, th: Thread): State
    requires t < |s.threads|
  {
    s.(threads := s.threads[t := th], completed := s.completed + [c])
  }

  function Discard(s: State, t: nat, f: Frame, th: Thread): State
    requires t < |s.threads|
  {
    s.(threads := s.threads[t := th], dropped := s.dropped + [f])
  }

  // ---- receiving ----

  function DoIndicate(s: State, t: nat, f: Frame): State
    requires t < |s.threads|
  {
    s.(threads := s.threads[t := Indicating(f, Option.None)], arrived := s.arrived + [f])
  }

  /** The first waiter for the frame's interface is taken off the list. */
  function DoFindWaiter(s: State, t: nat): State
    requires At(s, t).Indicating?
  {
    var th := s.threads[t];
    match FirstWaiter(s.pending, ByIfIndex(th.frame.ifIndex), 0)
    case Some(k) => TakeWaiter(s, t, k, Handing(s.pending[k].irp, th.frame, th.caller))
    case None => Goto(s, t, Storing(th.frame, th.caller))
  }

  /** The waiter is completed with the frame, or with an error if the frame cannot be given to it. */
  function DoHandOver(s: State, t: nat, ok: bool): State
    requires At(s, t).Handing?
  {
    var th := s.threads[t];
    if ok then
      Complete(s, t, Completion(th.victim, Answer(Success, Some(th.frame))), Done(th.caller, Success))
        .(handed := s.handed + [th.frame])
    else
      Complete(s, t, Completion(th.victim, Answer(TooSmall, Option.None)), Done(th.caller, Success))
        .(dropped := s.dropped + [th.frame])
  }

  function DoTakeRx(s: State, t: nat): State
    requires At(s, t).Storing?
  {
    var th := s.threads[t];
    if s.freeRx == [] then Discard(s, t, th.frame, Done(th.caller, NoResources))
    else Goto(s, t, Filling(s.freeRx[0], th.frame, th.caller)).(freeRx := s.freeRx[1..])
  }

  /** Outside the lock the frame is copied into the node, which may fail. */
  function DoFill(s: State, t: nat, ok: bool): State
    requires At(s, t).Filling? && s.threads[t].node < |s.store|
  {
    var th := s.threads[t];
    if ok then Goto(s, t, Queueing(th.node, th.frame, th.caller)).(store := s.store[th.node := th.frame])
    else Discard(s, t, th.frame, Unfilling(th.node, th.caller))
  }

  function DoEnqueue(s: State, t: nat): State
    requires At(s, t).Queueing?
  {
    var th := s.threads[t];
    s.(threads := s.threads[t := Done(th.caller, Success)], queue := s.queue + [th.node],
       inserted := s.inserted + [th.frame])
  }

  function DoGiveBack(s: State, t: nat): State
    requires At(s, t).Unfilling?
  {
    var th := s.threads[t];
    s.(threads := s.threads[t := Done(th.caller, Success)], freeRx := s.freeRx + [th.node])
  }

  // ---- reading ----

  /** The first queued frame the READ accepts is taken off the queue. */
  function DoCheckQueue(s: State, t: nat): State
    requires At(s, t).Checking? && Indexed(s)
  {
    var th := s.threads[t];
    match FirstWanted(Frames(s.queue, s.store), th.ifIndex, 0)
    case Some(k) =>
      var f := s.store[s.queue[k]];
      Goto(s, t, Copying(th.irp, s.queue[k], f)).(queue := Without(s.queue, k), dequeued := s.dequeued + [f])
    case None => Goto(s, t, Parking(th.irp, th.ifIndex, th.file))
  }

  /** Outside the lock the node is copied to the reader. */
  function DoCopy(s: State, t: nat): State
    requires At(s, t).Copying? && s.threads[t].node < |s.store|
  {
    var th := s.threads[t];
    Goto(s, t, Returning(th.irp, th.node, s.store[th.node]))
  }

  function DoReturnRx(s: State, t: nat): State
    requires At(s, t).Returning?
  {
    var th := s.threads[t];
    s.(threads := s.threads[t := Finishing(th.irp, Answer(Success, Some(th.frame)))], freeRx := s.freeRx + [th.node])
  }

  function DoPark(s: State, t: nat): State
    requires At(s, t).Parking?
  {
    var th := s.threads[t];
    s.(threads := s.threads[t := Idle], pending := s.pending + [Waiter(th.irp, th.ifIndex, th.file)])
  }

  // ---- sending ----

  function DoTakeTx(s: State, t: nat): State
    requires At(s, t).Acquiring?
  {
    var th := s.threads[t];
    if s.freeTx == [] then Goto(s, t, Finishing(th.irp, Answer(Busy, Option.None)))
    else Goto(s, t, Loading(th.irp, s.freeTx[0])).(freeTx := s.freeTx[1..])
  }

  function DoSubmit(s: State, t: nat, ok: bool): State
    requires At(s, t).Loading?
  {
    var th := s.threads[t];
    if ok then Goto(s, t, Idle).(inflight := s.inflight + [Sent(th.irp, th.node)])
    else Goto(s, t, Unloading(th.irp, th.node))
  }

  function DoReturnFailed(s: State, t: nat): State
    requires At(s, t).Unloading?
  {
    var th := s.threads[t];
    s.(threads := s.threads[t := Finishing(th.irp, Answer(NoResources, Option.None))], freeTx := s.freeTx + [th.node])
  }

  /** The miniport completes any of the sends in flight. */
  function DoSendComplete(s: State, t: nat, k: nat, ok: bool): State
    requires t < |s.threads| && k < |s.inflight|
  {
    s.(threads := s.threads[t := SendDone(s.inflight[k].irp, s.inflight[k].node, ok)],
        inflight := Without(s.inflight, k))
  }

  function DoReturnTx(s: State, t: nat): State
    requires At(s, t).SendDone?
  {
    var th := s.threads[t];
    s.(threads := s.threads[t := Finishing(th.irp, Answer(if th.ok then Success else Unsuccessful, Option.None))],
       freeTx := s.freeTx + [th.node])
  }

  // ---- requests, cleanup, cancellation ----

  function DoDispatch(s: State, t: nat, irp: nat, r: Request): State
    requires t < |s.threads|
  {
    if r.Inject? then Goto(s, t, Began(irp, r)).(issued := s.issued + [irp], arrived := s.arrived + [r.frame])
    else Goto(s, t, Began(irp, r)).(issued := s.issued + [irp])
  }

  function DoCleanNext(s: State, t: nat): State
    requires At(s, t).Cleaning?
  {
    var th := s.threads[t];
    match FirstWaiter(s.pending, ByFile(th.file), 0)
    case Some(k) => TakeWaiter(s, t, k, CleaningVictim(th.irp, th.file, s.pending[k].irp))
    case None => Goto(s, t, Finishing(th.irp, Answer(Success, Option.None)))
  }

  function DoCleanVictim(s: State, t: nat): State
    requires At(s, t).CleaningVictim?
  {
    var th := s.threads[t];
    Complete(s, t, Completion(th.victim, Answer(Cancelled, Option.None)), Cleaning(th.irp, th.file))
  }

  function DoDrainNext(s: State, t: nat): State
    requires At(s, t).Draining?
  {
    match FirstWaiter(s.pending, Any, 0)
    case Some(k) => TakeWaiter(s, t, k, DrainingVictim(s.pending[k].irp))
    case None => Goto(s, t, Idle)
  }

  function DoDrainVictim(s: State, t: nat): State
    requires At(s, t).DrainingVictim?
  {
    Complete(s, t, Completion(s.threads[t].victim, Answer(Removed, Option.None)), Draining)
  }

  /** The I/O manager cancels a waiting READ. */
  function DoCancel(s: State, t: nat, k: nat): State
    requires t < |s.threads| && k < |s.pending|
  {
    TakeWaiter(s, t, k, Cancelling(s.pending[k].irp))
  }

  function DoCancelVictim(s: State, t: nat): State
    requires At(s, t).Cancelling?
  {
    Complete(s, t, Completion(s.threads[t].victim, Answer(Cancelled, Option.None)), Idle)
  }

  function DoFinish(s: State, t: nat): State
    requires At(s, t).Finishing?
  {
    var th := s.threads[t];
    var e := Complete(s, t, Completion(th.irp, th.answer), Idle);
    if th.answer.frame.Some? then e.(delivered := s.delivered + [th.answer.frame.value]) else e
  }

  function Apply(s: State, a: Action): State
    requires Enabled(s, a)
  {
    match a
    case Indicate(t, f) => DoIndicate(s, t, f)
    case Dispatch(t, irp, r) => DoDispatch(s, t, irp, r)
    case FindWaiter(t) => DoFindWaiter(s, t)
    case HandOver(t, ok) => DoHandOver(s, t, ok)
    case TakeRx(t) => DoTakeRx(s, t)
    case Fill(t, ok) => DoFill(s, t, ok)
    case Enqueue(t) => DoEnqueue(s, t)
    case GiveBack(t) => DoGiveBack(s, t)
    case CheckQueue(t) => DoCheckQueue(s, t)
    case Copy(t) => DoCopy(s, t)
    case ReturnRx(t) => DoReturnRx(s, t)
    case Park(t) => DoPark(s, t)
    case TakeTx(t) => DoTakeTx(s, t)
    case Submit(t, ok) => DoSubmit(s, t, ok)
    case ReturnFailed(t) => DoReturnFailed(s, t)
    case SendComplete(t, k, ok) => DoSendComplete(s, t, k, ok)
    case ReturnTx(t) => DoReturnTx(s, t)
    case CleanNext(t) => DoCleanNext(s, t)
    case CleanVictim(t) => DoCleanVictim(s, t)
    case StartDrain(t) => Goto(s, t, Draining)
    case DrainNext(t) => DoDrainNext(s, t)
    case DrainVictim(t) => DoDrainVictim(s, t)
    case Cancel(t, k) => DoCancel(s, t, k)
    case CancelVictim(t) => DoCancelVictim(s, t)
    case Finish(t) => DoFinish(s, t)
  }

  function Upto(n: nat): (r: seq<nat>)
    ensures |r| == n && forall i :: 0 <= i < n ==> r[i] == i
  {
    seq(n, i => i)
  }

  /** After the driver has started, with any number of threads. */
  function Started(threads: nat): State {
    State(seq(threads, _ => Idle), Upto(RX_NODES), [], Upto(TX_NODES), seq(RX_NODES, _ => Frame(0, [])),
          [], [], [], [], [], [], [], [], [], [])
  }

  /** The run is possible from `s` and ends in `e`. */
  ghost predicate Runs(s: State, run: seq<Action>, e: State)
    decreases |run|
  {
    if run == [] then e == s
    else Enabled(s, run[0]) && Runs(Apply(s, run[0]), run[1..], e)
  }
}
