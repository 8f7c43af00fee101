/** Round-trip measurement from echoed send times, between two nodes whose clocks differ by an
    unknown constant and whose channel loses, repeats and reorders reports. */
module RoundTripTime {
  import opened Bytes
  import opened Wrappers

  const NO_DELAY: u32 := 0xFFFF_FFFF
  /** The longest holding time that an echo can state. */
  const LONGEST_HOLD: u32 := 0xFFFF_FFFE

  datatype Report = Report(sendTs: u64, lsr: u64, dlsr: u32)

  datatype Tracker = Tracker(peerSendTs: u64, peerRecv: Option<u64>, rtt: Option<u64>)

  function Echoed(t: Tracker, now: u64): (u64, u32) {
    var dlsr: u32 :=
      if t.peerRecv.Some? && now >= t.peerRecv.value then
        var held := now - t.peerRecv.value;
        if held < LONGEST_HOLD then held else LONGEST_HOLD
      else NO_DELAY;
    (t.peerSendTs, dlsr)
  }

  function Heard(t: Tracker, now: u64, r: Report): Tracker {
    var total := SatAdd(r.lsr, if r.dlsr == NO_DELAY then 0 else r.dlsr);
    Tracker(r.sendTs, Some(now), if r.lsr != 0 && now >= total then Some(now - total) else t.rtt)
  }

  class RttTracker {
    var peerSendTs: u64
    var peerRecv: Option<u64>
    var rtt: Option<u64>

    constructor ()
      ensures View() == Tracker(0, Option.None, Option.None)
    {
      peerSendTs := 0;
      peerRecv := Option.None;
      rtt := Option.None;
    }

    ghost function View(): Tracker
      reads this
    {
      Tracker(peerSendTs, peerRecv, rtt)
    }

    method OnPeerReport(now: u64, r: Report)
      modifies this
      ensures View() == Heard(old(View()), now, r)
    {
      peerSendTs := r.sendTs;
      peerRecv := Some(now);
      if r.lsr != 0 {
        var dlsr: u64 := if r.dlsr == NO_DELAY then 0 else r.dlsr;
        var total := SatAdd(r.lsr, dlsr);
        if now >= total {
          rtt := Some(now - total);
        }
      }
    }

    method Echo(now: u64) returns (lsr: u64, dlsr: u32)
      ensures (lsr, dlsr) == Echoed(View(), now)
    {
      lsr := peerSendTs;
      dlsr := NO_DELAY;
      if peerRecv.Some? && now >= peerRecv.value {
        var held := now - peerRecv.value;
        dlsr := if held < LONGEST_HOLD then held else LONGEST_HOLD;
      }
    }
  }

  // ---- two nodes and a channel ----

  /** A delivery: which sent report, and when. */
  datatype Delivery = Delivery(index: nat, at: int)

  /** A report that was sent, by whom and when, and the delivery whose report it echoes. */
  datatype Sent = Sent(fromA: bool, at: int, report: Report, echo: Option<Delivery>)

  /** `now` is the time of an observer; a node's clock shows it plus the node's offset.
      Every report ever sent stays in `log`: it may be delivered late, again or never. */
  datatype World = World(now: int, a: Tracker, b: Tracker, heardA: Option<Delivery>, heardB: Option<Delivery>,
                         log: seq<Sent>)

  datatype Clocks = Clocks(offsetA: int, offsetB: int)

  datatype Step = Send(fromA: bool, at: int) | Deliver(index: nat, at: int)

  function Clock(c: Clocks, isA: bool, at: int): int {
    at + if isA then c.offsetA else c.offsetB
  }

  predicate Shows(c: Clocks, at: int) {
    0 <= at + c.offsetA <= MAX64 && 0 <= at + c.offsetB <= MAX64
  }

  /** Time does not run backwards, and a report is not delivered before it is sent. */
  predicate Enabled(c: Clocks, w: World, step: Step) {
    w.now <= step.at && Shows(c, step.at) && (step.Deliver? ==> step.index < |w.log|)
  }

  function Init(start: int): World {
    var t := Tracker(0, Option.None, Option.None);
    World(start, t, t, Option.None, Option.None, [])
  }

  function TrackerOf(w: World, isA: bool): Tracker {
    if isA then w.a else w.b
  }

  function HeardOf(w: World, isA: bool): Option<Delivery> {
    if isA then w.heardA else w.heardB
  }

  function After(c: Clocks, w: World, step: Step): World
    requires Enabled(c, w, step)
  {
    match step
    case Send(fromA, at) =>
      var (lsr, dlsr) := Echoed(TrackerOf(w, fromA), Clock(c, fromA, at));
      w.(now := at, log := w.log + [Sent(fromA, at, Report(Clock(c, fromA, at), lsr, dlsr), HeardOf(w, fromA))])
    case Deliver(i, at) =>
      var m := w.log[i];
      if m.fromA
      then w.(now := at, b := Heard(w.b, Clock(c, false, at), m.report), heardB := Some(Delivery(i, at)))
      else w.(now := at, a := Heard(w.a, Clock(c, true, at), m.report), heardA := Some(Delivery(i, at)))
  }

  predicate Legal(c: Clocks, start: int, steps: seq<Step>)
    decreases |steps|, 0
  {
    steps == [] ||
    (var before := steps[..|steps| - 1];
     Legal(c, start, before) && Enabled(c, Run(c, start, before), steps[|steps| - 1]))
  }

  function Run(c: Clocks, start: int, steps: seq<Step>): World
    requires Legal(c, start, steps)
    decreases |steps|, 1
  {
    if steps == [] then Init(start)
    else After(c, Run(c, start, steps[..|steps| - 1]), steps[|steps| - 1])
  }

  // ---- what the nodes know ----

  /** A delivery to a node brought a report of the other node, sent before. */
  predicate Proper(log: seq<Sent>, d: Delivery, isA: bool, latest: int) {
    d.index < |log| && log[d.index].fromA == !isA && log[d.index].at <= d.at <= latest
  }

  /** A node holds the echo material of the last report it heard. */
  predicate Remembers(c: Clocks, w: World, isA: bool) {
    var t := TrackerOf(w, isA);
    var d := HeardOf(w, isA);
    if d.None? then t.peerSendTs == 0 && t.peerRecv.None?
    else
      && Proper(w.log, d.value, isA, w.now)
      && t.peerSendTs == w.log[d.value.index].report.sendTs
      && t.peerRecv == Some(Clock(c, isA, d.value.at))
  }

  function Hold(m: Sent, d: Delivery): int {
    m.at - d.at
  }

  /** A report carries its send time, and the send time and holding time of what it echoes. */
  predicate Truthful(c: Clocks, log: seq<Sent>, m: Sent) {
    && m.report.sendTs == Clock(c, m.fromA, m.at)
    && if m.echo.None? then m.report.lsr == 0
       else
         && Proper(log, m.echo.value, m.fromA, m.at)
         && m.report.lsr == log[m.echo.value.index].report.sendTs
         && m.report.dlsr == if Hold(m, m.echo.value) < LONGEST_HOLD then Hold(m, m.echo.value) else LONGEST_HOLD
  }

  ghost predicate Sound(c: Clocks, w: World) {
    && Remembers(c, w, true) && Remembers(c, w, false)
    && forall i :: 0 <= i < |w.log| ==> w.log[i].at <= w.now && Truthful(c, w.log, w.log[i])
  }

  lemma {:induction false} StepSound(c: Clocks, w: World, step: Step)
    requires Enabled(c, w, step) && Sound(c, w)
    ensures Sound(c, After(c, w, step))
  {
    match step
    case Send(fromA, at) =>
      var after := After(c, w, step);
      forall i | 0 <= i < |after.log| ensures after.log[i].at <= at && Truthful(c, after.log, after.log[i]) {
        if i < |w.log| {
          assert Truthful(c, w.log, w.log[i]);
        } else {
          assert Remembers(c, w, fromA);
        }
      }
    case Deliver(i, at) =>
      assert w.log[i].at <= w.now && Truthful(c, w.log, w.log[i]);
  }

  lemma {:induction false} EveryRunIsSound(c: Clocks, start: int, steps: seq<Step>)
    requires Legal(c, start, steps)
    ensures Sound(c, Run(c, start, steps))
  {
    hide Sound, After, Enabled;
    if steps == [] {
      StartsSound(c, start);
    } else {
      EveryRunIsSound(c, start, steps[..|steps| - 1]);
      StepSound(c, Run(c, start, steps[..|steps| - 1]), steps[|steps| - 1]);
    }
  }

  lemma {:induction false} StartsSound(c: Clocks, start: int)
    ensures Sound(c, Init(start))
  {
  }

  /** How long the copies of a round trip travelled: the copy of our report that the peer heard,
      and the copy of the peer's report that is delivered at `at`. */
  function Travelled(log: seq<Sent>, i: nat, at: int): int
    requires i < |log| && log[i].echo.Some? && log[i].echo.value.index < |log|
  {
    var back := log[i];
    var there := back.echo.value;
    (there.at - log[there.index].at) + (at - back.at)
  }

  lemma {:induction false} SampleIs(c: Clocks, w: World, i: nat, at: int)
    requires Enabled(c, w, Deliver(i, at)) && Sound(c, w) && w.log[i].report.lsr != 0
    ensures w.log[i].echo.Some? && w.log[i].echo.value.index < |w.log|
    ensures var isA := !w.log[i].fromA;
      var hold := Hold(w.log[i], w.log[i].echo.value);
      TrackerOf(After(c, w, Deliver(i, at)), isA).rtt
        == Some(Travelled(w.log, i, at) + if hold > LONGEST_HOLD then hold - LONGEST_HOLD else 0)
  {
    assert w.log[i].at <= w.now && Truthful(c, w.log, w.log[i]);
    var k := w.log[i].echo.value.index;
    assert Truthful(c, w.log, w.log[k]);
  }

  /** In every run, every delivery of a report that echoes a time gives a sample, and the sample is
      the forward delay plus the return delay of the very copies involved, whatever the clock
      offsets, exactly when the peer held our report no longer than an echo can state. */
  lemma {:induction false} SamplesAreDelays(c: Clocks, start: int, steps: seq<Step>, i: nat, at: int)
    requires Legal(c, start, steps) && Enabled(c, Run(c, start, steps), Deliver(i, at))
    requires Run(c, start, steps).log[i].report.lsr != 0
    ensures var w := Run(c, start, steps);
      && w.log[i].echo.Some? && w.log[i].echo.value.index < |w.log|
      && w.log[w.log[i].echo.value.index].fromA == !w.log[i].fromA
      && (TrackerOf(After(c, w, Deliver(i, at)), !w.log[i].fromA).rtt == Some(Travelled(w.log, i, at))
          <==> Hold(w.log[i], w.log[i].echo.value) <= LONGEST_HOLD)
  {
    hide Run, After;
    EveryRunIsSound(c, start, steps);
    var w := Run(c, start, steps);
    assert Truthful(c, w.log, w.log[i]);
    SampleIs(c, w, i, at);
  }

  /** Nothing else changes a sample: sending, and reports that echo nothing, leave it alone. */
  lemma {:induction false} OtherStepsKeepSamples(c: Clocks, w: World, step: Step, isA: bool)
    requires Enabled(c, w, step)
    requires step.Send? || w.log[step.index].fromA == isA || w.log[step.index].report.lsr == 0
    ensures TrackerOf(After(c, w, step), isA).rtt == TrackerOf(w, isA).rtt
  {
  }
}
