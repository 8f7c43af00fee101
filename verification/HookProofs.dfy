/** What every interleaving of evaluations, client messages and the dispatcher keeps. */
module HookProofs {
  import opened Bytes
  import opened Counting
  import opened Hook
  import opened Wrappers

  // ---- sums over the evaluating threads ----

  datatype Gauge = HoldsId(id: nat) | IsOpen | IsUndecided

  function Weight(g: Gauge, ev: Eval): nat {
    match g
    case HoldsId(id) => One(ev.Numbered? && ev.id == id)
    case IsOpen => One(!ev.Resting?)
    case IsUndecided => One(!ev.Resting? && !ev.Counting?)
  }

  function Total(g: Gauge, evals: seq<Eval>): nat {
    if evals == [] then 0 else Total(g, evals[..|evals| - 1]) + Weight(g, evals[|evals| - 1])
  }

  lemma {:induction false} TotalUpdate(g: Gauge, evals: seq<Eval>, e: nat, ev: Eval)
    requires e < |evals|
    ensures Total(g, evals[e := ev]) + Weight(g, evals[e]) == Total(g, evals) + Weight(g, ev)
  {
    hide Weight;
    var n := |evals| - 1;
    if e < n {
      TotalUpdate(g, evals[..n], e, ev);
      assert evals[e := ev][..n] == evals[..n][e := ev];
    } else {
      assert evals[e := ev][..n] == evals[..n];
    }
  }

  lemma {:induction false} TotalMember(g: Gauge, evals: seq<Eval>, e: nat)
    requires e < |evals|
    ensures Weight(g, evals[e]) <= Total(g, evals)
  {
    hide Weight;
    var n := |evals| - 1;
    if e < n { TotalMember(g, evals[..n], e); }
  }

  lemma {:induction false} TotalResting(g: Gauge, n: nat)
    ensures Total(g, seq(n, _ => Resting)) == 0
  {
    if n == 0 {
    } else {
      TotalResting(g, n - 1);
      assert seq(n, _ => Resting)[..n - 1] == seq(n - 1, _ => Resting);
    }
  }

  // ---- messages under way ----

  function EventOf(m: Msg): Option<nat> { if m.Dispatch? then Some(m.id) else Option.None }

  function GreetingOf(m: Msg): Option<nat> { if m.Hello? then Some(m.client) else Option.None }

  function Events(channel: seq<Msg>): (r: seq<Option<nat>>)
    ensures |r| == |channel|
  {
    seq(|channel|, i requires 0 <= i < |channel| => EventOf(channel[i]))
  }

  function Greetings(channel: seq<Msg>): (r: seq<Option<nat>>)
    ensures |r| == |channel|
  {
    seq(|channel|, i requires 0 <= i < |channel| => GreetingOf(channel[i]))
  }

  lemma {:induction false} ChannelMore(channel: seq<Msg>, m: Msg, x: nat)
    ensures Occ(Events(channel + [m]), Some(x)) == Occ(Events(channel), Some(x)) + One(EventOf(m) == Some(x))
    ensures Occ(Greetings(channel + [m]), Some(x)) == Occ(Greetings(channel), Some(x)) + One(GreetingOf(m) == Some(x))
  {
    OccMore(Events(channel), EventOf(m), Some(x));
    OccMore(Greetings(channel), GreetingOf(m), Some(x));
    assert Events(channel + [m]) == Events(channel) + [EventOf(m)];
    assert Greetings(channel + [m]) == Greetings(channel) + [GreetingOf(m)];
  }

  lemma {:induction false} ChannelLess(channel: seq<Msg>, x: nat)
    requires channel != []
    ensures Occ(Events(channel[1..]), Some(x)) + One(EventOf(channel[0]) == Some(x)) == Occ(Events(channel), Some(x))
    ensures Occ(Greetings(channel[1..]), Some(x)) + One(GreetingOf(channel[0]) == Some(x))
         == Occ(Greetings(channel), Some(x))
  {
    OccHead(Events(channel), Some(x));
    OccHead(Greetings(channel), Some(x));
    assert Events(channel)[1..] == Events(channel[1..]);
    assert Greetings(channel)[1..] == Greetings(channel[1..]);
  }

  // ---- at most one decider ----

  /** The flag mirrors the decider, who is a client; every client in decision mode is the decider. */
  ghost predicate OneDecider(d: Desk) {
    && d.hasDecider == d.decider.Some?
    && (d.decider.Some? ==> d.decider.value in d.clients)
    && (forall c :: c in d.clients ==> (d.clients[c] <==> d.decider == Some(c)))
  }

  lemma {:induction false} HelloKeeps(d: Desk, client: nat, decision: bool)
    requires OneDecider(d) && client !in d.clients
    ensures OneDecider(OnHello(d, client, decision))
    ensures OnHello(d, client, decision).clients.Keys == d.clients.Keys + {client}
  {
  }

  lemma {:induction false} DisconnectKeeps(d: Desk, cfg: Config, client: nat)
    requires OneDecider(d)
    ensures OneDecider(OnDisconnect(d, cfg, client))
    ensures OnDisconnect(d, cfg, client).clients.Keys <= d.clients.Keys
  {
    hide Defaults;
  }

  lemma {:induction false} PrunedStays(d: Desk, now: nat)
    ensures var p := Pruned(d, now);
            && p.clients == d.clients && p.decider == d.decider && p.hasDecider == d.hasDecider
            && p.flows == d.flows && p.judged == d.judged && p.replies == d.replies && p.slow == d.slow
  {
    hide Overdue;
  }

  lemma {:induction false} DispatchStays(d: Desk, cfg: Config, id: nat, w: Waiting, now: nat, room: bool)
    ensures var e := OnDispatch(d, cfg, id, w, now, room);
            && e.clients == d.clients && e.decider == d.decider && e.hasDecider == d.hasDecider
            && e.flows == d.flows && e.judged == d.judged
  {
    hide Pruned, DefaultReply;
    PrunedStays(d, now);
  }

  lemma {:induction false} VerdictStays(d: Desk, cfg: Config, client: nat, id: nat, r: Ruling, now: nat)
    ensures var e := OnVerdict(d, cfg, client, id, r, now);
            e.clients == d.clients && e.decider == d.decider && e.hasDecider == d.hasDecider
  {
  }

  lemma {:induction false} DeciderKept(d: Desk, cfg: Config, m: Msg, now: nat, room: bool)
    requires OneDecider(d) && (m.Hello? ==> m.client !in d.clients)
    ensures OneDecider(Handle(d, cfg, m, now, room))
    ensures Handle(d, cfg, m, now, room).clients.Keys <= d.clients.Keys + (if m.Hello? then {m.client} else {})
  {
    hide OnHello, OnDispatch, OnVerdict, OnDisconnect;
    match m {
      case Hello(client, decision) => HelloKeeps(d, client, decision);
      case Disconnect(client) => DisconnectKeeps(d, cfg, client);
      case Dispatch(id, flow, deadline) => DispatchStays(d, cfg, id, Waiting(flow, deadline), now, room);
      case ClientVerdict(client, id, r) => VerdictStays(d, cfg, client, id, r, now);
      case GetStats =>
    }
  }

  /** A client says hello once, so it is not registered while its greeting is under way. */
  ghost predicate GreetOnce(s: State) {
    forall c: nat :: Occ(Greetings(s.channel), Some(c)) + One(c in s.desk.clients) <= One(c in s.greeted)
  }

  // ---- every event has one fate ----

  function DeskSum(d: Desk, id: nat): nat {
    One(id in d.pending) + One(id in d.replies) + One(id in d.lost)
  }

  function IdSum(s: State, id: nat): nat {
    Total(HoldsId(id), s.evals) + Occ(Events(s.channel), Some(id)) + DeskSum(s.desk, id)
  }

  lemma {:induction false} DeskIds(d: Desk, cfg: Config, m: Msg, now: nat, room: bool, id: nat)
    requires DeskSum(d, id) <= 1 && (EventOf(m) == Some(id) ==> DeskSum(d, id) == 0)
    ensures DeskSum(Handle(d, cfg, m, now, room), id) == DeskSum(d, id) + One(EventOf(m) == Some(id))
  {
    hide DefaultReply;
    match m {
      case Dispatch(i, flow, deadline) => PrunedSum(d, now, id);
      case Hello(client, decision) =>
      case ClientVerdict(client, i, r) =>
      case GetStats =>
      case Disconnect(client) =>
    }
  }

  lemma {:induction false} PrunedSum(d: Desk, now: nat, id: nat)
    requires DeskSum(d, id) <= 1
    ensures DeskSum(Pruned(d, now), id) == DeskSum(d, id)
  {
  }

  // ---- traces ----

  ghost predicate MsgTraced(m: Msg, asked: map<nat, Flow>) {
    m.Dispatch? ==> m.id in asked && asked[m.id] == m.flow
  }

  ghost predicate EvalTraced(ev: Eval, asked: map<nat, Flow>) {
    ev.Numbered? || ev.Awaiting? ==> ev.id in asked && asked[ev.id] == ev.flow
  }

  ghost predicate DeskTraced(d: Desk, asked: map<nat, Flow>) {
    && (forall id :: id in d.pending ==> id in asked && asked[id] == d.pending[id].flow)
    && (forall j :: j in d.judged ==> j.id in asked && asked[j.id] == j.flow)
  }

  ghost predicate Traced(s: State) {
    && (forall id :: id in s.asked ==> id < s.nextId)
    && (forall i :: 0 <= i < |s.channel| ==> MsgTraced(s.channel[i], s.asked))
    && (forall e :: 0 <= e < |s.evals| ==> EvalTraced(s.evals[e], s.asked))
    && DeskTraced(s.desk, s.asked)
  }

  // ---- honesty ----

  /** A reply is the default, or the decider's ruling on that very event. */
  ghost predicate HonestReply(d: Desk, cfg: Config, id: nat, r: Reply) {
    match r.judge
    case None => r == DefaultReply(cfg)
    case Some(c) => exists flow :: Judgement(c, id, flow, r.ruling) in d.judged
  }

  /** A cached verdict is a ruling by a decider on an event of that flow. */
  ghost predicate HonestEntry(d: Desk, flow: Flow, x: Entry) {
    exists j :: j in d.judged && j.flow == flow && j.ruling.action == x.action && j.ruling.delayMs == x.delayMs
                && j.ruling.tag == x.tag && j.ruling.ttlMs > 0
  }

  ghost predicate HonestDesk(d: Desk, cfg: Config) {
    && (forall id :: id in d.replies ==> HonestReply(d, cfg, id, d.replies[id]))
    && (forall f :: f in d.flows ==> HonestEntry(d, f, d.flows[f]))
  }

  /** A verdict given for a flow: from the cache, from the decider on an event of that flow, or the default. */
  ghost predicate Justified(d: Desk, cfg: Config, asked: map<nat, Flow>, flow: Flow, action: Verdict, source: Source) {
    match source
    case Cached => exists j :: j in d.judged && j.flow == flow && j.ruling.action == action
    case Decider(id) => id in asked && asked[id] == flow && id in d.replies && d.replies[id].ruling.action == action
    case _ => action == cfg.defaultAction
  }

  ghost predicate EvalJustified(d: Desk, cfg: Config, asked: map<nat, Flow>, ev: Eval) {
    ev.Counting? ==> Justified(d, cfg, asked, ev.flow, ev.action, ev.source)
  }

  ghost predicate FinalJustified(d: Desk, cfg: Config, asked: map<nat, Flow>, v: Final) {
    Justified(d, cfg, asked, v.flow, v.action, v.source)
  }

  ghost predicate Honest(s: State, cfg: Config) {
    && HonestDesk(s.desk, cfg)
    && (forall e :: 0 <= e < |s.evals| ==> EvalJustified(s.desk, cfg, s.asked, s.evals[e]))
    && (forall i :: 0 <= i < |s.returned| ==> FinalJustified(s.desk, cfg, s.asked, s.returned[i]))
  }

  /** Replies and rulings are for ever. */
  ghost predicate Grows(d: Desk, e: Desk) {
    && d.judged <= e.judged
    && (forall id :: id in d.replies ==> id in e.replies && e.replies[id] == d.replies[id])
  }

  lemma {:induction false} DeskGrows(d: Desk, cfg: Config, m: Msg, now: nat, room: bool)
    requires forall id: nat :: DeskSum(d, id) <= 1
    requires m.Dispatch? ==> DeskSum(d, m.id) == 0
    ensures Grows(d, Handle(d, cfg, m, now, room))
  {
    hide DefaultReply, Overdue;
    match m {
      case Dispatch(i, flow, deadline) =>
      case Hello(client, decision) =>
      case ClientVerdict(client, i, r) => assert DeskSum(d, i) <= 1;
      case GetStats =>
      case Disconnect(client) =>
        forall id | id in d.replies ensures id !in d.pending { assert DeskSum(d, id) <= 1; }
    }
  }

  /** Where a reply comes from. */
  lemma {:induction false} NewReply(d: Desk, cfg: Config, m: Msg, now: nat, room: bool, id: nat)
    requires id in Handle(d, cfg, m, now, room).replies && id !in d.replies
    ensures var e := Handle(d, cfg, m, now, room);
            || e.replies[id] == DefaultReply(cfg)
            || (m.ClientVerdict? && m.id == id && id in d.pending && e.replies[id] == Reply(m.ruling, Some(m.client))
                && Judgement(m.client, id, d.pending[id].flow, m.ruling) in e.judged)
  {
    hide DefaultReply, Overdue;
  }

  /** Where a cached verdict comes from. */
  lemma {:induction false} NewEntry(d: Desk, cfg: Config, m: Msg, now: nat, room: bool, f: Flow)
    requires f in Handle(d, cfg, m, now, room).flows
    ensures var e := Handle(d, cfg, m, now, room);
            || (f in d.flows && e.flows[f] == d.flows[f])
            || (m.ClientVerdict? && m.ruling.ttlMs > 0 && Judgement(m.client, m.id, f, m.ruling) in e.judged
                && e.flows[f] == Entry(m.ruling.action, m.ruling.delayMs, m.ruling.tag,
                    now + Min(m.ruling.ttlMs, cfg.ttlCap)))
  {
    hide DefaultReply, OnDispatch, Defaults;
    match m {
      case Dispatch(id, flow, deadline) => DispatchStays(d, cfg, id, Waiting(flow, deadline), now, room);
      case _ =>
    }
  }

  lemma {:induction false} DeskHonest(d: Desk, cfg: Config, m: Msg, now: nat, room: bool)
    requires HonestDesk(d, cfg) && Grows(d, Handle(d, cfg, m, now, room))
    ensures HonestDesk(Handle(d, cfg, m, now, room), cfg)
  {
    hide Handle;
    var e := Handle(d, cfg, m, now, room);
    forall id | id in e.replies ensures HonestReply(e, cfg, id, e.replies[id]) {
      if id in d.replies { StillHonest(d, e, cfg, id); } else { NewReply(d, cfg, m, now, room, id); }
    }
    forall f | f in e.flows ensures HonestEntry(e, f, e.flows[f]) {
      NewEntry(d, cfg, m, now, room, f);
      if f in d.flows && e.flows[f] == d.flows[f] { assert HonestEntry(d, f, d.flows[f]); }
    }
  }

  lemma {:induction false} StillHonest(d: Desk, e: Desk, cfg: Config, id: nat)
    requires Grows(d, e) && id in d.replies && HonestReply(d, cfg, id, d.replies[id])
    ensures HonestReply(e, cfg, id, e.replies[id])
  {
  }

  lemma {:induction false} StillJustified(d: Desk, e: Desk, cfg: Config, asked: map<nat, Flow>, more: map<nat, Flow>,
                                          flow: Flow, action: Verdict, source: Source)
    requires Grows(d, e) && Justified(d, cfg, asked, flow, action, source)
    requires forall id :: id in asked ==> id in more && more[id] == asked[id]
    ensures Justified(e, cfg, more, flow, action, source)
  {
  }

  /** Only the decider rules, and only on an event it was given. */
  lemma {:induction false} OnlyDeciderRules(d: Desk, cfg: Config, m: Msg, now: nat, room: bool, j: Judgement)
    requires j in Handle(d, cfg, m, now, room).judged && j !in d.judged
    ensures m.ClientVerdict? && d.decider == Some(j.client) && m.client == j.client && m.id == j.id
          && m.ruling == j.ruling
    ensures j.id in d.pending && d.pending[j.id].flow == j.flow
  {
    hide DefaultReply, Overdue, Defaults;
  }

  // ---- the counters ----

  /** Every packet seen has its outcome counted, or is still open; and has one cause, counting the slow decider's
      events a second time as the program does. */
  ghost predicate Counted(s: State) {
    && s.stats.seen == s.stats.accepted + s.stats.dropped + Total(IsOpen, s.evals)
    && s.stats.seen + s.desk.slow == s.stats.cached + s.stats.decided + Fallbacks(s) + Total(IsUndecided, s.evals)
  }

  /** The sum that the snapshot reports as fallback. */
  function Fallbacks(s: State): nat {
    s.stats.noClient + s.stats.timeout + (s.stats.refused + s.desk.slow) + s.stats.deciderGone
  }
}
