/** The hook bus: threads that evaluate packets, clients, and one dispatcher, as a machine of atomic steps. */
module Hook {
  import opened Bytes
  import opened Wrappers

  type Flow = string
  datatype Verdict = Accept | Drop

  /** A client's answer to an event. */
  datatype Ruling = Ruling(action: Verdict, delayMs: nat, ttlMs: nat, tag: Option<string>)

  /** A ruling that holds for a whole flow until it expires. */
  datatype Entry = Entry(action: Verdict, delayMs: nat, tag: Option<string>, expires: nat)

  /** What travels to the dispatcher; `decision` asks for the one place of decider. */
  datatype Msg =
    | Dispatch(id: nat, flow: Flow, deadline: nat)
    | Hello(client: nat, decision: bool)
    | ClientVerdict(client: nat, id: nat, ruling: Ruling)
    | GetStats
    | Disconnect(client: nat)

  datatype Waiting = Waiting(flow: Flow, deadline: nat)

  /** A reply and who gave it; the default comes from nobody. */
  datatype Reply = Reply(ruling: Ruling, judge: Option<nat>)

  /** A ruling by the decider on an event of a flow. */
  datatype Judgement = Judgement(client: nat, id: nat, flow: Flow, ruling: Ruling)

  datatype Config = Config(defaultAction: Verdict, ttlCap: nat, capacity: nat)

  /** The dispatcher's own data and what it shares: the flag that says whether there is a decider, the flow cache,
      the replies, the events whose reply will never come, and how often the decider was too slow. `judged` is
      the history of rulings. */
  datatype Desk = Desk(clients: map<nat, bool>, decider: Option<nat>, hasDecider: bool, pending: map<nat, Waiting>,
                       flows: map<Flow, Entry>, replies: map<nat, Reply>, lost: set<nat>, slow: nat,
                       judged: set<Judgement>)

  const MAX_PENDING := 1024
  const MAX_FLOWS := 256

  function DefaultReply(cfg: Config): Reply {
    Reply(Ruling(cfg.defaultAction, 0, 0, Option.None), Option.None)
  }

  function Overdue(pending: map<nat, Waiting>, now: nat): set<nat> {
    set id | id in pending && pending[id].deadline <= now
  }

  /** Overdue events are forgotten when there are too many; their reply senders go with them. */
  function Pruned(d: Desk, now: nat): Desk {
    if |d.pending| > MAX_PENDING then
      d.(pending := d.pending - Overdue(d.pending, now), lost := d.lost + Overdue(d.pending, now))
    else d
  }

  function OnHello(d: Desk, client: nat, decision: bool): Desk {
    if decision && d.decider == Option.None then
      d.(decider := Some(client), hasDecider := true, clients := d.clients[client := true])
    else d.(clients := d.clients[client := false])
  }

  /** `room` says whether the decider's queue takes the event. */
  function OnDispatch(d: Desk, cfg: Config, id: nat, w: Waiting, now: nat, room: bool): Desk {
    var p := Pruned(d, now);
    if d.decider == Option.None || d.decider.value !in d.clients then
      p.(replies := p.replies[id := DefaultReply(cfg)])
    else if !room then p.(replies := p.replies[id := DefaultReply(cfg)], slow := p.slow + 1)
    else p.(pending := p.pending[id := w])
  }

  function OnVerdict(d: Desk, cfg: Config, client: nat, id: nat, r: Ruling, now: nat): Desk {
    if d.decider != Some(client) || id !in d.pending then d
    else
      var flow := d.pending[id].flow;
      d.(pending := d.pending - {id}, replies := d.replies[id := Reply(r, Some(client))],
         judged := d.judged + {Judgement(client, id, flow, r)},
         flows := if r.ttlMs > 0 then d.flows[flow := Entry(r.action, r.delayMs, r.tag, now + Min(r.ttlMs, cfg.ttlCap))]
                  else d.flows)
  }

  function Defaults(pending: map<nat, Waiting>, cfg: Config): map<nat, Reply> {
    map id | id in pending :: DefaultReply(cfg)
  }

  function OnDisconnect(d: Desk, cfg: Config, client: nat): Desk {
    var e := d.(clients := d.clients - {client});
    if d.decider != Some(client) then e
    else e.(decider := Option.None, hasDecider := false, pending := map[],
        replies := d.replies + Defaults(d.pending, cfg))
  }

  /** One message through the dispatcher. */
  function Handle(d: Desk, cfg: Config, m: Msg, now: nat, room: bool): Desk {
    match m
    case Dispatch(id, flow, deadline) => OnDispatch(d, cfg, id, Waiting(flow, deadline), now, room)
    case Hello(client, decision) => OnHello(d, client, decision)
    case ClientVerdict(client, id, r) => OnVerdict(d, cfg, client, id, r, now)
    case GetStats => d
    case Disconnect(client) => OnDisconnect(d, cfg, client)
  }

  // ---- evaluating threads ----

  datatype Source = Cached | NoClient | Backpressure | Decider(id: nat) | Timeout | DeciderGone

  /** Where a thread is in `evaluate`; `Counting` has its verdict and has not counted the outcome yet. */
  datatype Eval =
    | Resting
    | Looking(flow: Flow)
    | Checking(flow: Flow)
    | Building(flow: Flow)
    | Numbered(flow: Flow, id: nat)
    | Awaiting(flow: Flow, id: nat)
    | Counting(flow: Flow, action: Verdict, source: Source)

  /** The counters; `refused` and the desk's `slow` are the two halves of the one backpressure counter. */
  datatype Stats = Stats(seen: nat, cached: nat, decided: nat, noClient: nat, timeout: nat, refused: nat,
                         deciderGone: nat, accepted: nat, dropped: nat)

  datatype Final = Final(flow: Flow, action: Verdict, source: Source)

  /** `asked`, `returned` and `greeted` are histories: the flow of each event, the verdicts given, the clients that
      have said hello. */
  datatype State = State(evals: seq<Eval>, channel: seq<Msg>, desk: Desk, nextId: nat, stats: Stats,
                         asked: map<nat, Flow>, returned: seq<Final>, greeted: set<nat>)

  datatype Action =
    | Begin(e: nat, flow: Flow)
    | Lookup(e: nat, now: nat)
    | Check(e: nat)
    | Number(e: nat)
    | Post(e: nat, deadline: nat)
    | Receive(e: nat)
    | Expire(e: nat)
    | Abandon(e: nat)
    | Count(e: nat)
    | Send(m: Msg)
    | Step(now: nat, room: bool)

  predicate Enabled(s: State, cfg: Config, a: Action) {
    match a
    case Begin(e, _) => e < |s.evals| && s.evals[e].Resting?
    case Lookup(e, _) => e < |s.evals| && s.evals[e].Looking?
    case Check(e) => e < |s.evals| && s.evals[e].Checking?
    case Number(e) => e < |s.evals| && s.evals[e].Building?
    case Post(e, _) => e < |s.evals| && s.evals[e].Numbered?
    case Receive(e) => e < |s.evals| && s.evals[e].Awaiting? && s.evals[e].id in s.desk.replies
    case Expire(e) => e < |s.evals| && s.evals[e].Awaiting?
    case Abandon(e) => e < |s.evals| && s.evals[e].Awaiting? && s.evals[e].id in s.desk.lost
    case Count(e) => e < |s.evals| && s.evals[e].Counting?
    case Send(m) => |s.channel| < cfg.capacity && !m.Dispatch? && (m.Hello? ==> m.client !in s.greeted)
    case Step(_, _) => s.channel != []
  }

  function To(s: State, e: nat, ev: Eval): State
    requires e < |s.evals|
  {
    s.(evals := s.evals[e := ev])
  }

  function Unexpired(flows: map<Flow, Entry>, now: nat): map<Flow, Entry> {
    map f | f in flows && flows[f].expires > now :: flows[f]
  }

  function DoLookup(s: State, e: nat, now: nat): State
    requires e < |s.evals| && s.evals[e].Looking?
  {
    var flow, flows := s.evals[e].flow, s.desk.flows;
    if flow in flows && flows[flow].expires > now then
      To(s, e, Counting(flow, flows[flow].action, Cached)).(stats := s.stats.(cached := s.stats.cached + 1))
    else if |flows| > MAX_FLOWS then To(s, e, Checking(flow)).(desk := s.desk.(flows := Unexpired(flows, now)))
    else To(s, e, Checking(flow))
  }

  function DoCheck(s: State, cfg: Config, e: nat): State
    requires e < |s.evals| && s.evals[e].Checking?
  {
    if s.desk.hasDecider then To(s, e, Building(s.evals[e].flow))
    else
      To(s, e, Counting(s.evals[e].flow, cfg.defaultAction, NoClient))
        .(stats := s.stats.(noClient := s.stats.noClient + 1))
  }

  function DoNumber(s: State, e: nat): State
    requires e < |s.evals| && s.evals[e].Building?
  {
    To(s, e, Numbered(s.evals[e].flow, s.nextId))
      .(nextId := s.nextId + 1, asked := s.asked[s.nextId := s.evals[e].flow])
  }

  /** A full channel is not waited for. */
  function DoPost(s: State, cfg: Config, e: nat, deadline: nat): State
    requires e < |s.evals| && s.evals[e].Numbered?
  {
    var ev := s.evals[e];
    if |s.channel| < cfg.capacity then
      To(s, e, Awaiting(ev.flow, ev.id)).(channel := s.channel + [Dispatch(ev.id, ev.flow, deadline)])
    else
      To(s, e, Counting(ev.flow, cfg.defaultAction, Backpressure))
        .(stats := s.stats.(refused := s.stats.refused + 1), desk := s.desk.(lost := s.desk.lost + {ev.id}))
  }

  function DoReceive(s: State, e: nat): State
    requires e < |s.evals| && s.evals[e].Awaiting? && s.evals[e].id in s.desk.replies
  {
    var ev := s.evals[e];
    To(s, e, Counting(ev.flow, s.desk.replies[ev.id].ruling.action, Decider(ev.id)))
      .(stats := s.stats.(decided := s.stats.decided + 1))
  }

  function DoCount(s: State, e: nat): State
    requires e < |s.evals| && s.evals[e].Counting?
  {
    var ev := s.evals[e];
    To(s, e, Resting)
      .(stats := if ev.action == Accept then s.stats.(accepted := s.stats.accepted + 1)
                 else s.stats.(dropped := s.stats.dropped + 1),
        returned := s.returned + [Final(ev.flow, ev.action, ev.source)])
  }

  function Apply(s: State, cfg: Config, a: Action): State
    requires Enabled(s, cfg, a)
  {
    match a
    case Begin(e, flow) => To(s, e, Looking(flow)).(stats := s.stats.(seen := s.stats.seen + 1))
    case Lookup(e, now) => DoLookup(s, e, now)
    case Check(e) => DoCheck(s, cfg, e)
    case Number(e) => DoNumber(s, e)
    case Post(e, deadline) => DoPost(s, cfg, e, deadline)
    case Receive(e) => DoReceive(s, e)
    case Expire(e) =>
      To(s, e, Counting(s.evals[e].flow, cfg.defaultAction, Timeout))
        .(stats := s.stats.(timeout := s.stats.timeout + 1))
    case Abandon(e) =>
      To(s, e, Counting(s.evals[e].flow, cfg.defaultAction, DeciderGone))
        .(stats := s.stats.(deciderGone := s.stats.deciderGone + 1))
    case Count(e) => DoCount(s, e)
    case Send(m) =>
      s.(channel := s.channel + [m], greeted := if m.Hello? then s.greeted + {m.client} else s.greeted)
    case Step(now, room) =>
      s.(channel := s.channel[1..], desk := Handle(s.desk, cfg, s.channel[0], now, room))
  }

  function Started(evals: nat): State {
    State(seq(evals, _ => Resting), [], Desk(map[], Option.None, false, map[], map[], map[], {}, 0, {}), 1,
          Stats(0, 0, 0, 0, 0, 0, 0, 0, 0), map[], [], {})
  }

  ghost predicate Runs(s: State, cfg: Config, run: seq<Action>, e: State)
    decreases |run|
  {
    if run == [] then e == s
    else Enabled(s, cfg, run[0]) && Runs(Apply(s, cfg, run[0]), cfg, run[1..], e)
  }

  // ---- the dispatcher as it is written ----

  class Dispatcher {
    var clients: map<nat, bool>
    var decider: Option<nat>
    var hasDecider: bool
    var pending: map<nat, Waiting>
    var flows: map<Flow, Entry>
    var replies: map<nat, Reply>
    ghost var lost: set<nat>
    var slow: nat
    ghost var judged: set<Judgement>

    ghost function State(): Desk
      reads this
    {
      Desk(clients, decider, hasDecider, pending, flows, replies, lost, slow, judged)
    }

    constructor ()
      ensures State() == Started(0).desk
    {
      clients, decider, hasDecider, pending, flows, replies := map[], Option.None, false, map[], map[], map[];
      lost, slow, judged := {}, 0, {};
    }

    /** The body of the dispatch loop. */
    method HandleMessage(m: Msg, cfg: Config, now: nat, room: bool)
      modifies this
      ensures State() == Handle(old(State()), cfg, m, now, room)
    {
      hide OnDispatch, OnVerdict;
      match m {
        case Hello(client, decision) =>
          var chosen := false;
          if decision && decider == Option.None {
            decider := Some(client);
            hasDecider := true;
            chosen := true;
          }
          clients := clients[client := chosen];
        case Dispatch(id, flow, deadline) => Offer(cfg, id, flow, deadline, now, room);
        case ClientVerdict(client, id, r) => Rule(cfg, client, id, r, now);
        case GetStats =>
        case Disconnect(client) =>
          clients := clients - {client};
          if decider == Some(client) {
            decider := Option.None;
            hasDecider := false;
            Drain(cfg);
          }
      }
    }

    /** An event for the decider. */
    method Offer(cfg: Config, id: nat, flow: Flow, deadline: nat, now: nat, room: bool)
      modifies this
      ensures State() == OnDispatch(old(State()), cfg, id, Waiting(flow, deadline), now, room)
    {
      if |pending| > MAX_PENDING { Prune(now); }
      if decider == Option.None {
        replies := replies[id := DefaultReply(cfg)];
        return;
      }
      if decider.value !in clients {
        replies := replies[id := DefaultReply(cfg)];
        return;
      }
      if !room {
        slow := slow + 1;
        replies := replies[id := DefaultReply(cfg)];
        return;
      }
      pending := pending[id := Waiting(flow, deadline)];
    }

    /** A client's answer. */
    method Rule(cfg: Config, client: nat, id: nat, r: Ruling, now: nat)
      modifies this
      ensures State() == OnVerdict(old(State()), cfg, client, id, r, now)
    {
      if decider != Some(client) { return; }
      if id in pending {
        var flow := pending[id].flow;
        pending := pending - {id};
        if r.ttlMs > 0 {
          var ttl := Min(r.ttlMs, cfg.ttlCap);
          flows := flows[flow := Entry(r.action, r.delayMs, r.tag, now + ttl)];
        }
        replies := replies[id := Reply(r, Some(client))];
        judged := judged + {Judgement(client, id, flow, r)};
      }
    }

    method Prune(now: nat)
      modifies this`pending, this`lost
      ensures pending == old(pending) - Overdue(old(pending), now) && lost == old(lost) + Overdue(old(pending), now)
    {
      lost := lost + Overdue(pending, now);
      pending := map id | id in pending && pending[id].deadline > now :: pending[id];
    }

    /** Every waiting event gets the default, in any order. */
    method Drain(cfg: Config)
      modifies this`pending, this`replies
      ensures pending == map[] && replies == old(replies) + Defaults(old(pending), cfg)
    {
      assert pending - pending.Keys == map[];
      while pending != map[]
        invariant pending.Keys <= old(pending).Keys
        invariant replies == old(replies) + Defaults(old(pending) - pending.Keys, cfg)
        decreases |pending|
      {
        ghost var before := pending;
        var id :| id in pending;
        pending := pending - {id};
        assert pending.Keys == before.Keys - {id};
        OneMoreDefault(old(replies), old(pending), cfg, before.Keys, id);
        replies := replies[id := DefaultReply(cfg)];
      }
      assert old(pending) - {} == old(pending);
    }
  }

  lemma {:induction false} OneMoreDefault(replies: map<nat, Reply>, waiting: map<nat, Waiting>, cfg: Config,
      left: set<nat>, id: nat)
    requires id in left && id in waiting
    ensures (replies + Defaults(waiting - left, cfg))[id := DefaultReply(cfg)]
         == replies + Defaults(waiting - (left - {id}), cfg)
  {
    hide DefaultReply;
    var a, b := (replies + Defaults(waiting - left, cfg))[id := DefaultReply(cfg)],
        replies + Defaults(waiting - (left - {id}), cfg);
    assert a.Keys == b.Keys;
    forall i | i in a ensures a[i] == b[i] { }
  }
}
