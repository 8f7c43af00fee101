/** The hook bus in every interleaving. */
module HookSafety {
  import opened Counting
  import opened Hook
  import opened HookProofs
  import opened Wrappers

  /** Every event number given out has exactly one fate; numbers not given out have none. */
  ghost predicate OneFate(s: State) {
    s.nextId >= 1 && forall id: nat :: IdSum(s, id) == One(1 <= id < s.nextId)
  }

  ghost predicate Sound(s: State, cfg: Config) {
    OneDecider(s.desk) && GreetOnce(s) && OneFate(s) && Traced(s) && Honest(s, cfg) && Counted(s)
  }

  lemma {:induction false} StartedIsSound(n: nat, cfg: Config)
    ensures Sound(Started(n), cfg)
  {
    var s := Started(n);
    forall id: nat ensures IdSum(s, id) == One(1 <= id < s.nextId) { TotalResting(HoldsId(id), n); }
    TotalResting(IsOpen, n);
    TotalResting(IsUndecided, n);
  }

  // ---- what a step of an evaluating thread changes ----

  predicate ByEval(a: Action) {
    !a.Send? && !a.Step?
  }

  /** The first half of an evaluation, before its event is posted. */
  predicate Before(a: Action) {
    a.Begin? || a.Lookup? || a.Check? || a.Number?
  }

  /** What a step of one thread may touch. */
  ghost predicate Moves(s: State, e: nat, t: State) {
    && e < |s.evals| == |t.evals| && t.evals == s.evals[e := t.evals[e]]
    && t.greeted == s.greeted && t.desk.slow == s.desk.slow
    && t.desk == s.desk.(flows := t.desk.flows, lost := t.desk.lost)
    && (forall f :: f in t.desk.flows ==> f in s.desk.flows && t.desk.flows[f] == s.desk.flows[f])
  }

  /** One thread moves; of the shared state only the cache may shrink and the lost events grow. */
  lemma {:induction false} EvalFrame(s: State, cfg: Config, a: Action)
    requires Enabled(s, cfg, a) && ByEval(a)
    ensures Moves(s, a.e, Apply(s, cfg, a))
  {
    hide Moves, Apply, Enabled;
    if Before(a) {
      FrameBefore(s, cfg, a);
    } else {
      FrameAfter(s, cfg, a);
    }
  }

  lemma {:induction false} FrameBefore(s: State, cfg: Config, a: Action)
    requires Enabled(s, cfg, a) && Before(a)
    ensures Moves(s, a.e, Apply(s, cfg, a))
  {
    hide Unexpired, DoPost, DoReceive, DoCount, Handle;
    if a.Lookup? { PrunedFlows(s.desk.flows, a.now); }
  }

  lemma {:induction false} FrameAfter(s: State, cfg: Config, a: Action)
    requires Enabled(s, cfg, a) && ByEval(a) && !Before(a)
    ensures Moves(s, a.e, Apply(s, cfg, a))
  {
    hide DoLookup, DoCheck, DoNumber, Handle;
  }

  lemma {:induction false} PrunedFlows(flows: map<Flow, Entry>, now: nat)
    ensures forall f :: f in Unexpired(flows, now) ==> f in flows && Unexpired(flows, now)[f] == flows[f]
  {
  }

  /** Event numbers pass through a step of thread `e`; `given` says whether it gives out the next one. */
  ghost predicate Passes(s: State, e: nat, t: State, id: nat, given: bool)
    requires e < |s.evals| && e < |t.evals|
  {
    && Weight(HoldsId(id), t.evals[e]) + Occ(Events(t.channel), Some(id)) + DeskSum(t.desk, id)
       == Weight(HoldsId(id), s.evals[e]) + Occ(Events(s.channel), Some(id)) + DeskSum(s.desk, id)
          + One(given && id == s.nextId)
    && t.nextId == s.nextId + One(given)
  }

  /** Where the numbers go: the step passes them on, or gives out the next one. */
  lemma {:induction false} PassesIds(s: State, cfg: Config, a: Action, id: nat)
    requires Enabled(s, cfg, a) && ByEval(a)
    requires s.evals[a.e].Numbered? ==> DeskSum(s.desk, s.evals[a.e].id) == 0
    ensures a.e < |s.evals| && |Apply(s, cfg, a).evals| == |s.evals|
    ensures Passes(s, a.e, Apply(s, cfg, a), id, a.Number?)
  {
    hide Passes, Apply, Enabled, DeskSum;
    if Before(a) {
      PassesBefore(s, cfg, a, id);
    } else {
      PassesAfter(s, cfg, a, id);
    }
  }

  lemma {:induction false} PassesBefore(s: State, cfg: Config, a: Action, id: nat)
    requires Enabled(s, cfg, a) && Before(a)
    ensures a.e < |s.evals| && |Apply(s, cfg, a).evals| == |s.evals|
    ensures Passes(s, a.e, Apply(s, cfg, a), id, a.Number?)
  {
    hide Occ, Events, Unexpired, DoPost, DoReceive, DoCount, Handle;
  }

  lemma {:induction false} PassesAfter(s: State, cfg: Config, a: Action, id: nat)
    requires Enabled(s, cfg, a) && ByEval(a) && !Before(a)
    requires s.evals[a.e].Numbered? ==> DeskSum(s.desk, s.evals[a.e].id) == 0
    ensures a.e < |s.evals| && |Apply(s, cfg, a).evals| == |s.evals|
    ensures Passes(s, a.e, Apply(s, cfg, a), id, false)
  {
    hide Occ, Events, DoLookup, DoCheck, DoNumber, Handle;
    if a.Post? { ChannelMore(s.channel, Dispatch(s.evals[a.e].id, s.evals[a.e].flow, a.deadline), id); }
  }

  lemma {:induction false} NumberedIsFresh(s: State, e: nat)
    requires OneFate(s) && e < |s.evals| && s.evals[e].Numbered?
    ensures DeskSum(s.desk, s.evals[e].id) == 0
  {
    hide Total, Occ, Events, DeskSum;
    var id := s.evals[e].id;
    TotalMember(HoldsId(id), s.evals, e);
    assert IdSum(s, id) == One(1 <= id < s.nextId);
  }

  lemma {:induction false} EvalIds(s: State, cfg: Config, a: Action, id: nat)
    requires Enabled(s, cfg, a) && ByEval(a) && OneFate(s)
    ensures IdSum(Apply(s, cfg, a), id) == One(1 <= id < Apply(s, cfg, a).nextId)
    ensures Apply(s, cfg, a).nextId >= 1
  {
    hide Total, Occ, Events, DeskSum, Apply, Weight;
    var t := Apply(s, cfg, a);
    EvalFrame(s, cfg, a);
    if s.evals[a.e].Numbered? { NumberedIsFresh(s, a.e); }
    PassesIds(s, cfg, a, id);
    TotalUpdate(HoldsId(id), s.evals, a.e, t.evals[a.e]);
    assert IdSum(s, id) == One(1 <= id < s.nextId);
  }

  /** What a step of a thread counts. */
  ghost predicate Counts(s: State, e: nat, t: State)
    requires e < |s.evals| && e < |t.evals|
  {
    && t.stats.accepted + t.stats.dropped + Weight(IsOpen, t.evals[e]) + s.stats.seen
       == s.stats.accepted + s.stats.dropped + Weight(IsOpen, s.evals[e]) + t.stats.seen
    && t.stats.cached + t.stats.decided + Fallbacks(t) + Weight(IsUndecided, t.evals[e]) + s.stats.seen
       == s.stats.cached + s.stats.decided + Fallbacks(s) + Weight(IsUndecided, s.evals[e]) + t.stats.seen
  }

  lemma {:induction false} CountsOnce(s: State, cfg: Config, a: Action)
    requires Enabled(s, cfg, a) && ByEval(a)
    ensures a.e < |s.evals| && |Apply(s, cfg, a).evals| == |s.evals| && Counts(s, a.e, Apply(s, cfg, a))
  {
    hide Counts, Apply, Enabled;
    if Before(a) {
      CountsBefore(s, cfg, a);
    } else {
      CountsAfter(s, cfg, a);
    }
  }

  lemma {:induction false} CountsBefore(s: State, cfg: Config, a: Action)
    requires Enabled(s, cfg, a) && Before(a)
    ensures a.e < |s.evals| && |Apply(s, cfg, a).evals| == |s.evals| && Counts(s, a.e, Apply(s, cfg, a))
  {
    hide Unexpired, DoPost, DoReceive, DoCount, Handle;
  }

  lemma {:induction false} CountsAfter(s: State, cfg: Config, a: Action)
    requires Enabled(s, cfg, a) && ByEval(a) && !Before(a)
    ensures a.e < |s.evals| && |Apply(s, cfg, a).evals| == |s.evals| && Counts(s, a.e, Apply(s, cfg, a))
  {
    hide DoLookup, DoCheck, DoNumber, Handle;
  }

  lemma {:induction false} EvalCounts(s: State, cfg: Config, a: Action)
    requires Enabled(s, cfg, a) && ByEval(a) && Counted(s)
    ensures Counted(Apply(s, cfg, a))
  {
    hide Total, Apply, Weight, Fallbacks;
    var t := Apply(s, cfg, a);
    EvalFrame(s, cfg, a);
    CountsOnce(s, cfg, a);
    TotalUpdate(IsOpen, s.evals, a.e, t.evals[a.e]);
    TotalUpdate(IsUndecided, s.evals, a.e, t.evals[a.e]);
  }

  lemma {:induction false} EvalGreets(s: State, cfg: Config, a: Action)
    requires Enabled(s, cfg, a) && ByEval(a) && GreetOnce(s)
    ensures GreetOnce(Apply(s, cfg, a))
  {
    var t := Apply(s, cfg, a);
    EvalFrame(s, cfg, a);
    hide Occ, Greetings;
    if a.Post? && |s.channel| < cfg.capacity {
      var m := Dispatch(s.evals[a.e].id, s.evals[a.e].flow, a.deadline);
      forall c: nat ensures Occ(Greetings(t.channel), Some(c)) == Occ(Greetings(s.channel), Some(c)) {
        ChannelMore(s.channel, m, c);
      }
    } else {
      assert t.channel == s.channel;
    }
  }

  /** Flows are remembered under the numbers they were asked with. */
  lemma {:induction false} AskedGrows(s: State, cfg: Config, a: Action)
    requires Enabled(s, cfg, a) && Traced(s)
    ensures var t := Apply(s, cfg, a);
            && t.nextId >= s.nextId && (forall id :: id in t.asked ==> id < t.nextId)
            && (forall id :: id in s.asked ==> id in t.asked && t.asked[id] == s.asked[id])
  {
    hide Handle, Unexpired, DeskTraced;
  }

  lemma {:induction false} EvalTraces(s: State, cfg: Config, a: Action)
    requires Enabled(s, cfg, a) && ByEval(a) && Traced(s)
    ensures Traced(Apply(s, cfg, a))
  {
    var t := Apply(s, cfg, a);
    AskedGrows(s, cfg, a);
    EvalFrame(s, cfg, a);
    MoverTraced(s, cfg, a);
    ChannelTraced(s, cfg, a);
    hide Apply, Enabled;
    forall e | 0 <= e < |t.evals| ensures EvalTraced(t.evals[e], t.asked) {
      if e != a.e { assert EvalTraced(s.evals[e], s.asked); }
    }
  }

  lemma {:induction false} MoverTraced(s: State, cfg: Config, a: Action)
    requires Enabled(s, cfg, a) && ByEval(a) && Traced(s)
    ensures a.e < |Apply(s, cfg, a).evals| && EvalTraced(Apply(s, cfg, a).evals[a.e], Apply(s, cfg, a).asked)
  {
    hide Unexpired, DeskTraced;
    assert EvalTraced(s.evals[a.e], s.asked);
  }

  lemma {:induction false} ChannelTraced(s: State, cfg: Config, a: Action)
    requires Enabled(s, cfg, a) && ByEval(a) && Traced(s)
    ensures var t := Apply(s, cfg, a); forall i :: 0 <= i < |t.channel| ==> MsgTraced(t.channel[i], t.asked)
  {
    hide Unexpired, DeskTraced;
    AskedGrows(s, cfg, a);
    var t := Apply(s, cfg, a);
    assert EvalTraced(s.evals[a.e], s.asked);
    forall i | 0 <= i < |t.channel| ensures MsgTraced(t.channel[i], t.asked) {
      if i < |s.channel| { assert MsgTraced(s.channel[i], s.asked); }
    }
  }

  lemma {:induction false} EvalHonest(s: State, cfg: Config, a: Action)
    requires Enabled(s, cfg, a) && ByEval(a) && Honest(s, cfg) && Traced(s)
    ensures Honest(Apply(s, cfg, a), cfg)
  {
    hide Apply, Enabled, Justified, HonestDesk, Grows, Traced;
    var t := Apply(s, cfg, a);
    AskedGrows(s, cfg, a);
    EvalFrame(s, cfg, a);
    DeskStaysHonest(s.desk, t.desk, cfg);
    MoverJustified(s, cfg, a);
    ReturnedMore(s, cfg, a);
    forall e | 0 <= e < |t.evals| ensures EvalJustified(t.desk, cfg, t.asked, t.evals[e]) {
      if e != a.e {
        var ev := s.evals[e];
        assert EvalJustified(s.desk, cfg, s.asked, ev);
        if ev.Counting? { StillJustified(s.desk, t.desk, cfg, s.asked, t.asked, ev.flow, ev.action, ev.source); }
      }
    }
    forall i | 0 <= i < |t.returned| ensures FinalJustified(t.desk, cfg, t.asked, t.returned[i]) {
      var v := t.returned[i];
      if i < |s.returned| { assert FinalJustified(s.desk, cfg, s.asked, v); }
      StillJustified(s.desk, t.desk, cfg, s.asked, t.asked, v.flow, v.action, v.source);
    }
  }

  /** Losing events and cached verdicts leaves the rest as honest as it was. */
  lemma {:induction false} DeskStaysHonest(d: Desk, e: Desk, cfg: Config)
    requires HonestDesk(d, cfg) && e == d.(flows := e.flows, lost := e.lost)
    requires forall f :: f in e.flows ==> f in d.flows && e.flows[f] == d.flows[f]
    ensures HonestDesk(e, cfg) && Grows(d, e)
  {
    hide HonestEntry;
    forall id | id in e.replies ensures HonestReply(e, cfg, id, e.replies[id]) {
      assert HonestReply(d, cfg, id, d.replies[id]);
    }
    forall f | f in e.flows ensures HonestEntry(e, f, e.flows[f]) {
      assert HonestEntry(d, f, d.flows[f]);
      SameEntry(d, e, f, e.flows[f]);
    }
  }

  lemma {:induction false} SameEntry(d: Desk, e: Desk, f: Flow, x: Entry)
    requires HonestEntry(d, f, x) && d.judged <= e.judged
    ensures HonestEntry(e, f, x)
  {
  }

  lemma {:induction false} MoverJustified(s: State, cfg: Config, a: Action)
    requires Enabled(s, cfg, a) && ByEval(a) && Honest(s, cfg) && Traced(s)
    ensures var t := Apply(s, cfg, a); a.e < |t.evals| && EvalJustified(t.desk, cfg, t.asked, t.evals[a.e])
  {
    hide Unexpired, HonestReply;
    assert EvalTraced(s.evals[a.e], s.asked);
    if a.Lookup? && s.evals[a.e].flow in s.desk.flows {
      assert HonestEntry(s.desk, s.evals[a.e].flow, s.desk.flows[s.evals[a.e].flow]);
    }
  }

  /** Only counting an outcome returns a verdict, and it is the one that was justified. */
  lemma {:induction false} ReturnedMore(s: State, cfg: Config, a: Action)
    requires Enabled(s, cfg, a) && ByEval(a) && Honest(s, cfg)
    ensures var t := Apply(s, cfg, a);
            && |s.returned| <= |t.returned| <= |s.returned| + 1 && t.returned[..|s.returned|] == s.returned
            && (|t.returned| > |s.returned| ==> FinalJustified(s.desk, cfg, s.asked, t.returned[|s.returned|]))
  {
    hide Unexpired, HonestReply, HonestEntry, Justified;
    assert EvalJustified(s.desk, cfg, s.asked, s.evals[a.e]);
  }

  lemma {:induction false} EvalKeepsSound(s: State, cfg: Config, a: Action)
    requires Enabled(s, cfg, a) && ByEval(a) && Sound(s, cfg)
    ensures Sound(Apply(s, cfg, a), cfg)
  {
    hide Apply, Enabled, GreetOnce, Traced, Honest, Counted, IdSum;
    var t := Apply(s, cfg, a);
    EvalFrame(s, cfg, a);
    EvalGreets(s, cfg, a);
    forall id: nat ensures IdSum(t, id) == One(1 <= id < t.nextId) { EvalIds(s, cfg, a, id); }
    EvalTraces(s, cfg, a);
    EvalHonest(s, cfg, a);
    EvalCounts(s, cfg, a);
    assert t.nextId >= 1 by { EvalIds(s, cfg, a, 0); }
    assert OneDecider(t.desk);
  }

  // ---- messages from clients, and the dispatcher ----

  lemma {:induction false} SendKeepsSound(s: State, cfg: Config, m: Msg)
    requires Enabled(s, cfg, Send(m)) && Sound(s, cfg)
    ensures Sound(Apply(s, cfg, Send(m)), cfg)
  {
    var t := Apply(s, cfg, Send(m));
    hide Occ, Greetings, Events, Total, HonestDesk, Justified, DeskTraced, Fallbacks;
    forall c: nat ensures Occ(Greetings(t.channel), Some(c)) + One(c in t.desk.clients) <= One(c in t.greeted) {
      ChannelMore(s.channel, m, c);
    }
    forall id: nat ensures IdSum(t, id) == One(1 <= id < t.nextId) {
      ChannelMore(s.channel, m, id);
      assert IdSum(s, id) == One(1 <= id < s.nextId);
    }
    forall i | 0 <= i < |t.channel| ensures MsgTraced(t.channel[i], t.asked) {
      if i < |s.channel| { assert MsgTraced(s.channel[i], s.asked); }
    }
    forall e | 0 <= e < |t.evals| ensures EvalJustified(t.desk, cfg, t.asked, t.evals[e]) {
      assert EvalJustified(s.desk, cfg, s.asked, s.evals[e]);
    }
    forall i | 0 <= i < |t.returned| ensures FinalJustified(t.desk, cfg, t.asked, t.returned[i]) {
      assert FinalJustified(s.desk, cfg, s.asked, s.returned[i]);
    }
  }

  /** The message at the head of the channel is the only trace of its event. */
  lemma {:induction false} HeadIsAlone(s: State)
    requires OneFate(s) && s.channel != []
    ensures forall id: nat :: DeskSum(s.desk, id) <= 1
    ensures forall id: nat :: EventOf(s.channel[0]) == Some(id) ==> DeskSum(s.desk, id) == 0
  {
    hide Occ, Events, Total, DeskSum;
    forall id: nat ensures DeskSum(s.desk, id) + One(EventOf(s.channel[0]) == Some(id)) <= 1 {
      ChannelLess(s.channel, id);
      assert IdSum(s, id) == One(1 <= id < s.nextId);
    }
  }

  lemma {:induction false} StepIds(s: State, cfg: Config, now: nat, room: bool)
    requires Enabled(s, cfg, Step(now, room)) && OneFate(s)
    ensures OneFate(Apply(s, cfg, Step(now, room)))
  {
    hide Handle, Occ, Events, Total, DeskSum;
    var t, m := Apply(s, cfg, Step(now, room)), s.channel[0];
    HeadIsAlone(s);
    forall id: nat ensures IdSum(t, id) == One(1 <= id < t.nextId) {
      DeskIds(s.desk, cfg, m, now, room, id);
      ChannelLess(s.channel, id);
      assert IdSum(s, id) == One(1 <= id < s.nextId);
    }
  }

  lemma {:induction false} StepRegistry(s: State, cfg: Config, now: nat, room: bool)
    requires Enabled(s, cfg, Step(now, room)) && OneDecider(s.desk) && GreetOnce(s)
    ensures var t := Apply(s, cfg, Step(now, room)); OneDecider(t.desk) && GreetOnce(t)
  {
    hide Handle, Occ, Greetings;
    var t, m := Apply(s, cfg, Step(now, room)), s.channel[0];
    if m.Hello? {
      ChannelLess(s.channel, m.client);
      assert Occ(Greetings(s.channel), Some(m.client)) + One(m.client in s.desk.clients) <= One(m.client in s.greeted);
    }
    DeciderKept(s.desk, cfg, m, now, room);
    forall c: nat ensures Occ(Greetings(t.channel), Some(c)) + One(c in t.desk.clients) <= One(c in t.greeted) {
      ChannelLess(s.channel, c);
      assert Occ(Greetings(s.channel), Some(c)) + One(c in s.desk.clients) <= One(c in s.greeted);
    }
  }

  lemma {:induction false} DeskTraces(d: Desk, cfg: Config, m: Msg, now: nat, room: bool, asked: map<nat, Flow>)
    requires DeskTraced(d, asked) && MsgTraced(m, asked)
    ensures DeskTraced(Handle(d, cfg, m, now, room), asked)
  {
    hide DefaultReply, Overdue, Defaults;
    var e := Handle(d, cfg, m, now, room);
    forall j | j in e.judged ensures j.id in asked && asked[j.id] == j.flow {
      if j !in d.judged { OnlyDeciderRules(d, cfg, m, now, room, j); }
    }
    forall id | id in e.pending ensures id in asked && asked[id] == e.pending[id].flow {
      PendingStays(d, cfg, m, now, room, id);
    }
  }

  lemma {:induction false} PrunedPending(d: Desk, now: nat)
    ensures forall id :: id in Pruned(d, now).pending ==> id in d.pending && Pruned(d, now).pending[id] == d.pending[id]
  {
  }

  lemma {:induction false} PendingStays(d: Desk, cfg: Config, m: Msg, now: nat, room: bool, id: nat)
    requires id in Handle(d, cfg, m, now, room).pending
    ensures var e := Handle(d, cfg, m, now, room);
            || (id in d.pending && e.pending[id] == d.pending[id])
            || (m.Dispatch? && m.id == id && e.pending[id].flow == m.flow)
  {
    hide DefaultReply, Pruned, Defaults;
    if m.Dispatch? { PrunedPending(d, now); }
  }

  lemma {:induction false} StepTraces(s: State, cfg: Config, now: nat, room: bool)
    requires Enabled(s, cfg, Step(now, room)) && Traced(s)
    ensures Traced(Apply(s, cfg, Step(now, room)))
  {
    hide Handle, DeskTraced;
    var t := Apply(s, cfg, Step(now, room));
    DeskTraces(s.desk, cfg, s.channel[0], now, room, s.asked);
    forall i | 0 <= i < |t.channel| ensures MsgTraced(t.channel[i], t.asked) {
      assert MsgTraced(s.channel[i + 1], s.asked);
    }
    forall e | 0 <= e < |t.evals| ensures EvalTraced(t.evals[e], t.asked) { assert EvalTraced(s.evals[e], s.asked); }
  }

  lemma {:induction false} StepHonest(s: State, cfg: Config, now: nat, room: bool)
    requires Enabled(s, cfg, Step(now, room)) && OneFate(s) && Honest(s, cfg)
    ensures Honest(Apply(s, cfg, Step(now, room)), cfg)
  {
    hide Handle, DeskSum, HonestDesk, Justified, Grows;
    var t, m := Apply(s, cfg, Step(now, room)), s.channel[0];
    HeadIsAlone(s);
    DeskGrows(s.desk, cfg, m, now, room);
    DeskHonest(s.desk, cfg, m, now, room);
    forall e | 0 <= e < |t.evals| ensures EvalJustified(t.desk, cfg, t.asked, t.evals[e]) {
      var ev := s.evals[e];
      assert EvalJustified(s.desk, cfg, s.asked, ev);
      if ev.Counting? { StillJustified(s.desk, t.desk, cfg, s.asked, t.asked, ev.flow, ev.action, ev.source); }
    }
    forall i | 0 <= i < |t.returned| ensures FinalJustified(t.desk, cfg, t.asked, t.returned[i]) {
      var v := s.returned[i];
      assert FinalJustified(s.desk, cfg, s.asked, v);
      StillJustified(s.desk, t.desk, cfg, s.asked, t.asked, v.flow, v.action, v.source);
    }
  }

  lemma {:induction false} StepCounts(s: State, cfg: Config, now: nat, room: bool)
    requires Enabled(s, cfg, Step(now, room)) && Counted(s)
    ensures Counted(Apply(s, cfg, Step(now, room)))
  {
    hide Handle, Total;
    var t := Apply(s, cfg, Step(now, room));
    assert t.evals == s.evals && t.stats == s.stats;
  }

  lemma {:induction false} StepKeepsSound(s: State, cfg: Config, a: Action)
    requires Enabled(s, cfg, a) && Sound(s, cfg)
    ensures Sound(Apply(s, cfg, a), cfg)
  {
    if ByEval(a) {
      EvalKeepsSound(s, cfg, a);
    } else if a.Send? {
      SendKeepsSound(s, cfg, a.m);
    } else {
      hide Apply, Enabled, OneDecider, GreetOnce, OneFate, Traced, Honest, Counted;
      StepRegistry(s, cfg, a.now, a.room);
      StepIds(s, cfg, a.now, a.room);
      StepTraces(s, cfg, a.now, a.room);
      StepHonest(s, cfg, a.now, a.room);
      StepCounts(s, cfg, a.now, a.room);
    }
  }

  lemma {:induction false} EveryRunIsSound(s: State, cfg: Config, run: seq<Action>, e: State)
    requires Sound(s, cfg) && Runs(s, cfg, run, e)
    ensures Sound(e, cfg)
    decreases |run|
  {
    hide Sound, Apply, Enabled;
    if run == [] {
    } else {
      StepKeepsSound(s, cfg, run[0]);
      EveryRunIsSound(Apply(s, cfg, run[0]), cfg, run[1..], e);
    }
  }

  // ---- what that means ----

  ghost predicate Reachable(s: State, cfg: Config) {
    exists evals: nat, run :: Runs(Started(evals), cfg, run, s)
  }

  lemma {:induction false} ReachableIsSound(s: State, cfg: Config)
    requires Reachable(s, cfg)
    ensures Sound(s, cfg)
  {
    hide Sound, Started, Runs;
    var evals: nat, run :| Runs(Started(evals), cfg, run, s);
    StartedIsSound(evals, cfg);
    EveryRunIsSound(Started(evals), cfg, run, s);
  }

  /** At most one client is in decision mode, and the flag that evaluating threads read says whether there is one. */
  lemma {:induction false} AtMostOneDecider(s: State, cfg: Config, c: nat, d: nat)
    requires Reachable(s, cfg)
    ensures s.desk.hasDecider <==> exists x :: x in s.desk.clients && s.desk.clients[x]
    ensures c in s.desk.clients && d in s.desk.clients && s.desk.clients[c] && s.desk.clients[d] ==> c == d
  {
    ReachableIsSound(s, cfg);
    hide Reachable, GreetOnce, OneFate, Traced, Honest, Counted;
    if s.desk.hasDecider { assert s.desk.clients[s.desk.decider.value]; }
  }

  /** A reply, once given, never changes; it is the default, or the ruling of the one who was decider when it came. */
  lemma {:induction false} RepliedOnce(s: State, cfg: Config, a: Action, id: nat)
    requires Reachable(s, cfg) && Enabled(s, cfg, a)
    ensures id in s.desk.replies ==>
              id in Apply(s, cfg, a).desk.replies && Apply(s, cfg, a).desk.replies[id] == s.desk.replies[id]
    ensures id !in s.desk.replies && id in Apply(s, cfg, a).desk.replies ==>
              var r := Apply(s, cfg, a).desk.replies[id];
              r == DefaultReply(cfg)
              || (r.judge.Some? && s.desk.decider == r.judge && id in s.desk.pending
                  && a.Step? && s.channel[0] == ClientVerdict(r.judge.value, id, r.ruling))
  {
    hide Reachable, Sound, Apply, Enabled, Handle, DefaultReply;
    ReachableIsSound(s, cfg);
    if a.Step? {
      DispatchReplies(s, cfg, a.now, a.room, id);
    } else if a.Send? {
      SendReplies(s, cfg, a.m);
    } else {
      EvalReplies(s, cfg, a);
    }
  }

  lemma {:induction false} EvalReplies(s: State, cfg: Config, a: Action)
    requires Enabled(s, cfg, a) && ByEval(a)
    ensures Apply(s, cfg, a).desk.replies == s.desk.replies
  {
    hide Apply, Enabled;
    EvalFrame(s, cfg, a);
  }

  lemma {:induction false} SendReplies(s: State, cfg: Config, m: Msg)
    requires Enabled(s, cfg, Send(m))
    ensures Apply(s, cfg, Send(m)).desk.replies == s.desk.replies
  {
    hide Handle;
  }

  /** What the dispatcher does to the replies when it handles the head of the channel. */
  lemma {:induction false} DispatchReplies(s: State, cfg: Config, now: nat, room: bool, id: nat)
    requires Enabled(s, cfg, Step(now, room)) && Sound(s, cfg)
    ensures s.channel != [] && Apply(s, cfg, Step(now, room)).desk == Handle(s.desk, cfg, s.channel[0], now, room)
    ensures var e := Handle(s.desk, cfg, s.channel[0], now, room);
            && (id in s.desk.replies ==> id in e.replies && e.replies[id] == s.desk.replies[id])
            && (id !in s.desk.replies && id in e.replies ==>
                  || e.replies[id] == DefaultReply(cfg)
                  || (e.replies[id].judge.Some? && s.desk.decider == e.replies[id].judge && id in s.desk.pending
                      && s.channel[0] == ClientVerdict(e.replies[id].judge.value, id, e.replies[id].ruling)))
  {
    hide GreetOnce, Traced, Honest, Counted, Handle, DeskSum, DefaultReply;
    var m := s.channel[0];
    HeadIsAlone(s);
    DeskGrows(s.desk, cfg, m, now, room);
    if id !in s.desk.replies && id in Handle(s.desk, cfg, m, now, room).replies {
      ReplyMade(s.desk, cfg, m, now, room, id);
    }
  }

  lemma {:induction false} ReplyMade(d: Desk, cfg: Config, m: Msg, now: nat, room: bool, id: nat)
    requires id in Handle(d, cfg, m, now, room).replies && id !in d.replies
    ensures var e := Handle(d, cfg, m, now, room);
            || e.replies[id] == DefaultReply(cfg)
            || (m.ClientVerdict? && m.id == id && id in d.pending && d.decider == Some(m.client)
                && e.replies[id] == Reply(m.ruling, Some(m.client)))
  {
    hide DefaultReply, Overdue;
  }

  /** Every verdict returned is justified: from the cache, a decider's ruling on an event of the same flow; from the
      decider, the reply to the event asked for this very packet's flow; otherwise the default. */
  lemma {:induction false} VerdictsAreJustified(s: State, cfg: Config, i: nat)
    requires Reachable(s, cfg) && i < |s.returned|
    ensures var v := s.returned[i];
            match v.source
            case Cached => exists j :: j in s.desk.judged && j.flow == v.flow && j.ruling.action == v.action
            case Decider(id) =>
              && id in s.asked && s.asked[id] == v.flow && id in s.desk.replies
              && s.desk.replies[id].ruling.action == v.action
              && HonestReply(s.desk, cfg, id, s.desk.replies[id])
            case _ => v.action == cfg.defaultAction
  {
    ReachableIsSound(s, cfg);
    hide Reachable, GreetOnce, OneFate, Traced, Counted, HonestReply;
    assert FinalJustified(s.desk, cfg, s.asked, s.returned[i]);
  }

  /** With no evaluation open, outcomes add up to packets, and causes add up to packets and slow-decider events. */
  lemma {:induction false} CountersAddUp(s: State, cfg: Config)
    requires Reachable(s, cfg) && forall e :: 0 <= e < |s.evals| ==> s.evals[e] == Resting
    ensures s.stats.accepted + s.stats.dropped == s.stats.seen
    ensures s.stats.cached + s.stats.decided + Fallbacks(s) == s.stats.seen + s.desk.slow
  {
    ReachableIsSound(s, cfg);
    hide Reachable, GreetOnce, OneFate, Traced, Honest;
    assert s.evals == seq(|s.evals|, _ => Resting);
    TotalResting(IsOpen, |s.evals|);
    TotalResting(IsUndecided, |s.evals|);
  }
}
