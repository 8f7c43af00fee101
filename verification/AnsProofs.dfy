/** What the name service keeps over every history, and what its ranking means. */
module AnsProofs {
  import opened Counting
  import opened Header
  import opened AddressText
  import opened Ans
  import opened Wrappers

  // ---- the index ----

  lemma {:induction false} RemoveKeepsIndex(r: Registry, addr: Address)
    requires Indexed(r)
    ensures Indexed(Remove(r, addr))
  {
  }

  lemma {:induction false} PutKeepsIndex(r: Registry, addr: Address, a: Agent)
    requires Indexed(r) && a.card.addr == addr
    requires a.card.name in r.byName ==> r.byName[a.card.name] == addr || r.byName[a.card.name] !in r.byAddr
    ensures Indexed(Put(r, addr, a))
  {
  }

  lemma {:induction false} RegisterKeepsIndex(r: Registry, root: string, c: Claim, now: nat)
    requires Indexed(r)
    ensures Indexed(Register(r, root, c, now).registry)
  {
    hide Indexed, Put, Remove, Expired, NameOk, FromCanonicalStr;
    match Validate(root, c, now) {
      case Err(_) =>
      case Ok((addr, pubkey)) =>
        var name := c.card.name;
        if !NameTaken(r, name, addr, now) {
          var s := if name in r.byName && r.byName[name] != addr then Remove(r, r.byName[name]) else r;
          if name in r.byName && r.byName[name] != addr {
            RemoveKeepsIndex(r, r.byName[name]);
            RemoveEffect(r, r.byName[name]);
          }
          var lease := if addr in s.byAddr then s.byAddr[addr].lease else Option.None;
          PutKeepsIndex(s, addr, Agent(pubkey, c.card, lease));
        }
    }
  }

  lemma {:induction false} RemoveEffect(r: Registry, addr: Address)
    ensures var s := Remove(r, addr);
            && addr !in s.byAddr && (forall n :: n in s.byName ==> n in r.byName && s.byName[n] == r.byName[n])
            && (forall a :: a in r.byAddr && a != addr ==> a in s.byAddr && s.byAddr[a] == r.byAddr[a])
            && (forall a :: a in s.byAddr ==> a in r.byAddr) && s.nextPlanId == r.nextPlanId
  {
  }

  lemma {:induction false} ReapKeepsIndex(r: Registry, now: nat)
    requires Indexed(r)
    ensures Indexed(Reap(r, now))
  {
    hide Expired;
    var e := Reap(r, now);
    forall a | a in e.byAddr
      ensures e.byAddr[a].card.addr == a && e.byAddr[a].card.name in e.byName && e.byName[e.byAddr[a].card.name] == a
    {
      LiveNameStays(r, now, a);
    }
  }

  lemma {:induction false} LiveNameStays(r: Registry, now: nat, a: Address)
    requires Indexed(r) && a in r.byAddr && !Expired(r.byAddr[a], now)
    ensures r.byAddr[a].card.name !in ExpiredNames(r, now)
  {
    hide Expired;
    forall b | b in r.byAddr && Expired(r.byAddr[b], now) ensures r.byAddr[b].card.name != r.byAddr[a].card.name {
      assert r.byName[r.byAddr[b].card.name] == b;
    }
  }

  /** Registered agents have pairwise different names, and each is found under its own. */
  lemma {:induction false} NamesAreUnique(r: Registry, a: Address, b: Address, now: nat)
    requires Indexed(r) && a in r.byAddr && b in r.byAddr
    ensures r.byAddr[a].card.name == r.byAddr[b].card.name ==> a == b
    ensures !Expired(r.byAddr[a], now) ==> ResolveName(r, r.byAddr[a].card.name, now) == Ok(r.byAddr[a])
  {
  }

  /** An old name that still leads to an address whose agent has another name. */
  predicate StaleAlias(r: Registry, name: string) {
    name in r.byName && r.byName[name] in r.byAddr && r.byAddr[r.byName[name]].card.name != name
  }

  /** A name resolves to the live agent of that name exactly if it is no stale alias of a live agent. */
  lemma {:induction false} ResolvesToNamesake(r: Registry, name: string, now: nat)
    requires Indexed(r)
    ensures ResolveName(r, name, now).Ok? ==>
              (ResolveName(r, name, now).value.card.name == name <==> !StaleAlias(r, name))
    ensures !StaleAlias(r, name) ==>
              (ResolveName(r, name, now).Ok? <==>
                 exists a :: a in r.byAddr && r.byAddr[a].card.name == name && !Expired(r.byAddr[a], now))
  {
    hide Expired;
    if ResolveName(r, name, now).Ok? && !StaleAlias(r, name) {
      assert r.byName[name] in r.byAddr && r.byAddr[r.byName[name]].card.name == name;
    }
  }

  /** A name counts as taken exactly if another live agent has it, or it is the stale alias of one. */
  lemma {:induction false} TakenExactly(r: Registry, name: string, addr: Address, now: nat)
    requires Indexed(r)
    ensures NameTaken(r, name, addr, now) <==>
            || (exists a :: a in r.byAddr && a != addr && r.byAddr[a].card.name == name && !Expired(r.byAddr[a], now))
            || (StaleAlias(r, name) && r.byName[name] != addr && !Expired(r.byAddr[r.byName[name]], now))
  {
    hide Expired;
    if NameTaken(r, name, addr, now) && !StaleAlias(r, name) {
      assert r.byName[name] in r.byAddr && r.byAddr[r.byName[name]].card.name == name;
    }
  }

  /** Registering an address again under a new name leaves the old name leading to it. */
  lemma {:induction false} RenamingLeavesAlias(r: Registry, root: string, c: Claim, now: nat, addr: Address,
      old': string)
    requires Indexed(r) && addr in r.byAddr && r.byAddr[addr].card.name == old' && c.card.name != old'
          && c.card.addr == addr
    requires Register(r, root, c, now).result.Ok?
    ensures var s := Register(r, root, c, now).registry;
            StaleAlias(s, old') && ResolveName(s, old', now) == ResolveName(s, c.card.name, now)
  {
    hide FromCanonicalStr, NameOk;
  }

  // ---- the ranking ----

  lemma {:induction false} LexIrreflexive(s: string)
    ensures !LexLess(s, s)
  {
    if s != "" { LexIrreflexive(s[1..]); }
  }

  lemma {:induction false} LexTransitive(s: string, t: string, u: string)
    requires LexLess(s, t) && LexLess(t, u)
    ensures LexLess(s, u)
  {
    if s != "" && s[0] == t[0] && t[0] == u[0] { LexTransitive(s[1..], t[1..], u[1..]); }
  }

  lemma {:induction false} LexTotal(s: string, t: string)
    requires s != t
    ensures LexLess(s, t) || LexLess(t, s)
  {
    if s != "" && t != "" && s[0] == t[0] {
      assert s == [s[0]] + s[1..] && t == [t[0]] + t[1..];
      LexTotal(s[1..], t[1..]);
    }
  }

  lemma {:induction false} BeforeTransitive(x: Agent, y: Agent, z: Agent)
    requires Before(x, y) && Before(y, z)
    ensures Before(x, z)
  {
    hide LexLess, CanonicalString;
    var a, b, c := CanonicalString(x.card.addr), CanonicalString(y.card.addr), CanonicalString(z.card.addr);
    if LexLess(a, b) && LexLess(b, c) { LexTransitive(a, b, c); }
  }

  lemma {:induction false} BeforeIrreflexive(x: Agent)
    ensures !Before(x, x)
  {
    hide LexLess, CanonicalString;
    LexIrreflexive(CanonicalString(x.card.addr));
  }

  /** Agents of different addresses are always ranked. */
  lemma {:induction false} BeforeTotal(x: Agent, y: Agent)
    requires x.card.addr != y.card.addr
    ensures Before(x, y) || Before(y, x)
  {
    hide LexLess, CanonicalString;
    var a, b := CanonicalString(x.card.addr), CanonicalString(y.card.addr);
    if a == b { CanonicalInjective(x.card.addr, y.card.addr); } else { LexTotal(a, b); }
  }

  ghost predicate Ranked(s: seq<Agent>) {
    forall i, j :: 0 <= i < j < |s| ==> Before(s[i], s[j])
  }

  lemma {:induction false} PlacedMembers(x: Agent, s: seq<Agent>)
    ensures forall y :: y in Placed(x, s) <==> y == x || y in s
  {
    hide Before;
    if s != [] && !Before(x, s[0]) {
      PlacedMembers(x, s[1..]);
      assert s == [s[0]] + s[1..];
    }
  }

  lemma {:induction false} PlacedRanked(x: Agent, s: seq<Agent>)
    requires Ranked(s) && forall y :: y in s ==> Before(x, y) || Before(y, x)
    ensures Ranked(Placed(x, s))
  {
    hide Before;
    if s == [] {
    } else if Before(x, s[0]) {
      var t := [x] + s;
      forall i, j | 0 <= i < j < |t| ensures Before(t[i], t[j]) {
        if i == 0 && j > 1 { BeforeTransitive(x, s[0], s[j - 1]); }
      }
    } else {
      PlacedRanked(x, s[1..]);
      PlacedMembers(x, s[1..]);
      var rest := Placed(x, s[1..]);
      var t := [s[0]] + rest;
      forall i, j | 0 <= i < j < |t| ensures Before(t[i], t[j]) {
        if i == 0 { assert rest[j - 1] in rest; HeadBefore(s, x, rest[j - 1]); }
      }
    }
  }

  lemma {:induction false} HeadBefore(s: seq<Agent>, x: Agent, y: Agent)
    requires s != [] && Ranked(s) && Before(s[0], x) && (y == x || y in s[1..])
    ensures Before(s[0], y)
  {
    hide Before;
    if y != x {
      var k :| 0 <= k < |s[1..]| && s[1..][k] == y;
      assert s[k + 1] == y;
    }
  }

  lemma {:induction false} SortedIsRanked(s: seq<Agent>)
    requires forall i, j :: 0 <= i < j < |s| ==> s[i].card.addr != s[j].card.addr
    ensures Ranked(Sorted(s)) && forall y :: y in Sorted(s) <==> y in s
  {
    hide Before;
    if s == [] {
    } else {
      var n := |s| - 1;
      SortedIsRanked(s[..n]);
      assert s == s[..n] + [s[n]];
      forall y | y in Sorted(s[..n]) ensures Before(s[n], y) || Before(y, s[n]) {
        var k :| 0 <= k < n && s[k] == y;
        BeforeTotal(s[n], y);
      }
      PlacedRanked(s[n], Sorted(s[..n]));
      PlacedMembers(s[n], Sorted(s[..n]));
    }
  }

  /** There is only one ranking of a set of agents. */
  lemma {:induction false} RankingUnique(s: seq<Agent>, t: seq<Agent>)
    requires Ranked(s) && Ranked(t) && forall y :: y in s <==> y in t
    ensures s == t
  {
    hide Before;
    if s == [] {
      HeadIsIn(t);
    } else {
      assert s[0] in t && t != [] && t[0] in s;
      SameFirst(s, t);
      RestRanked(s);
      RestRanked(t);
      forall y ensures y in s[1..] <==> y in t[1..] {
        assert y in s <==> y == s[0] || y in s[1..];
        assert y in t <==> y == t[0] || y in t[1..];
      }
      RankingUnique(s[1..], t[1..]);
      assert s == [s[0]] + s[1..] && t == [t[0]] + t[1..];
    }
  }

  lemma {:induction false} HeadIsIn(t: seq<Agent>)
    ensures t != [] ==> t[0] in t
  {
  }

  lemma {:induction false} SameFirst(s: seq<Agent>, t: seq<Agent>)
    requires Ranked(s) && Ranked(t) && s != [] && t != [] && s[0] in t && t[0] in s
    ensures s[0] == t[0]
  {
    hide Before;
    var i :| 0 <= i < |t| && t[i] == s[0];
    var j :| 0 <= j < |s| && s[j] == t[0];
    if i > 0 && j > 0 {
      BeforeTransitive(s[0], t[0], s[0]);
      BeforeIrreflexive(s[0]);
    }
  }

  lemma {:induction false} RestRanked(s: seq<Agent>)
    requires Ranked(s) && s != []
    ensures Ranked(s[1..]) && s[0] !in s[1..]
  {
    hide Before;
    forall k | 0 <= k < |s[1..]| ensures s[1..][k] != s[0] {
      BeforeIrreflexive(s[0]);
      assert Before(s[0], s[k + 1]);
    }
  }

  lemma {:induction false} CandidatesAre(r: Registry, order: seq<Address>, q: Query, now: nat)
    requires Indexed(r) && Distinct(order)
    ensures var s := Candidates(r, order, q, now);
            && (forall x :: x in s <==>
                  x.card.addr in order && x.card.addr in r.byAddr && r.byAddr[x.card.addr] == x && Eligible(x, q, now))
            && (forall i, j :: 0 <= i < j < |s| ==> s[i].card.addr != s[j].card.addr)
  {
    hide Eligible;
    if order == [] {
    } else {
      var n := |order| - 1;
      CandidatesAre(r, order[..n], q, now);
      NotVisited(order, n);
      assert order == order[..n + 1];
    }
  }

  /** A search returns exactly the eligible agents, ranked. */
  lemma {:induction false} SearchRanks(r: Registry, order: seq<Address>, q: Query, now: nat)
    requires Indexed(r) && Enumerates(order, r.byAddr)
    ensures Ranked(Search(r, order, q, now))
    ensures forall x :: x in Search(r, order, q, now) <==>
              x.card.addr in r.byAddr && r.byAddr[x.card.addr] == x && Eligible(x, q, now)
  {
    hide Eligible, Before, Candidates, Sorted;
    CandidatesAre(r, order, q, now);
    SortedIsRanked(Candidates(r, order, q, now));
  }

  /** And the same list whatever the order in which the store enumerates its addresses. */
  lemma {:induction false} SearchIgnoresOrder(r: Registry, order: seq<Address>, other: seq<Address>, q: Query, now: nat)
    requires Indexed(r) && Enumerates(order, r.byAddr) && Enumerates(other, r.byAddr)
    ensures Search(r, order, q, now) == Search(r, other, q, now)
  {
    hide Eligible, Before, Search;
    SearchRanks(r, order, q, now);
    SearchRanks(r, other, q, now);
    RankingUnique(Search(r, order, q, now), Search(r, other, q, now));
  }

  // ---- plans ----

  ghost predicate AssignedTo(p: Plan, a: Address) {
    exists i :: 0 <= i < |p.assignments| && p.assignments[i].addr == a
  }

  /** A plan assigns exactly the wanted number of different eligible agents, in ranking order, and no eligible
      agent that is left out ranks before one that is taken. A refused plan changes nothing. */
  lemma {:induction false} PlanTakesBest(r: Registry, order: seq<Address>, task: Task, now: nat)
    requires Indexed(r) && Enumerates(order, r.byAddr)
    ensures var p := PlanTask(r, order, task, now); var q := Query(task.required, task.qosLevel, true);
            && (p.result.Err? ==> p.registry == r)
            && (p.result.Ok? ==>
                  var s := p.result.value.assignments;
                  && |s| == task.minCount
                  && (forall i :: 0 <= i < |s| ==>
                        s[i].addr in r.byAddr && Eligible(r.byAddr[s[i].addr], q, now) && s[i].shard == i)
                  && (forall i, j :: 0 <= i < j < |s| ==> Before(r.byAddr[s[i].addr], r.byAddr[s[j].addr]))
                  && forall a, i | a in r.byAddr && Eligible(r.byAddr[a], q, now) && !AssignedTo(p.result.value, a)
                      && 0 <= i < |s| ::
                       Before(r.byAddr[s[i].addr], r.byAddr[a]))
  {
    hide Eligible, Before, Search, LeaseSecs, WithLease;
    var q := Query(task.required, task.qosLevel, true);
    var ranked := Search(r, order, q, now);
    SearchRanks(r, order, q, now);
    var p := PlanTask(r, order, task, now);
    if p.result.Ok? {
      var s := p.result.value.assignments;
      forall i | 0 <= i < |s|
        ensures s[i].addr in r.byAddr && r.byAddr[s[i].addr] == ranked[i] && Eligible(ranked[i], q, now)
      {
        assert ranked[i] in ranked;
      }
      forall a, i | a in r.byAddr && Eligible(r.byAddr[a], q, now) && !AssignedTo(p.result.value, a) && 0 <= i < |s|
        ensures Before(r.byAddr[s[i].addr], r.byAddr[a])
      {
        assert r.byAddr[a] in ranked;
        forall k | 0 <= k < task.minCount ensures ranked[k] != r.byAddr[a] { assert s[k].addr == ranked[k].card.addr; }
        LeftOut(ranked, r.byAddr[a], task.minCount, i);
      }
    }
  }

  lemma {:induction false} LeftOut(ranked: seq<Agent>, x: Agent, n: nat, i: nat)
    requires Ranked(ranked) && x in ranked && i < n <= |ranked|
    requires forall k :: 0 <= k < n ==> ranked[k] != x
    ensures Before(ranked[i], x)
  {
    hide Before;
    var k :| 0 <= k < |ranked| && ranked[k] == x;
  }

  /** A plan leases exactly the agents it assigns, under a new number. */
  lemma {:induction false} PlanLeases(r: Registry, order: seq<Address>, task: Task, now: nat, a: Address)
    requires Indexed(r) && Enumerates(order, r.byAddr) && PlanTask(r, order, task, now).result.Ok?
    ensures var e := PlanTask(r, order, task, now).registry; var p := PlanTask(r, order, task, now).result.value;
            && p.id == r.nextPlanId && e.nextPlanId == r.nextPlanId + 1 && e.byName == r.byName
            && (a in e.byAddr <==> a in r.byAddr)
            && (AssignedTo(p, a) ==>
                  && a in r.byAddr && !Leased(r.byAddr[a], now) && !Expired(r.byAddr[a], now)
                  && e.byAddr[a]
                     == r.byAddr[a].(lease := Some(Lease(p.id, Saturated(now + LeaseSecs(task.timeoutMs))))))
            && (a in r.byAddr && !AssignedTo(p, a) ==> e.byAddr[a] == r.byAddr[a])
  {
    hide Before, Search, LeaseSecs, Leased, Expired, Covers, WithLease;
    var q := Query(task.required, task.qosLevel, true);
    var ranked := Search(r, order, q, now);
    SearchRanks(r, order, q, now);
    var p := PlanTask(r, order, task, now).result.value;
    var picked, lease := ranked[..task.minCount], Lease(p.id, Saturated(now + LeaseSecs(task.timeoutMs)));
    LeasedAre(r.byAddr, picked, lease, a);
    assert AssignedTo(p, a) <==> exists i :: 0 <= i < |picked| && picked[i].card.addr == a by {
      PickedAre(p, picked, a);
    }
    if AssignedTo(p, a) {
      var i :| 0 <= i < |picked| && picked[i].card.addr == a;
      assert ranked[i] in ranked;
    }
  }

  lemma {:induction false} PickedAre(p: Plan, picked: seq<Agent>, a: Address)
    requires |p.assignments| == |picked|
    requires forall i :: 0 <= i < |picked| ==> p.assignments[i].addr == picked[i].card.addr
    ensures AssignedTo(p, a) <==> exists i :: 0 <= i < |picked| && picked[i].card.addr == a
  {
    if AssignedTo(p, a) {
      var i :| 0 <= i < |p.assignments| && p.assignments[i].addr == a;
      assert picked[i].card.addr == a;
    }
    if exists i :: 0 <= i < |picked| && picked[i].card.addr == a {
      var i :| 0 <= i < |picked| && picked[i].card.addr == a;
      assert p.assignments[i].addr == a;
    }
  }

  lemma {:induction false} LeasedAre(byAddr: map<Address, Agent>, picked: seq<Agent>, lease: Lease, a: Address)
    ensures var m := WithLease(byAddr, picked, lease);
            var taken := exists i :: 0 <= i < |picked| && picked[i].card.addr == a;
            && (a in m <==> a in byAddr)
            && (a in byAddr ==> m[a] == if taken then byAddr[a].(lease := Some(lease)) else byAddr[a])
  {
  }

  // ---- histories ----

  datatype Op =
    | RegisterOp(claim: Claim)
    | PlanOp(order: seq<Address>, task: Task)
    | DoneOp(plan: nat, addr: Address)
    | ReapOp

  datatype Event = Event(op: Op, now: nat)

  function Step(r: Registry, root: string, e: Event): Registry {
    match e.op
    case RegisterOp(c) => Register(r, root, c, e.now).registry
    case PlanOp(order, task) => PlanTask(r, order, task, e.now).registry
    case DoneOp(plan, addr) => ReportDone(r, plan, addr).registry
    case ReapOp => Reap(r, e.now)
  }

  function After(root: string, h: seq<Event>): Registry {
    if h == [] then Registry(map[], map[], 1) else Step(After(root, h[..|h| - 1]), root, h[|h| - 1])
  }

  /** Every plan is made with an enumeration of the store as it is then. */
  ghost predicate History(root: string, h: seq<Event>) {
    forall k :: 0 <= k < |h| && h[k].op.PlanOp? ==> Enumerates(h[k].op.order, After(root, h[..k]).byAddr)
  }

  ghost predicate TimeGoesOn(h: seq<Event>) {
    forall i, j :: 0 <= i <= j < |h| ==> h[i].now <= h[j].now
  }

  lemma {:induction false} StepKeepsIndex(r: Registry, root: string, e: Event)
    requires Indexed(r) && (e.op.PlanOp? ==> Enumerates(e.op.order, r.byAddr))
    ensures Indexed(Step(r, root, e)) && Step(r, root, e).nextPlanId >= r.nextPlanId
  {
    hide Register, Reap, Search, LeaseSecs;
    match e.op {
      case RegisterOp(c) => RegisterKeepsIndex(r, root, c, e.now); RegisterKeepsPlans(r, root, c, e.now);
      case PlanOp(order, task) =>
        if PlanTask(r, order, task, e.now).result.Ok? {
          forall a
            ensures a in Step(r, root, e).byAddr ==>
                      a in r.byAddr && Step(r, root, e).byAddr[a].card == r.byAddr[a].card
          {
            PlanLeases(r, order, task, e.now, a);
          }
          PlanLeases(r, order, task, e.now, Address(0, 0, 0, 0, 0, 0, 0, 0));
        }
      case DoneOp(plan, addr) =>
      case ReapOp => ReapKeepsIndex(r, e.now); ReapKeepsPlans(r, e.now);
    }
  }

  lemma {:induction false} RegisterKeepsPlans(r: Registry, root: string, c: Claim, now: nat)
    ensures Register(r, root, c, now).registry.nextPlanId == r.nextPlanId
  {
    hide Validate, Expired;
  }

  lemma {:induction false} ReapKeepsPlans(r: Registry, now: nat)
    ensures Reap(r, now).nextPlanId == r.nextPlanId
  {
  }

  /** Over every history the index leads back to every agent. */
  lemma {:induction false} EveryHistoryIsIndexed(root: string, h: seq<Event>)
    requires History(root, h)
    ensures Indexed(After(root, h))
  {
    hide Step, Enumerates;
    if h == [] {
    } else {
      var n := |h| - 1;
      assert forall k :: 0 <= k < n ==> h[..n][..k] == h[..k];
      EveryHistoryIsIndexed(root, h[..n]);
      StepKeepsIndex(After(root, h[..n]), root, h[n]);
    }
  }

  /** The plan made by event `k`, if it made one. */
  function PlanAt(root: string, h: seq<Event>, k: nat): Option<Plan>
    requires k < |h|
  {
    match h[k].op
    case PlanOp(order, task) =>
      var r := PlanTask(After(root, h[..k]), order, task, h[k].now).result;
      if r.Ok? then Some(r.value) else Option.None
    case _ => Option.None
  }

  /** Only expired records are ever removed. */
  lemma {:induction false} RemovedWasExpired(r: Registry, root: string, e: Event, a: Address)
    requires Indexed(r) && (e.op.PlanOp? ==> Enumerates(e.op.order, r.byAddr))
    requires a in r.byAddr && a !in Step(r, root, e).byAddr
    ensures Expired(r.byAddr[a], e.now)
  {
    hide Indexed, Enumerates, PlanTask, Expired;
    match e.op {
      case RegisterOp(c) => RegisterRemoves(r, root, c, e.now, a);
      case PlanOp(order, task) =>
        if PlanTask(r, order, task, e.now).result.Ok? { PlanLeases(r, order, task, e.now, a); }
        else { PlanTakesBest(r, order, task, e.now); }
      case DoneOp(plan, addr) =>
      case ReapOp =>
    }
  }

  lemma {:induction false} RegisterRemoves(r: Registry, root: string, c: Claim, now: nat, a: Address)
    requires a in r.byAddr
    ensures a !in Register(r, root, c, now).registry.byAddr ==> Expired(r.byAddr[a], now)
  {
    hide Validate, Expired;
  }

  /** Event `k` ends plan `plan`'s hold on the agent: the plan reports done, or the agent's record, which has
      expired, is removed. */
  ghost predicate Frees(root: string, h: seq<Event>, k: nat, plan: nat, a: Address)
    requires k < |h|
  {
    var r := After(root, h[..k]);
    || h[k].op == DoneOp(plan, a)
    || (a in r.byAddr && Expired(r.byAddr[a], h[k].now) && a !in After(root, h[..k + 1]).byAddr)
  }

  /** A lease that has not run out survives everything but its own plan's report and the record's removal. */
  lemma {:induction false} LeaseHolds(r: Registry, root: string, e: Event, a: Address, lease: Lease)
    requires Indexed(r) && (e.op.PlanOp? ==> Enumerates(e.op.order, r.byAddr))
    requires a in r.byAddr && r.byAddr[a].lease == Some(lease) && e.now < lease.expiry
    requires e.op != DoneOp(lease.plan, a) && a in Step(r, root, e).byAddr
    ensures Step(r, root, e).byAddr[a].lease == Some(lease)
  {
    hide PlanTask, Register, Indexed, Enumerates;
    match e.op {
      case RegisterOp(c) => RegisterKeepsLease(r, root, c, e.now, a);
      case PlanOp(order, task) =>
        if PlanTask(r, order, task, e.now).result.Ok? { PlanLeases(r, order, task, e.now, a); }
        else { PlanTakesBest(r, order, task, e.now); }
      case DoneOp(plan, addr) =>
      case ReapOp =>
    }
  }

  lemma {:induction false} RegisterKeepsLease(r: Registry, root: string, c: Claim, now: nat, a: Address)
    requires a in r.byAddr && a in Register(r, root, c, now).registry.byAddr
    ensures Register(r, root, c, now).registry.byAddr[a].lease == r.byAddr[a].lease
  {
    hide Validate, Expired;
  }

  /** From the moment a plan takes the agent until the lease ends it holds it, unless freed. */
  lemma {:induction false} HeldUntil(root: string, h: seq<Event>, i: nat, j: nat, a: Address, lease: Lease)
    requires History(root, h) && TimeGoesOn(h) && i < j <= |h|
    requires a in After(root, h[..i + 1]).byAddr && After(root, h[..i + 1]).byAddr[a].lease == Some(lease)
    requires h[j - 1].now < lease.expiry && forall k :: i < k < j ==> !Frees(root, h, k, lease.plan, a)
    ensures a in After(root, h[..j]).byAddr && After(root, h[..j]).byAddr[a].lease == Some(lease)
    decreases j
  {
    hide Step, Indexed, Enumerates;
    if j > i + 1 {
      HeldUntil(root, h, i, j - 1, a, lease);
      PrefixHistory(root, h, j - 1);
      EveryHistoryIsIndexed(root, h[..j - 1]);
      assert !Frees(root, h, j - 1, lease.plan, a);
      assert h[..j][..j - 1] == h[..j - 1];
      if a !in After(root, h[..j]).byAddr {
        RemovedWasExpired(After(root, h[..j - 1]), root, h[j - 1], a);
      } else {
        LeaseHolds(After(root, h[..j - 1]), root, h[j - 1], a, lease);
      }
    }
  }

  lemma {:induction false} PrefixHistory(root: string, h: seq<Event>, n: nat)
    requires History(root, h) && n <= |h|
    ensures History(root, h[..n])
  {
    hide Enumerates, After;
    assert forall k :: 0 <= k < n ==> h[..n][..k] == h[..k];
  }

  /** The registry right after a plan. */
  lemma {:induction false} PlanTook(root: string, h: seq<Event>, i: nat, a: Address)
    requires History(root, h) && i < |h| && PlanAt(root, h, i).Some? && AssignedTo(PlanAt(root, h, i).value, a)
    ensures var s := After(root, h[..i + 1]); var p := PlanAt(root, h, i).value;
            && a in s.byAddr && s.byAddr[a].lease.Some? && s.byAddr[a].lease.value.plan == p.id
            && (forall k :: 0 <= k < |p.assignments| ==> p.assignments[k].expiry == s.byAddr[a].lease.value.expiry)
    ensures a in After(root, h[..i]).byAddr && !Leased(After(root, h[..i]).byAddr[a], h[i].now)
  {
    hide Indexed, Enumerates, Leased, Search, LeaseSecs, WithLease;
    PrefixHistory(root, h, i);
    EveryHistoryIsIndexed(root, h[..i]);
    assert h[..i + 1][..i] == h[..i];
    PlanLeases(After(root, h[..i]), h[i].op.order, h[i].op.task, h[i].now, a);
  }

  /** Two plans never hold overlapping leases on one agent, unless in between the first reported done or the agent's
      record expired and was removed. */
  lemma {:induction false} NoDoubleBooking(root: string, h: seq<Event>, i: nat, j: nat, a: Address, x: nat)
    requires History(root, h) && TimeGoesOn(h) && i < j < |h|
    requires PlanAt(root, h, i).Some? && AssignedTo(PlanAt(root, h, i).value, a)
          && x < |PlanAt(root, h, i).value.assignments|
    requires PlanAt(root, h, j).Some? && AssignedTo(PlanAt(root, h, j).value, a)
    requires h[j].now < PlanAt(root, h, i).value.assignments[x].expiry
    ensures exists k :: i < k < j && Frees(root, h, k, PlanAt(root, h, i).value.id, a)
  {
    hide PlanAt, After, History, Frees;
    PlanTook(root, h, i, a);
    PlanTook(root, h, j, a);
    var lease := After(root, h[..i + 1]).byAddr[a].lease.value;
    StillLeased(root, h, i, j, a, lease);
  }

  lemma {:induction false} StillLeased(root: string, h: seq<Event>, i: nat, j: nat, a: Address, lease: Lease)
    requires History(root, h) && TimeGoesOn(h) && i < j < |h|
    requires a in After(root, h[..i + 1]).byAddr && After(root, h[..i + 1]).byAddr[a].lease == Some(lease)
    requires h[j].now < lease.expiry
    ensures (exists k :: i < k < j && Frees(root, h, k, lease.plan, a))
         || (a in After(root, h[..j]).byAddr && Leased(After(root, h[..j]).byAddr[a], h[j].now))
  {
    hide After, History, Frees;
    if forall k :: i < k < j ==> !Frees(root, h, k, lease.plan, a) {
      assert h[j - 1].now <= h[j].now;
      HeldUntil(root, h, i, j, a, lease);
    }
  }

  /** Plan numbers only grow, so no two plans of a history have the same. */
  lemma {:induction false} PlanIdsGrow(root: string, h: seq<Event>, i: nat, j: nat)
    requires History(root, h) && i < j < |h| && PlanAt(root, h, i).Some? && PlanAt(root, h, j).Some?
    ensures PlanAt(root, h, i).value.id < PlanAt(root, h, j).value.id
  {
    hide Search, LeaseSecs, WithLease, Enumerates, Indexed;
    assert h[..i + 1][..i] == h[..i];
    NextIdGrows(root, h, i + 1, j);
  }

  lemma {:induction false} NextIdGrows(root: string, h: seq<Event>, i: nat, j: nat)
    requires History(root, h) && i <= j <= |h|
    ensures After(root, h[..i]).nextPlanId <= After(root, h[..j]).nextPlanId
    decreases j
  {
    hide Step, Enumerates, Indexed;
    if i < j {
      NextIdGrows(root, h, i, j - 1);
      PrefixHistory(root, h, j - 1);
      EveryHistoryIsIndexed(root, h[..j - 1]);
      assert h[..j][..j - 1] == h[..j - 1];
      StepKeepsIndex(After(root, h[..j - 1]), root, h[j - 1]);
    }
  }
}
