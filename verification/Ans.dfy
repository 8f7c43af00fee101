/** The agent name service: registration, capability search, and task plans with leases. */
module Ans {
  import opened Bytes
  import opened Counting
  import opened Header
  import opened AddressText
  import opened Wrappers

  const CARD_VERSION := 1
  const MAX_LEASE_SECS := 3600

  datatype AnsError =
    | BadName | BadAddr | BadTags | BadCard | BadProof | BadCert | KeyConflict | NameConflict | NotFound
    | Insufficient(wanted: nat, got: nat)

  datatype Card = Card(version: nat, name: string, addr: Address, capabilities: seq<string>, endpoints: seq<string>,
                       qosHint: nat, notAfter: nat, tunnelEntry: string)

  /** The plan that holds the agent, and until when. */
  datatype Lease = Lease(plan: nat, expiry: nat)

  datatype Agent = Agent(pubkey: bytes, card: Card, lease: Option<Lease>)

  datatype Registry = Registry(byAddr: map<Address, Agent>, byName: map<string, Address>, nextPlanId: nat)

  predicate Leased(a: Agent, now: nat) { a.lease.Some? && a.lease.value.expiry > now }

  predicate Expired(a: Agent, now: nat) { a.card.notAfter <= now }

  // ---- registration ----

  /** A request to register. The verdicts on what is opaque here come with it: whether the tags are well formed,
      whether the card can be hashed, and the key that certificate and signatures prove. */
  datatype Claim = Claim(addrText: string, card: Card, tagsOk: bool, hashOk: bool, proof: Result<bytes, AnsError>)

  predicate EndsWith(s: string, suffix: string) {
    |suffix| <= |s| && s[|s| - |suffix|..] == suffix
  }

  predicate NameOk(root: string, name: string) {
    name != "" && |name| <= 255 && (root != "" ==> EndsWith(name, root)) && name != root
  }

  /** The checks that need no registry: the address and the proven key. */
  function Validate(root: string, c: Claim, now: nat): Result<(Address, bytes), AnsError> {
    match FromCanonicalStr(c.addrText)
    case Err(_) => Err(BadAddr)
    case Ok(addr) =>
      if !NameOk(root, c.card.name) then Err(BadName)
      else if c.card.version != CARD_VERSION || c.card.addr != addr then Err(BadCard)
      else if c.card.notAfter <= now then Err(BadCard)
      else if !c.tagsOk then Err(BadTags)
      else if !c.hashOk then Err(BadCard)
      else match c.proof
        case Err(e) => Err(e)
        case Ok(pubkey) => Ok((addr, pubkey))
  }

  function Put(r: Registry, addr: Address, a: Agent): Registry {
    r.(byName := r.byName[a.card.name := addr], byAddr := r.byAddr[addr := a])
  }

  function Remove(r: Registry, addr: Address): Registry {
    if addr in r.byAddr then r.(byName := r.byName - {r.byAddr[addr].card.name}, byAddr := r.byAddr - {addr}) else r
  }

  /** Another address that the name index names, and that has not expired. */
  predicate NameTaken(r: Registry, name: string, addr: Address, now: nat) {
    name in r.byName && r.byName[name] != addr && r.byName[name] in r.byAddr
    && !Expired(r.byAddr[r.byName[name]], now)
  }

  datatype Registered = Registered(registry: Registry, result: Result<(), AnsError>)

  function Register(r: Registry, root: string, c: Claim, now: nat): Registered {
    match Validate(root, c, now)
    case Err(e) => Registered(r, Err(e))
    case Ok((addr, pubkey)) =>
      var name := c.card.name;
      if NameTaken(r, name, addr, now) then Registered(r, Err(NameConflict))
      else
        var s := if name in r.byName && r.byName[name] != addr then Remove(r, r.byName[name]) else r;
        if addr in s.byAddr && s.byAddr[addr].pubkey != pubkey then Registered(s, Err(KeyConflict))
        else
          var lease := if addr in s.byAddr then s.byAddr[addr].lease else Option.None;
          Registered(Put(s, addr, Agent(pubkey, c.card, lease)), Ok(()))
  }

  function ResolveName(r: Registry, name: string, now: nat): Result<Agent, AnsError> {
    if name !in r.byName || r.byName[name] !in r.byAddr || Expired(r.byAddr[r.byName[name]], now) then Err(NotFound)
    else Ok(r.byAddr[r.byName[name]])
  }

  // ---- search ----

  predicate Covers(capabilities: seq<string>, required: seq<string>) {
    forall i :: 0 <= i < |required| ==> required[i] in capabilities
  }

  datatype Query = Query(required: seq<string>, minQos: nat, excludeLeased: bool)

  predicate Eligible(a: Agent, q: Query, now: nat) {
    !Expired(a, now) && (!q.excludeLeased || !Leased(a, now)) && Covers(a.card.capabilities, q.required)
    && a.card.qosHint >= q.minQos
  }

  /** Lexicographic order of texts. */
  predicate LexLess(s: string, t: string) {
    if t == "" then false
    else if s == "" then true
    else s[0] < t[0] || (s[0] == t[0] && LexLess(s[1..], t[1..]))
  }

  /** Ranking: higher quality, then longer validity, then smaller address text. */
  predicate Before(x: Agent, y: Agent) {
    || x.card.qosHint > y.card.qosHint
    || (x.card.qosHint == y.card.qosHint
        && (x.card.notAfter > y.card.notAfter
            || (x.card.notAfter == y.card.notAfter
                && LexLess(CanonicalString(x.card.addr), CanonicalString(y.card.addr)))))
  }

  /** The eligible agents in the order in which the store enumerates them. */
  function Candidates(r: Registry, order: seq<Address>, q: Query, now: nat): seq<Agent> {
    if order == [] then []
    else
      var n := |order| - 1;
      Candidates(r, order[..n], q, now)
      + if order[n] in r.byAddr && Eligible(r.byAddr[order[n]], q, now) then [r.byAddr[order[n]]] else []
  }

  /** `x` in its place among ranked agents. */
  function Placed(x: Agent, s: seq<Agent>): (t: seq<Agent>)
    ensures |t| == |s| + 1
  {
    if s == [] then [x] else if Before(x, s[0]) then [x] + s else [s[0]] + Placed(x, s[1..])
  }

  function Sorted(s: seq<Agent>): (t: seq<Agent>)
    ensures |t| == |s|
  {
    if s == [] then [] else Placed(s[|s| - 1], Sorted(s[..|s| - 1]))
  }

  function Search(r: Registry, order: seq<Address>, q: Query, now: nat): seq<Agent> {
    Sorted(Candidates(r, order, q, now))
  }

  // ---- plans ----

  datatype Task = Task(required: seq<string>, tagsOk: bool, minCount: nat, qosLevel: nat, timeoutMs: u64)

  datatype Assignment = Assignment(addr: Address, shard: nat, expiry: nat)

  datatype Plan = Plan(id: nat, assignments: seq<Assignment>, createdAt: nat)

  const U64_MAX := 0xFFFF_FFFF_FFFF_FFFF

  function Saturated(n: nat): nat { if n > U64_MAX then U64_MAX else n }

  /** Milliseconds rounded up to seconds, at least one and at most an hour. */
  function LeaseSecs(timeoutMs: u64): (n: nat)
    ensures 1 <= n <= MAX_LEASE_SECS
  {
    var secs := Saturated(timeoutMs + 999) / 1000;
    if secs < 1 then 1 else if secs > MAX_LEASE_SECS then MAX_LEASE_SECS else secs
  }

  function Assignments(picked: seq<Agent>, expiry: nat): (s: seq<Assignment>)
    ensures |s| == |picked|
    ensures forall i :: 0 <= i < |s| ==> s[i] == Assignment(picked[i].card.addr, i, expiry)
  {
    seq(|picked|, i requires 0 <= i < |picked| => Assignment(picked[i].card.addr, i, expiry))
  }

  /** Every picked agent holds the lease; the others are as they were. */
  function WithLease(byAddr: map<Address, Agent>, picked: seq<Agent>, lease: Lease): map<Address, Agent> {
    map a | a in byAddr :: if exists i :: 0 <= i < |picked| && picked[i].card.addr == a
                           then byAddr[a].(lease := Some(lease)) else byAddr[a]
  }

  datatype Planned = Planned(registry: Registry, result: Result<Plan, AnsError>)

  function PlanTask(r: Registry, order: seq<Address>, task: Task, now: nat): Planned {
    if !task.tagsOk then Planned(r, Err(BadTags))
    else if task.minCount == 0 then Planned(r, Err(Insufficient(0, 0)))
    else
      var ranked := Search(r, order, Query(task.required, task.qosLevel, true), now);
      if |ranked| < task.minCount then Planned(r, Err(Insufficient(task.minCount, |ranked|)))
      else
        var picked, expiry := ranked[..task.minCount], Saturated(now + LeaseSecs(task.timeoutMs));
        Planned(r.(byAddr := WithLease(r.byAddr, picked, Lease(r.nextPlanId, expiry)), nextPlanId := r.nextPlanId + 1),
                Ok(Plan(r.nextPlanId, Assignments(picked, expiry), now)))
  }

  datatype Done = Done(registry: Registry, result: Result<(), AnsError>)

  function ReportDone(r: Registry, plan: nat, addr: Address): Done {
    if addr in r.byAddr && r.byAddr[addr].lease.Some? && r.byAddr[addr].lease.value.plan == plan then
      Done(r.(byAddr := r.byAddr[addr := r.byAddr[addr].(lease := Option.None)]), Ok(()))
    else Done(r, Err(NotFound))
  }

  // ---- reaping ----

  function Cleared(a: Agent, now: nat): Agent {
    if a.lease.Some? && a.lease.value.expiry <= now then a.(lease := Option.None) else a
  }

  function ExpiredNames(r: Registry, now: nat): set<string> {
    set a | a in r.byAddr && Expired(r.byAddr[a], now) :: r.byAddr[a].card.name
  }

  /** Past leases are cleared, expired agents leave with the names they are registered under. */
  function Reap(r: Registry, now: nat): Registry {
    r.(byAddr := map a | a in r.byAddr && !Expired(r.byAddr[a], now) :: Cleared(r.byAddr[a], now),
       byName := r.byName - ExpiredNames(r, now))
  }

  // ---- the service ----

  /** The store's enumeration of its addresses: each once, in any order. */
  ghost predicate Enumerates(order: seq<Address>, byAddr: map<Address, Agent>) {
    && (forall i, j :: 0 <= i < j < |order| ==> order[i] != order[j])
    && (forall a :: a in order <==> a in byAddr)
  }

  /** The index leads back to every agent, and agents are filed under their own address. */
  ghost predicate Indexed(r: Registry) {
    forall a :: a in r.byAddr ==>
      r.byAddr[a].card.addr == a && r.byAddr[a].card.name in r.byName && r.byName[r.byAddr[a].card.name] == a
  }

  class AnsService {
    var byAddr: map<Address, Agent>
    var byName: map<string, Address>
    const root: string
    var nextPlanId: nat

    function State(): Registry
      reads this
    {
      Registry(byAddr, byName, nextPlanId)
    }

    constructor (namespaceRoot: string)
      ensures State() == Registry(map[], map[], 1) && root == namespaceRoot
    {
      byAddr, byName, nextPlanId, root := map[], map[], 1, namespaceRoot;
    }

    method StoreRemove(addr: Address)
      modifies this`byAddr, this`byName
      ensures State() == Remove(old(State()), addr)
    {
      if addr in byAddr {
        var a := byAddr[addr];
        byAddr := byAddr - {addr};
        byName := byName - {a.card.name};
      }
    }

    method RegisterAgent(c: Claim, now: nat) returns (r: Result<(), AnsError>)
      modifies this
      ensures Registered(State(), r) == Register(old(State()), root, c, now)
    {
      var v := Validate(root, c, now);
      if v.Err? { return Err(v.error); }
      var addr, pubkey := v.value.0, v.value.1;
      var name := c.card.name;
      if name in byName {
        var existing := byName[name];
        if existing != addr {
          if existing in byAddr && !Expired(byAddr[existing], now) { return Err(NameConflict); }
          StoreRemove(existing);
        }
      }
      if addr in byAddr && byAddr[addr].pubkey != pubkey { return Err(KeyConflict); }
      var lease := if addr in byAddr then byAddr[addr].lease else Option.None;
      byName := byName[name := addr];
      byAddr := byAddr[addr := Agent(pubkey, c.card, lease)];
      r := Ok(());
    }

    /** Collect and rank the eligible agents, visiting them in the store's order. */
    method SearchCapability(order: seq<Address>, q: Query, now: nat) returns (out: seq<Agent>)
      ensures out == Search(State(), order, q, now)
    {
      hide Eligible, Before;
      var found := [];
      var i := 0;
      while i < |order|
        invariant 0 <= i <= |order| && found == Candidates(State(), order[..i], q, now)
      {
        assert order[..i + 1][..i] == order[..i];
        if order[i] in byAddr && Eligible(byAddr[order[i]], q, now) { found := found + [byAddr[order[i]]]; }
        i := i + 1;
      }
      assert order[..i] == order;
      out := [];
      i := 0;
      while i < |found|
        invariant 0 <= i <= |found| && out == Sorted(found[..i])
      {
        assert found[..i + 1][..i] == found[..i];
        out := Placed(found[i], out);
        i := i + 1;
      }
      assert found[..i] == found;
    }

    method PlanTasks(order: seq<Address>, task: Task, now: nat) returns (r: Result<Plan, AnsError>)
      requires Indexed(State()) && Enumerates(order, byAddr)
      modifies this
      ensures Planned(State(), r) == PlanTask(old(State()), order, task, now)
    {
      hide Search, Eligible, Before, LeaseSecs;
      if !task.tagsOk { return Err(BadTags); }
      if task.minCount == 0 { return Err(Insufficient(0, 0)); }
      var secs := LeaseSecs(task.timeoutMs);
      var candidates := SearchCapability(order, Query(task.required, task.qosLevel, true), now);
      if |candidates| < task.minCount { return Err(Insufficient(task.minCount, |candidates|)); }
      var planId := nextPlanId;
      nextPlanId := nextPlanId + 1;
      var assignments := [];
      ghost var picked := candidates[..task.minCount];
      var expiry := Saturated(now + secs);
      var i := 0;
      while i < task.minCount
        invariant 0 <= i <= task.minCount
        invariant assignments == Assignments(candidates[..i], expiry)
        invariant byAddr == WithLease(old(byAddr), candidates[..i], Lease(planId, expiry))
        invariant byName == old(byName) && nextPlanId == old(nextPlanId) + 1
      {
        var c := candidates[i].card.addr;
        assert candidates[..i + 1] == candidates[..i] + [candidates[i]];
        LeaseOneMore(old(byAddr), candidates[..i], candidates[i], Lease(planId, expiry));
        if c in byAddr { byAddr := byAddr[c := byAddr[c].(lease := Some(Lease(planId, expiry)))]; }
        assignments := assignments + [Assignment(c, i, expiry)];
        i := i + 1;
      }
      r := Ok(Plan(planId, assignments, now));
    }

    method ReportDoneBy(plan: nat, addr: Address) returns (r: Result<(), AnsError>)
      modifies this`byAddr
      ensures Done(State(), r) == ReportDone(old(State()), plan, addr)
    {
      if addr !in byAddr { return Err(NotFound); }
      var a := byAddr[addr];
      if a.lease.None? || a.lease.value.plan != plan { return Err(NotFound); }
      byAddr := byAddr[addr := a.(lease := Option.None)];
      r := Ok(());
    }

    /** Clear past leases in one pass, noting expired agents; remove those in a second. */
    method ReapAll(order: seq<Address>, now: nat) returns (released: nat, removed: nat)
      requires Indexed(State()) && Enumerates(order, byAddr)
      modifies this`byAddr, this`byName
      ensures State() == Reap(old(State()), now)
      ensures released == |set a | a in old(byAddr) && old(byAddr)[a] != Cleared(old(byAddr)[a], now)|
      ensures removed == |set a | a in old(byAddr) && Expired(old(byAddr)[a], now)|
    {
      ghost var was := State();
      var expired: seq<Address>;
      released, expired := ClearLeases(order, now);
      removed := |expired|;
      AllCleared(was.byAddr, order, now);
      ExpiredCount(was.byAddr, order, now);
      var i := 0;
      while i < |expired|
        invariant 0 <= i <= |expired|
        invariant State() == Emptied(was.(byAddr := ClearedIn(was.byAddr, order, now)), expired[..i])
      {
        EmptiedOneMore(was.(byAddr := ClearedIn(was.byAddr, order, now)), expired, i);
        StoreRemove(expired[i]);
        i := i + 1;
      }
      assert expired[..i] == expired;
      ReapIs(was, order, now);
    }

    method ClearLeases(order: seq<Address>, now: nat) returns (released: nat, expired: seq<Address>)
      requires Enumerates(order, byAddr)
      modifies this`byAddr
      ensures byAddr == ClearedIn(old(byAddr), order, now)
      ensures expired == ExpiredIn(old(byAddr), order, now)
      ensures released == |PastLeases(old(byAddr), order, now)|
    {
      hide ClearedIn, ExpiredIn, PastLeases;
      NothingVisited(byAddr, now);
      released, expired := 0, [];
      var i := 0;
      while i < |order|
        invariant 0 <= i <= |order|
        invariant byAddr == ClearedIn(old(byAddr), order[..i], now)
        invariant expired == ExpiredIn(old(byAddr), order[..i], now)
        invariant released == |PastLeases(old(byAddr), order[..i], now)|
      {
        var addr := order[i];
        ClearOneMore(old(byAddr), order, i, now);
        NoteOneMore(old(byAddr), order, i, now);
        CountOneMore(old(byAddr), order, i, now);
        if addr in byAddr {
          var a := byAddr[addr];
          if a.lease.Some? && a.lease.value.expiry <= now {
            byAddr := byAddr[addr := a.(lease := Option.None)];
            released := released + 1;
          }
          if Expired(a, now) { expired := expired + [addr]; }
        }
        i := i + 1;
      }
      assert order[..i] == order;
    }
  }

  // ---- the two passes of the reaper ----

  function ClearedIn(byAddr: map<Address, Agent>, visited: seq<Address>, now: nat): map<Address, Agent> {
    map a | a in byAddr :: if a in visited then Cleared(byAddr[a], now) else byAddr[a]
  }

  function ExpiredIn(byAddr: map<Address, Agent>, visited: seq<Address>, now: nat): seq<Address> {
    if visited == [] then []
    else
      var n := |visited| - 1;
      ExpiredIn(byAddr, visited[..n], now)
      + if visited[n] in byAddr && Expired(byAddr[visited[n]], now) then [visited[n]] else []
  }

  function PastLeases(byAddr: map<Address, Agent>, visited: seq<Address>, now: nat): set<Address> {
    set a | a in visited && a in byAddr && byAddr[a] != Cleared(byAddr[a], now)
  }

  function Emptied(r: Registry, gone: seq<Address>): Registry {
    if gone == [] then r else Remove(Emptied(r, gone[..|gone| - 1]), gone[|gone| - 1])
  }

  lemma {:induction false} NothingVisited(byAddr: map<Address, Agent>, now: nat)
    ensures ClearedIn(byAddr, [], now) == byAddr && ExpiredIn(byAddr, [], now) == []
    ensures PastLeases(byAddr, [], now) == {}
  {
  }

  lemma {:induction false} NotVisited(order: seq<Address>, i: nat)
    requires i < |order| && Distinct(order)
    ensures order[i] !in order[..i] && order[..i + 1] == order[..i] + [order[i]]
  {
  }

  lemma {:induction false} ClearOneMore(byAddr: map<Address, Agent>, order: seq<Address>, i: nat, now: nat)
    requires i < |order| && Distinct(order)
    ensures var m, addr := ClearedIn(byAddr, order[..i], now), order[i];
            && ClearedIn(byAddr, order[..i + 1], now)
               == (if addr in byAddr then m[addr := Cleared(byAddr[addr], now)] else m)
            && m.Keys == byAddr.Keys && (addr in byAddr ==> m[addr] == byAddr[addr])
  {
    hide Cleared, Distinct;
    NotVisited(order, i);
  }

  lemma {:induction false} NoteOneMore(byAddr: map<Address, Agent>, order: seq<Address>, i: nat, now: nat)
    requires i < |order|
    ensures var addr := order[i];
            ExpiredIn(byAddr, order[..i + 1], now)
            == ExpiredIn(byAddr, order[..i], now)
               + (if addr in byAddr && Expired(byAddr[addr], now) then [addr] else [])
  {
    hide Expired;
    assert order[..i + 1][..i] == order[..i];
  }

  lemma {:induction false} CountOneMore(byAddr: map<Address, Agent>, order: seq<Address>, i: nat, now: nat)
    requires i < |order| && Distinct(order)
    ensures var addr := order[i];
            |PastLeases(byAddr, order[..i + 1], now)|
            == |PastLeases(byAddr, order[..i], now)|
               + (if addr in byAddr && byAddr[addr] != Cleared(byAddr[addr], now) then 1 else 0)
  {
    hide Cleared, Distinct;
    var addr := order[i];
    NotVisited(order, i);
    assert PastLeases(byAddr, order[..i + 1], now)
        == PastLeases(byAddr, order[..i], now)
           + (if addr in byAddr && byAddr[addr] != Cleared(byAddr[addr], now) then {addr} else {});
  }

  lemma {:induction false} AllCleared(byAddr: map<Address, Agent>, order: seq<Address>, now: nat)
    requires Enumerates(order, byAddr)
    ensures ClearedIn(byAddr, order, now) == map a | a in byAddr :: Cleared(byAddr[a], now)
    ensures PastLeases(byAddr, order, now) == set a | a in byAddr && byAddr[a] != Cleared(byAddr[a], now)
  {
    hide Cleared;
  }

  lemma {:induction false} ExpiredMembers(byAddr: map<Address, Agent>, visited: seq<Address>, now: nat)
    requires Distinct(visited)
    ensures var s := ExpiredIn(byAddr, visited, now);
            Distinct(s) && forall a :: a in s <==> a in visited && a in byAddr && Expired(byAddr[a], now)
  {
    hide Expired;
    if visited == [] {
    } else {
      var n := |visited| - 1;
      ExpiredMembers(byAddr, visited[..n], now);
      NotVisited(visited, n);
      assert visited == visited[..n + 1];
    }
  }

  lemma {:induction false} ExpiredCount(byAddr: map<Address, Agent>, order: seq<Address>, now: nat)
    requires Enumerates(order, byAddr)
    ensures |ExpiredIn(byAddr, order, now)| == |set a | a in byAddr && Expired(byAddr[a], now)|
  {
    hide Expired, ExpiredIn;
    ExpiredMembers(byAddr, order, now);
    SizeOfSet(ExpiredIn(byAddr, order, now), set a | a in byAddr && Expired(byAddr[a], now));
  }

  lemma {:induction false} EmptiedOneMore(r: Registry, gone: seq<Address>, i: nat)
    requires i < |gone|
    ensures Emptied(r, gone[..i + 1]) == Remove(Emptied(r, gone[..i]), gone[i])
  {
    assert gone[..i + 1][..i] == gone[..i];
  }

  function NamesOf(byAddr: map<Address, Agent>, gone: seq<Address>): set<string> {
    set a | a in gone && a in byAddr :: byAddr[a].card.name
  }

  lemma {:induction false} NoNames(byAddr: map<Address, Agent>)
    ensures NamesOf(byAddr, []) == {}
  {
  }

  lemma {:induction false} EmptiedIs(r: Registry, gone: seq<Address>)
    requires Distinct(gone) && forall a :: a in gone ==> a in r.byAddr
    ensures Emptied(r, gone).byAddr == map a | a in r.byAddr && a !in gone :: r.byAddr[a]
    ensures Emptied(r, gone).byName == r.byName - NamesOf(r.byAddr, gone)
    ensures Emptied(r, gone).nextPlanId == r.nextPlanId
  {
    hide NamesOf;
    if gone == [] {
      NoNames(r.byAddr);
    } else {
      var n := |gone| - 1;
      EmptiedIs(r, gone[..n]);
      NotVisited(gone, n);
      assert gone == gone[..n + 1];
      NamesOneMore(r.byAddr, gone);
      assert (r.byName - NamesOf(r.byAddr, gone[..n])) - {r.byAddr[gone[n]].card.name}
        == r.byName - NamesOf(r.byAddr, gone);
    }
  }

  lemma {:induction false} NamesOneMore(byAddr: map<Address, Agent>, gone: seq<Address>)
    requires gone != [] && gone[|gone| - 1] in byAddr
    ensures NamesOf(byAddr, gone) == NamesOf(byAddr, gone[..|gone| - 1]) + {byAddr[gone[|gone| - 1]].card.name}
  {
    var n := |gone| - 1;
    assert gone == gone[..n] + [gone[n]];
  }

  /** The two passes together are the reaping. */
  lemma {:induction false} ReapIs(r: Registry, order: seq<Address>, now: nat)
    requires Enumerates(order, r.byAddr)
    ensures Emptied(r.(byAddr := ClearedIn(r.byAddr, order, now)), ExpiredIn(r.byAddr, order, now)) == Reap(r, now)
  {
    hide Expired, ClearedIn, ExpiredIn, Cleared, Emptied;
    var cleared, gone := ClearedIn(r.byAddr, order, now), ExpiredIn(r.byAddr, order, now);
    AllCleared(r.byAddr, order, now);
    ExpiredMembers(r.byAddr, order, now);
    EmptiedIs(r.(byAddr := cleared), gone);
    ReapedNames(r, cleared, gone, now);
  }

  lemma {:induction false} ReapedNames(r: Registry, cleared: map<Address, Agent>, gone: seq<Address>, now: nat)
    requires cleared == map a | a in r.byAddr :: Cleared(r.byAddr[a], now)
    requires forall a :: a in gone <==> a in r.byAddr && Expired(r.byAddr[a], now)
    ensures NamesOf(cleared, gone) == ExpiredNames(r, now)
  {
    hide Expired;
  }

  lemma {:induction false} LeaseOneMore(byAddr: map<Address, Agent>, picked: seq<Agent>, x: Agent, lease: Lease)
    ensures var m, c := WithLease(byAddr, picked, lease), x.card.addr;
            WithLease(byAddr, picked + [x], lease)
            == if c in m then m[c := m[c].(lease := Some(lease))] else m
  {
    var all := picked + [x];
    assert forall i :: 0 <= i < |picked| ==> all[i] == picked[i];
    assert all[|picked|] == x;
    var m, n, c := WithLease(byAddr, picked, lease), WithLease(byAddr, all, lease), x.card.addr;
    forall a | a in byAddr ensures n[a] == if a == c then m[c].(lease := Some(lease)) else m[a] {
      if exists i :: 0 <= i < |picked| && picked[i].card.addr == a {
        var i :| 0 <= i < |picked| && picked[i].card.addr == a;
        assert all[i].card.addr == a;
      }
    }
  }
}
