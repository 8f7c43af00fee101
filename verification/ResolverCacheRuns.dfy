/** Runs of the cached store in which lookups overlap: it answers as the plain store would,
    and its list holds the most recently used addresses. */
module ResolverCacheRuns {
  import opened Wrappers
  import opened Counting
  import opened ResolverCache

  /** A lookup that misses is in flight between its two critical sections. Lookups share the
      outer lock; a write needs it alone. `uses` lists the addresses the list was used with. */
  datatype World = World(s: State, flying: seq<Addr>, uses: seq<Addr>)

  datatype Step =
    | Begin(addr: Addr, now: int)
    | Finish(i: nat, now: int)
    | Insert(addr: Addr, entry: Entry)
    | Sweep(now: int)

  predicate Enabled(w: World, step: Step) {
    match step
    case Begin(_, _) => true
    case Finish(i, _) => i < |w.flying|
    case _ => w.flying == []
  }

  function Init(inner: map<Addr, Entry>): World {
    World(State(inner, [], map[]), [], [])
  }

  function After(c: Config, w: World, step: Step): World
    requires c.maxEntries > 0 && Enabled(w, step)
  {
    match step
    case Begin(addr, now) =>
      var (s, b) := AfterBegin(w.s, c, addr, now);
      if b.Missed? then World(s, w.flying + [addr], w.uses)
      else World(s, w.flying, w.uses + if b.result.Some? then [addr] else [])
    case Finish(i, now) =>
      var (s, e) := AfterFinish(w.s, c, w.flying[i], now);
      World(s, Without(w.flying, i), w.uses + if e.Some? then [w.flying[i]] else [])
    case Insert(addr, e) => World(AfterInsert(w.s, c, addr, e), w.flying, w.uses + [addr])
    case Sweep(now) => w.(s := AfterSweep(w.s, now))
  }

  /** What a step answers to a lookup, if it does. */
  function Answer(c: Config, w: World, step: Step): Option<(Addr, Option<Entry>)>
    requires c.maxEntries > 0 && Enabled(w, step)
  {
    match step
    case Begin(addr, now) =>
      var b := AfterBegin(w.s, c, addr, now).1;
      if b.Answered? then Some((addr, b.result)) else Option.None
    case Finish(i, now) => Some((w.flying[i], AfterFinish(w.s, c, w.flying[i], now).1))
    case _ => Option.None
  }

  predicate Legal(c: Config, inner: map<Addr, Entry>, steps: seq<Step>)
    requires c.maxEntries > 0
    decreases |steps|, 0
  {
    steps == [] ||
    (var before := steps[..|steps| - 1];
     Legal(c, inner, before) && Enabled(Run(c, inner, before), steps[|steps| - 1]))
  }

  function Run(c: Config, inner: map<Addr, Entry>, steps: seq<Step>): World
    requires c.maxEntries > 0 && Legal(c, inner, steps)
    decreases |steps|, 1
  {
    if steps == [] then Init(inner)
    else After(c, Run(c, inner, steps[..|steps| - 1]), steps[|steps| - 1])
  }

  /** The plain store under the same writes: lookups do nothing to it. */
  function Plain(inner: map<Addr, Entry>, steps: seq<Step>): map<Addr, Entry> {
    if steps == [] then inner
    else
      var m := Plain(inner, steps[..|steps| - 1]);
      match steps[|steps| - 1]
      case Insert(addr, e) => m[addr := e]
      case Sweep(now) => Swept(m, now)
      case _ => m
  }

  // ---- agreement with the store ----

  ghost predicate Agrees(s: State) {
    && (forall i :: 0 <= i < |s.cache| ==> Lookup(s.inner, s.cache[i].addr) == Some(s.cache[i].entry))
    && (forall a :: a in s.negative ==> a !in s.inner)
  }

  lemma {:induction false} UsedMembers(cache: seq<Slot>, capacity: nat, addr: Addr, e: Entry, k: nat)
    requires capacity > 0 && 0 < k < |Used(cache, capacity, addr, e)| && DistinctKeys(cache)
    ensures var i := Find(cache, addr);
      var from := if i < |cache| && k > i then k else k - 1;
      from < |cache| && Used(cache, capacity, addr, e)[k] == cache[from] && cache[from].addr != addr
  {
    var i := Find(cache, addr);
    if i < k < |cache| {
      DistinctKeyAt(cache, i, k);
    }
  }

  lemma {:induction false} DistinctKeyAt(cache: seq<Slot>, i: nat, j: nat)
    requires DistinctKeys(cache) && i < j < |cache|
    ensures cache[i].addr != cache[j].addr
  {
  }

  lemma {:induction false} UsedFirst(cache: seq<Slot>, capacity: nat, addr: Addr, e: Entry)
    requires capacity > 0
    ensures |Used(cache, capacity, addr, e)| > 0 && Used(cache, capacity, addr, e)[0] == Slot(addr, e)
  {
  }

  lemma {:induction false} UsedAgrees(s: State, capacity: nat, addr: Addr, e: Entry, inner: map<Addr, Entry>,
      negative: map<Addr, int>)
    requires capacity > 0 && Agrees(s) && DistinctKeys(s.cache)
    requires inner == s.inner[addr := e] && negative == s.negative - {addr}
    ensures Agrees(State(inner, Used(s.cache, capacity, addr, e), negative))
  {
    hide DistinctKeys, Used;
    var after := Used(s.cache, capacity, addr, e);
    UsedFirst(s.cache, capacity, addr, e);
    forall k | 0 <= k < |after| ensures Lookup(inner, after[k].addr) == Some(after[k].entry) {
      if k > 0 {
        UsedMembers(s.cache, capacity, addr, e, k);
      }
    }
  }

  lemma {:induction false} UnexpiredMembers(cache: seq<Slot>, now: int)
    ensures forall x :: x in Unexpired(cache, now) <==> x in cache && !x.entry.Expired(now)
    ensures |Unexpired(cache, now)| <= |cache|
  {
    if cache == [] {
    } else {
      var n := |cache| - 1;
      UnexpiredMembers(cache[..n], now);
      assert cache == cache[..n] + [cache[n]];
    }
  }

  lemma {:induction false} SweepAgrees(s: State, now: int)
    requires Agrees(s)
    ensures Agrees(AfterSweep(s, now))
  {
    hide Unexpired;
    UnexpiredMembers(s.cache, now);
    var after := AfterSweep(s, now);
    forall k | 0 <= k < |after.cache| ensures Lookup(after.inner, after.cache[k].addr) == Some(after.cache[k].entry) {
      assert after.cache[k] in s.cache;
    }
  }

  ghost predicate Sound(c: Config, s: State) {
    Agrees(s) && DistinctKeys(s.cache) && |s.cache| <= c.maxEntries
  }

  lemma {:induction false} SweptDistinct(cache: seq<Slot>, now: int)
    requires DistinctKeys(cache)
    ensures DistinctKeys(Unexpired(cache, now))
  {
    DropExpired(cache, now);
    DroppedIsDistinct(cache, ExpiredKeys(cache, now));
  }

  lemma {:induction false} SameMap(m: map<Addr, Entry>, addr: Addr)
    requires addr in m
    ensures m == m[addr := m[addr]]
  {
  }

  lemma {:induction false} BeginSound(c: Config, s: State, addr: Addr, now: int)
    requires c.maxEntries > 0 && Sound(c, s)
    ensures Sound(c, AfterBegin(s, c, addr, now).0) && AfterBegin(s, c, addr, now).0.inner == s.inner
  {
    hide DistinctKeys, Used;
    var i := Find(s.cache, addr);
    if i < |s.cache| {
      var e := s.cache[i].entry;
      assert Lookup(s.inner, addr) == Some(e);
      SameMap(s.inner, addr);
      assert s.negative == s.negative - {addr};
      UsedAgrees(s, c.maxEntries, addr, e, s.inner, s.negative);
      UsedKeepsDistinct(s.cache, c.maxEntries, addr, e);
    }
  }

  lemma {:induction false} FinishSound(c: Config, s: State, addr: Addr, now: int)
    requires c.maxEntries > 0 && Sound(c, s)
    ensures Sound(c, AfterFinish(s, c, addr, now).0) && AfterFinish(s, c, addr, now).0.inner == s.inner
  {
    hide DistinctKeys, Used;
    if addr in s.inner {
      SameMap(s.inner, addr);
      assert s.negative == s.negative - {addr};
      UsedAgrees(s, c.maxEntries, addr, s.inner[addr], s.inner, s.negative);
      UsedKeepsDistinct(s.cache, c.maxEntries, addr, s.inner[addr]);
    }
  }

  lemma {:induction false} StepSound(c: Config, w: World, step: Step)
    requires c.maxEntries > 0 && Enabled(w, step) && Sound(c, w.s)
    ensures Sound(c, After(c, w, step).s)
    ensures After(c, w, step).s.inner == match step
      case Insert(addr, e) => w.s.inner[addr := e]
      case Sweep(now) => Swept(w.s.inner, now)
      case _ => w.s.inner
  {
    hide DistinctKeys, Used, AfterBegin, AfterFinish, Unexpired;
    match step
    case Begin(addr, now) => BeginSound(c, w.s, addr, now);
    case Finish(i, now) => FinishSound(c, w.s, w.flying[i], now);
    case Insert(addr, e) =>
      UsedAgrees(w.s, c.maxEntries, addr, e, w.s.inner[addr := e], w.s.negative - {addr});
      UsedKeepsDistinct(w.s.cache, c.maxEntries, addr, e);
    case Sweep(now) =>
      SweepAgrees(w.s, now);
      SweptDistinct(w.s.cache, now);
      UnexpiredMembers(w.s.cache, now);
  }

  /** In every run the cached entries and the remembered misses agree with the store, the list
      keeps to its capacity, and the store is what the same writes make of a plain store. */
  lemma {:induction false} EveryRunIsSound(c: Config, inner: map<Addr, Entry>, steps: seq<Step>)
    requires c.maxEntries > 0 && Legal(c, inner, steps)
    ensures Sound(c, Run(c, inner, steps).s)
    ensures Run(c, inner, steps).s.inner == Plain(inner, steps)
  {
    hide Enabled, After, Sound;
    if steps == [] {
      StartsSound(c, inner);
    } else {
      var n := |steps| - 1;
      EveryRunIsSound(c, inner, steps[..n]);
      StepSound(c, Run(c, inner, steps[..n]), steps[n]);
    }
  }

  lemma {:induction false} StartsSound(c: Config, inner: map<Addr, Entry>)
    ensures Sound(c, Init(inner).s)
  {
  }

  lemma {:induction false} AnswersAgree(c: Config, w: World, step: Step)
    requires c.maxEntries > 0 && Enabled(w, step) && Sound(c, w.s)
    ensures var a := Answer(c, w, step); a.Some? ==> a.value.1 == Lookup(w.s.inner, a.value.0)
  {
    hide Used, DistinctKeys;
  }

  /** Whatever the lookups in flight, the times and the evictions, a lookup is answered as the
      plain store would answer it at that moment. */
  lemma {:induction false} AnswersAsStore(c: Config, inner: map<Addr, Entry>, steps: seq<Step>, step: Step)
    requires c.maxEntries > 0 && Legal(c, inner, steps) && Enabled(Run(c, inner, steps), step)
    ensures var a := Answer(c, Run(c, inner, steps), step);
      a.Some? ==> a.value.1 == Lookup(Plain(inner, steps), a.value.0)
  {
    hide Run, Answer, Enabled, Sound;
    EveryRunIsSound(c, inner, steps);
    AnswersAgree(c, Run(c, inner, steps), step);
  }

  // ---- recency ----

  /** The addresses used after the last use of `k`. */
  function Since(uses: seq<Addr>, k: Addr): set<Addr> {
    if uses == [] || uses[|uses| - 1] == k then {}
    else Since(uses[..|uses| - 1], k) + {uses[|uses| - 1]}
  }

  ghost predicate Holds(cache: seq<Slot>, k: Addr) {
    exists i :: 0 <= i < |cache| && cache[i].addr == k
  }

  /** The list is in order of last use. */
  ghost predicate Ordered(cache: seq<Slot>, uses: seq<Addr>) {
    forall i, j :: 0 <= i < j < |cache| ==> cache[i].addr in Since(uses, cache[j].addr)
  }

  /** The condition of an address that was used but is not in the list: everything in the list
      was used after it, and enough others were to fill the list. */
  ghost predicate Displaced(cache: seq<Slot>, capacity: nat, uses: seq<Addr>, k: Addr) {
    && (forall i :: 0 <= i < |cache| ==> cache[i].addr in Since(uses, k))
    && |Since(uses, k)| >= capacity
  }

  ghost predicate Recent(cache: seq<Slot>, capacity: nat, inner: map<Addr, Entry>, uses: seq<Addr>) {
    && Ordered(cache, uses)
    && forall k :: k in uses && k in inner && !Holds(cache, k) ==> Displaced(cache, capacity, uses, k)
  }

  lemma {:induction false} SinceMore(uses: seq<Addr>, x: Addr, k: Addr)
    ensures Since(uses + [x], k) == if x == k then {} else Since(uses, k) + {x}
  {
    assert (uses + [x])[..|uses|] == uses;
  }

  lemma {:induction false} Larger<T>(a: set<T>, b: set<T>)
    requires a <= b
    ensures |a| <= |b|
  {
    if a == {} {
    } else {
      var x :| x in a;
      Larger(a - {x}, b - {x});
    }
  }

  function KeySet(cache: seq<Slot>): set<Addr> {
    if cache == [] then {} else KeySet(cache[..|cache| - 1]) + {cache[|cache| - 1].addr}
  }

  lemma {:induction false} KeySetIs(cache: seq<Slot>)
    ensures forall k :: k in KeySet(cache) <==> Holds(cache, k)
  {
    if cache == [] {
    } else {
      var n := |cache| - 1;
      KeySetIs(cache[..n]);
      forall k | Holds(cache[..n], k) ensures Holds(cache, k) {
        var i :| 0 <= i < n && cache[..n][i].addr == k;
        assert cache[i].addr == k;
      }
      forall k | Holds(cache, k) && k != cache[n].addr ensures Holds(cache[..n], k) {
        var i :| 0 <= i < |cache| && cache[i].addr == k;
        assert cache[..n][i].addr == k;
      }
    }
  }

  lemma {:induction false} KeySetSize(cache: seq<Slot>)
    requires DistinctKeys(cache)
    ensures |KeySet(cache)| == |cache|
  {
    if cache == [] {
    } else {
      var n := |cache| - 1;
      KeySetSize(cache[..n]);
      KeySetIs(cache[..n]);
      assert !Holds(cache[..n], cache[n].addr);
    }
  }

  lemma {:induction false} UsedOrdered(cache: seq<Slot>, capacity: nat, addr: Addr, e: Entry, uses: seq<Addr>)
    requires capacity > 0 && DistinctKeys(cache) && Ordered(cache, uses)
    ensures Ordered(Used(cache, capacity, addr, e), uses + [addr])
  {
    hide DistinctKeys, Used, Since;
    var after := Used(cache, capacity, addr, e);
    UsedFirst(cache, capacity, addr, e);
    forall i, j | 0 <= i < j < |after| ensures after[i].addr in Since(uses + [addr], after[j].addr) {
      UsedMembers(cache, capacity, addr, e, j);
      SinceMore(uses, addr, after[j].addr);
      if i > 0 {
        UsedMembers(cache, capacity, addr, e, i);
      }
    }
  }

  lemma {:induction false} HeldAt(cache: seq<Slot>, k: Addr) returns (i: nat)
    requires Holds(cache, k)
    ensures i < |cache| && cache[i].addr == k
  {
    i :| 0 <= i < |cache| && cache[i].addr == k;
  }

  lemma {:induction false} StaysUnlessLast(cache: seq<Slot>, capacity: nat, addr: Addr, e: Entry, i: nat)
    requires 0 < capacity && i < |cache| <= capacity
    requires Find(cache, addr) < |cache| || |cache| < capacity || i < capacity - 1
    ensures Holds(Used(cache, capacity, addr, e), cache[i].addr)
  {
    var at := Find(cache, addr);
    var after := Used(cache, capacity, addr, e);
    assert after[if i == at then 0 else if i < at then i + 1 else i].addr == cache[i].addr;
  }

  /** An address that a use pushes out was the last of a full list. */
  lemma {:induction false} PushedOut(cache: seq<Slot>, capacity: nat, addr: Addr, e: Entry, k: Addr)
    requires 0 < capacity && |cache| <= capacity && Holds(cache, k) && !Holds(Used(cache, capacity, addr, e), k)
    ensures |cache| == capacity && k == cache[capacity - 1].addr && |Used(cache, capacity, addr, e)| == capacity
  {
    hide Holds;
    var i := HeldAt(cache, k);
    if Find(cache, addr) < |cache| || |cache| < capacity || i < capacity - 1 {
      StaysUnlessLast(cache, capacity, addr, e, i);
    }
  }

  lemma {:induction false} UsedKept(cache: seq<Slot>, capacity: nat, addr: Addr, e: Entry, uses: seq<Addr>, k: Addr)
    requires 0 < capacity && DistinctKeys(cache) && |cache| <= capacity && k != addr
    requires Displaced(cache, capacity, uses, k)
    ensures Displaced(Used(cache, capacity, addr, e), capacity, uses + [addr], k)
  {
    hide DistinctKeys, Used, Since;
    var after := Used(cache, capacity, addr, e);
    UsedFirst(cache, capacity, addr, e);
    SinceMore(uses, addr, k);
    Larger(Since(uses, k), Since(uses + [addr], k));
    forall i | 0 <= i < |after| ensures after[i].addr in Since(uses + [addr], k) {
      if i > 0 {
        UsedMembers(cache, capacity, addr, e, i);
      }
    }
  }

  lemma {:induction false} UsedEvicts(cache: seq<Slot>, capacity: nat, addr: Addr, e: Entry, uses: seq<Addr>, k: Addr)
    requires 0 < capacity && DistinctKeys(cache) && |cache| <= capacity && Ordered(cache, uses)
    requires Holds(cache, k) && !Holds(Used(cache, capacity, addr, e), k)
    ensures Displaced(Used(cache, capacity, addr, e), capacity, uses + [addr], k)
  {
    hide DistinctKeys, Used, Since, Holds, KeySet;
    var after := Used(cache, capacity, addr, e);
    PushedOut(cache, capacity, addr, e, k);
    UsedKeepsDistinct(cache, capacity, addr, e);
    UsedFirst(cache, capacity, addr, e);
    FirstIsHeld(after);
    SinceMore(uses, addr, k);
    forall i | 0 <= i < |after| ensures after[i].addr in Since(uses + [addr], k) {
      if i > 0 {
        UsedMembers(cache, capacity, addr, e, i);
        NotLast(cache, capacity, addr, e, i);
      }
    }
    KeysWithin(after, Since(uses + [addr], k));
  }

  lemma {:induction false} FirstIsHeld(cache: seq<Slot>)
    ensures cache != [] ==> Holds(cache, cache[0].addr)
  {
    if cache != [] {
      assert cache[0].addr == cache[0].addr;
    }
  }

  /** The slot that a use takes the place of does not stay. */
  lemma {:induction false} NotLast(cache: seq<Slot>, capacity: nat, addr: Addr, e: Entry, i: nat)
    requires |cache| == capacity > 0 && DistinctKeys(cache)
    requires 0 < i < |Used(cache, capacity, addr, e)|
    requires !Holds(Used(cache, capacity, addr, e), cache[capacity - 1].addr)
    ensures exists j :: 0 <= j < capacity - 1 && cache[j] == Used(cache, capacity, addr, e)[i]
  {
    UsedMembers(cache, capacity, addr, e, i);
    var from := if Find(cache, addr) < |cache| && i > Find(cache, addr) then i else i - 1;
    assert Used(cache, capacity, addr, e)[i].addr == cache[from].addr;
    assert cache[from] == Used(cache, capacity, addr, e)[i];
  }

  lemma {:induction false} KeysWithin(cache: seq<Slot>, keys: set<Addr>)
    requires DistinctKeys(cache) && forall i :: 0 <= i < |cache| ==> cache[i].addr in keys
    ensures |cache| <= |keys|
  {
    KeySetIs(cache);
    KeySetSize(cache);
    Larger(KeySet(cache), keys);
  }

  lemma {:induction false} UsedRecent(cache: seq<Slot>, capacity: nat, addr: Addr, e: Entry,
      inner: map<Addr, Entry>, inner': map<Addr, Entry>, uses: seq<Addr>)
    requires 0 < capacity && DistinctKeys(cache) && |cache| <= capacity && Recent(cache, capacity, inner, uses)
    requires forall k :: k in inner' && k != addr ==> k in inner
    ensures Recent(Used(cache, capacity, addr, e), capacity, inner', uses + [addr])
  {
    hide DistinctKeys, Used, Holds, Displaced, Ordered;
    var after := Used(cache, capacity, addr, e);
    UsedOrdered(cache, capacity, addr, e, uses);
    UsedFirst(cache, capacity, addr, e);
    FirstIsHeld(after);
    forall k | k in uses + [addr] && k in inner' && !Holds(after, k)
      ensures Displaced(after, capacity, uses + [addr], k)
    {
      if Holds(cache, k) {
        UsedEvicts(cache, capacity, addr, e, uses, k);
      } else {
        UsedKept(cache, capacity, addr, e, uses, k);
      }
    }
  }

  lemma {:induction false} SweepOrdered(cache: seq<Slot>, now: int, uses: seq<Addr>)
    requires Ordered(cache, uses)
    ensures Ordered(Unexpired(cache, now), uses)
  {
    hide Since;
    if cache == [] {
    } else {
      var n := |cache| - 1;
      SweepOrdered(cache[..n], now, uses);
      UnexpiredMembers(cache[..n], now);
      forall i | 0 <= i < |Unexpired(cache[..n], now)|
        ensures Unexpired(cache[..n], now)[i].addr in Since(uses, cache[n].addr)
      {
        assert Unexpired(cache[..n], now)[i] in cache[..n];
      }
    }
  }

  lemma {:induction false} SweepRecent(s: State, capacity: nat, uses: seq<Addr>, now: int)
    requires Agrees(s) && Recent(s.cache, capacity, s.inner, uses)
    ensures Recent(AfterSweep(s, now).cache, capacity, AfterSweep(s, now).inner, uses)
  {
    hide Since, Ordered, Unexpired, Holds;
    var t := AfterSweep(s, now);
    SweepOrdered(s.cache, now, uses);
    UnexpiredMembers(s.cache, now);
    forall k | k in uses && k in t.inner && !Holds(t.cache, k) ensures Displaced(t.cache, capacity, uses, k) {
      if Holds(s.cache, k) {
        SweptKeeps(s, now, k);
      }
      assert Displaced(s.cache, capacity, uses, k);
      forall i | 0 <= i < |t.cache| ensures t.cache[i].addr in Since(uses, k) {
        assert t.cache[i] in s.cache;
      }
    }
  }

  lemma {:induction false} SweptKeeps(s: State, now: int, k: Addr)
    requires Agrees(s) && k in AfterSweep(s, now).inner && Holds(s.cache, k)
    ensures Holds(AfterSweep(s, now).cache, k)
  {
    var i :| 0 <= i < |s.cache| && s.cache[i].addr == k;
    assert Lookup(s.inner, k) == Some(s.cache[i].entry);
    UnexpiredMembers(s.cache, now);
    var slot := s.cache[i];
    assert slot in Unexpired(s.cache, now);
    var j :| 0 <= j < |Unexpired(s.cache, now)| && Unexpired(s.cache, now)[j] == slot;
  }

  ghost predicate WorldRecent(c: Config, w: World) {
    Recent(w.s.cache, c.maxEntries, w.s.inner, w.uses)
  }

  lemma {:induction false} StepRecent(c: Config, w: World, step: Step)
    requires c.maxEntries > 0 && Enabled(w, step) && Sound(c, w.s) && WorldRecent(c, w)
    ensures WorldRecent(c, After(c, w, step))
  {
    hide DistinctKeys, Used, Recent, Agrees, AfterSweep, Without;
    assert w.uses + [] == w.uses;
    match step
    case Begin(addr, now) =>
      if Find(w.s.cache, addr) < |w.s.cache| {
        UsedRecent(w.s.cache, c.maxEntries, addr, w.s.cache[Find(w.s.cache, addr)].entry, w.s.inner, w.s.inner, w.uses);
      }
    case Finish(i, now) =>
      if w.flying[i] in w.s.inner {
        UsedRecent(w.s.cache, c.maxEntries, w.flying[i], w.s.inner[w.flying[i]], w.s.inner, w.s.inner, w.uses);
      }
    case Insert(addr, e) =>
      UsedRecent(w.s.cache, c.maxEntries, addr, e, w.s.inner, w.s.inner[addr := e], w.uses);
    case Sweep(now) => SweepRecent(w.s, c.maxEntries, w.uses, now);
  }

  lemma {:induction false} StartsRecent(c: Config, inner: map<Addr, Entry>)
    ensures WorldRecent(c, Init(inner))
  {
  }

  /** In every run the list is in order of last use, and a stored address that was used but is
      not in the list was last used before everything in the list. */
  lemma {:induction false} KeepsMostRecent(c: Config, inner: map<Addr, Entry>, steps: seq<Step>)
    requires c.maxEntries > 0 && Legal(c, inner, steps)
    ensures WorldRecent(c, Run(c, inner, steps))
  {
    hide Enabled, After, Sound, WorldRecent;
    if steps == [] {
      StartsRecent(c, inner);
    } else {
      var n := |steps| - 1;
      KeepsMostRecent(c, inner, steps[..n]);
      EveryRunIsSound(c, inner, steps[..n]);
      StepRecent(c, Run(c, inner, steps[..n]), steps[n]);
    }
  }

  /** A stored address is a cache hit as long as fewer than `maxEntries` other addresses were
      used since its last use. */
  lemma {:induction false} HitWhileRecent(c: Config, inner: map<Addr, Entry>, steps: seq<Step>, k: Addr, now: int)
    requires c.maxEntries > 0 && Legal(c, inner, steps)
    requires k in Run(c, inner, steps).uses && k in Plain(inner, steps)
    requires |Since(Run(c, inner, steps).uses, k)| < c.maxEntries
    ensures AfterBegin(Run(c, inner, steps).s, c, k, now).1 == Answered(Some(Plain(inner, steps)[k]))
  {
    hide Run, Since, DistinctKeys, Used;
    var w := Run(c, inner, steps);
    KeepsMostRecent(c, inner, steps);
    EveryRunIsSound(c, inner, steps);
    assert Holds(w.s.cache, k);
    var i :| 0 <= i < |w.s.cache| && w.s.cache[i].addr == k;
  }
}
