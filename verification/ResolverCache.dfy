/** The resolver's cache in front of a store: a least-recently-used list of entries and a
    memory of addresses that were not found. Times are parameters. */
module ResolverCache {
  import opened Bytes
  import opened Wrappers
  import opened Counting

  type Addr = bytes

  datatype Entry = Entry(publicKey: bytes, contents: bytes, registeredAt: int, ttl: nat) {
    predicate Expired(now: int) { registeredAt + ttl <= now }
  }

  datatype Slot = Slot(addr: Addr, entry: Entry)

  // ---- the list, most recently used first ----

  function Find(cache: seq<Slot>, addr: Addr): (i: nat)
    ensures i <= |cache|
    ensures i < |cache| ==> cache[i].addr == addr
    ensures forall k :: 0 <= k < i ==> cache[k].addr != addr
  {
    if cache == [] then 0
    else if cache[0].addr == addr then 0
    else 1 + Find(cache[1..], addr)
  }

  /** The list after `addr` was used with entry `e`: the least recently used slot makes room. */
  function Used(cache: seq<Slot>, capacity: nat, addr: Addr, e: Entry): seq<Slot>
    requires capacity > 0
  {
    var i := Find(cache, addr);
    if i < |cache| then [Slot(addr, e)] + Without(cache, i)
    else if |cache| >= capacity then [Slot(addr, e)] + cache[..capacity - 1]
    else [Slot(addr, e)] + cache
  }

  function Dropped(cache: seq<Slot>, keys: seq<Addr>): seq<Slot> {
    if cache == [] then []
    else
      var last := cache[|cache| - 1];
      Dropped(cache[..|cache| - 1], keys) + if last.addr in keys then [] else [last]
  }

  function Unexpired(cache: seq<Slot>, now: int): seq<Slot> {
    if cache == [] then []
    else
      var last := cache[|cache| - 1];
      Unexpired(cache[..|cache| - 1], now) + if last.entry.Expired(now) then [] else [last]
  }

  function ExpiredKeys(cache: seq<Slot>, now: int): seq<Addr> {
    if cache == [] then []
    else
      var last := cache[|cache| - 1];
      ExpiredKeys(cache[..|cache| - 1], now) + if last.entry.Expired(now) then [last.addr] else []
  }

  ghost predicate DistinctKeys(cache: seq<Slot>) {
    forall i, j :: 0 <= i < j < |cache| ==> cache[i].addr != cache[j].addr
  }

  class LruCache {
    const capacity: nat
    var slots: seq<Slot>

    ghost predicate Valid()
      reads this
    {
      capacity > 0 && |slots| <= capacity && DistinctKeys(slots)
    }

    constructor (capacity: nat)
      requires capacity > 0
      ensures this.capacity == capacity && slots == [] && Valid()
    {
      this.capacity := capacity;
      slots := [];
    }

    method Locate(addr: Addr) returns (i: nat)
      ensures i == Find(slots, addr)
    {
      i := 0;
      while i < |slots| && slots[i].addr != addr
        invariant 0 <= i <= |slots|
        invariant forall k :: 0 <= k < i ==> slots[k].addr != addr
      {
        i := i + 1;
      }
    }

    method Get(addr: Addr) returns (e: Option<Entry>)
      requires Valid()
      modifies this
      ensures Valid()
      ensures var i := Find(old(slots), addr);
        if i < |old(slots)|
        then e == Some(old(slots)[i].entry) && slots == Used(old(slots), capacity, addr, old(slots)[i].entry)
        else e == Option.None && slots == old(slots)
    {
      var i := Locate(addr);
      if i == |slots| {
        return Option.None;
      }
      e := Some(slots[i].entry);
      UsedKeepsDistinct(slots, capacity, addr, slots[i].entry);
      slots := [slots[i]] + Without(slots, i);
    }

    method Put(addr: Addr, e: Entry)
      requires Valid()
      modifies this
      ensures Valid() && slots == Used(old(slots), capacity, addr, e)
    {
      UsedKeepsDistinct(slots, capacity, addr, e);
      var i := Locate(addr);
      if i < |slots| {
        slots := [Slot(addr, e)] + Without(slots, i);
      } else {
        if |slots| >= capacity {
          slots := slots[..capacity - 1];
        }
        slots := [Slot(addr, e)] + slots;
      }
    }

    method Pop(addr: Addr)
      requires Valid()
      modifies this
      ensures Valid() && slots == Dropped(old(slots), [addr])
    {
      hide DistinctKeys;
      var i := Locate(addr);
      DropOne(slots, addr);
      DroppedIsDistinct(slots, [addr]);
      if i < |slots| {
        slots := Without(slots, i);
      }
    }
  }

  lemma {:induction false} UsedKeepsDistinct(cache: seq<Slot>, capacity: nat, addr: Addr, e: Entry)
    requires 0 < capacity && |cache| <= capacity && DistinctKeys(cache)
    ensures |Used(cache, capacity, addr, e)| <= capacity && DistinctKeys(Used(cache, capacity, addr, e))
  {
    var i := Find(cache, addr);
    if i < |cache| {
      forall k | 0 <= k < |Without(cache, i)| ensures Without(cache, i)[k].addr != addr {
        assert Without(cache, i)[k] == cache[if k < i then k else k + 1];
      }
    }
  }

  lemma {:induction false} DroppedMembers(cache: seq<Slot>, keys: seq<Addr>)
    ensures forall x :: x in Dropped(cache, keys) <==> x in cache && x.addr !in keys
    ensures |Dropped(cache, keys)| <= |cache|
  {
    if cache == [] {
    } else {
      var n := |cache| - 1;
      DroppedMembers(cache[..n], keys);
      assert cache == cache[..n] + [cache[n]];
    }
  }

  lemma {:induction false} DroppedIsDistinct(cache: seq<Slot>, keys: seq<Addr>)
    requires DistinctKeys(cache)
    ensures DistinctKeys(Dropped(cache, keys)) && |Dropped(cache, keys)| <= |cache|
  {
    if cache == [] {
    } else {
      var n := |cache| - 1;
      DroppedIsDistinct(cache[..n], keys);
      DroppedMembers(cache[..n], keys);
      forall k | 0 <= k < |Dropped(cache[..n], keys)| ensures Dropped(cache[..n], keys)[k].addr != cache[n].addr {
        assert Dropped(cache[..n], keys)[k] in cache[..n];
      }
    }
  }

  lemma {:induction false} DropLast(cache: seq<Slot>, addr: Addr)
    requires cache != []
    ensures var n := |cache| - 1;
      Dropped(cache, [addr]) == Dropped(cache[..n], [addr]) + if cache[n].addr == addr then [] else [cache[n]]
  {
  }

  lemma {:induction false} DropAbsent(cache: seq<Slot>, addr: Addr)
    requires forall k :: 0 <= k < |cache| ==> cache[k].addr != addr
    ensures Dropped(cache, [addr]) == cache
  {
    hide Dropped;
    if cache == [] {
      DropNothingFrom([addr]);
    } else {
      var n := |cache| - 1;
      DropAbsent(cache[..n], addr);
      DropLast(cache, addr);
      assert cache == cache[..n] + [cache[n]];
    }
  }

  lemma {:induction false} DropNothingFrom(keys: seq<Addr>)
    ensures Dropped([], keys) == []
  {
  }

  /** Where keys are distinct, dropping one is removing the slot that holds it. */
  lemma {:induction false} DropOne(cache: seq<Slot>, addr: Addr)
    requires DistinctKeys(cache)
    ensures var i := Find(cache, addr);
      Dropped(cache, [addr]) == if i < |cache| then Without(cache, i) else cache
  {
    var i := Find(cache, addr);
    if i == |cache| {
      DropAbsent(cache, addr);
    } else {
      DropAt(cache, i);
    }
  }

  lemma {:induction false} DropAt(cache: seq<Slot>, i: nat)
    requires DistinctKeys(cache) && i < |cache|
    ensures Dropped(cache, [cache[i].addr]) == Without(cache, i)
  {
    var n := |cache| - 1;
    if i < n {
      DropAt(cache[..n], i);
      assert Without(cache, i) == Without(cache[..n], i) + [cache[n]];
    } else {
      DropAbsent(cache[..n], cache[n].addr);
    }
  }

  lemma {:induction false} DropTwice(cache: seq<Slot>, keys: seq<Addr>, key: Addr)
    ensures Dropped(Dropped(cache, keys), [key]) == Dropped(cache, keys + [key])
  {
    if cache == [] {
    } else {
      var n := |cache| - 1;
      var front := Dropped(cache[..n], keys);
      DropTwice(cache[..n], keys, key);
      if cache[n].addr !in keys {
        assert (front + [cache[n]])[..|front|] == front;
      } else {
        assert front + [] == front;
      }
    }
  }

  lemma {:induction false} DropNothing(cache: seq<Slot>)
    ensures Dropped(cache, []) == cache
  {
    if cache == [] {
    } else {
      var n := |cache| - 1;
      DropNothing(cache[..n]);
      assert cache == cache[..n] + [cache[n]];
    }
  }

  lemma {:induction false} ExpiredKeysAre(cache: seq<Slot>, now: int)
    ensures forall a :: a in ExpiredKeys(cache, now) <==>
              exists k :: 0 <= k < |cache| && cache[k].addr == a && cache[k].entry.Expired(now)
  {
    if cache == [] {
    } else {
      var n := |cache| - 1;
      ExpiredKeysAre(cache[..n], now);
      forall a | a in ExpiredKeys(cache[..n], now)
        ensures exists k :: 0 <= k < |cache| && cache[k].addr == a && cache[k].entry.Expired(now)
      {
        var k :| 0 <= k < n && cache[..n][k].addr == a && cache[..n][k].entry.Expired(now);
        assert cache[k].addr == a;
      }
      forall a, k | 0 <= k < |cache| && cache[k].addr == a && cache[k].entry.Expired(now)
        ensures a in ExpiredKeys(cache, now)
      {
        if k < n {
          assert cache[..n][k].addr == a;
        }
      }
    }
  }

  /** Popping every expired key, one by one, leaves the unexpired slots. */
  lemma {:induction false} DropExpired(cache: seq<Slot>, now: int)
    requires DistinctKeys(cache)
    ensures Dropped(cache, ExpiredKeys(cache, now)) == Unexpired(cache, now)
  {
    DropExpiredFront(cache, |cache|, now);
    assert cache[..|cache|] == cache;
  }

  lemma {:induction false} DropExpiredFront(cache: seq<Slot>, n: nat, now: int)
    requires DistinctKeys(cache) && n <= |cache|
    ensures Dropped(cache[..n], ExpiredKeys(cache, now)) == Unexpired(cache[..n], now)
  {
    hide ExpiredKeys, DistinctKeys;
    if n == 0 {
    } else {
      DropExpiredFront(cache, n - 1, now);
      assert cache[..n][..n - 1] == cache[..n - 1];
      ExpiredAt(cache, n - 1, now);
    }
  }

  lemma {:induction false} ExpiredAt(cache: seq<Slot>, k: nat, now: int)
    requires DistinctKeys(cache) && k < |cache|
    ensures cache[k].addr in ExpiredKeys(cache, now) <==> cache[k].entry.Expired(now)
  {
    ExpiredKeysAre(cache, now);
  }

  // ---- the store and the cached store ----

  /** The simple store: a map. */
  class MemStore {
    var byAddr: map<Addr, Entry>

    constructor ()
      ensures byAddr == map[]
    {
      byAddr := map[];
    }

    method Get(addr: Addr) returns (e: Option<Entry>)
      ensures e == Lookup(byAddr, addr)
    {
      e := if addr in byAddr then Some(byAddr[addr]) else Option.None;
    }

    method Insert(addr: Addr, e: Entry)
      modifies this
      ensures byAddr == old(byAddr)[addr := e]
    {
      byAddr := byAddr[addr := e];
    }

    method SweepExpired(now: int) returns (removed: int)
      modifies this
      ensures byAddr == Swept(old(byAddr), now)
      ensures removed == |old(byAddr)| - |byAddr|
    {
      var before := |byAddr|;
      byAddr := map a | a in byAddr && !byAddr[a].Expired(now) :: byAddr[a];
      removed := before - |byAddr|;
    }
  }

  function Lookup(m: map<Addr, Entry>, addr: Addr): Option<Entry> {
    if addr in m then Some(m[addr]) else Option.None
  }

  function Swept(m: map<Addr, Entry>, now: int): map<Addr, Entry> {
    map a | a in m && !m[a].Expired(now) :: m[a]
  }

  datatype Config = Config(maxEntries: nat, negativeTtl: nat)

  datatype State = State(inner: map<Addr, Entry>, cache: seq<Slot>, negative: map<Addr, int>)

  datatype Begun = Answered(result: Option<Entry>) | Missed

  /** The first critical section of a lookup. */
  function AfterBegin(s: State, c: Config, addr: Addr, now: int): (State, Begun)
    requires c.maxEntries > 0
  {
    var i := Find(s.cache, addr);
    if i < |s.cache| then
      (s.(cache := Used(s.cache, c.maxEntries, addr, s.cache[i].entry)), Answered(Some(s.cache[i].entry)))
    else if addr in s.negative && s.negative[addr] > now then (s, Answered(Option.None))
    else (s.(negative := s.negative - {addr}), Missed)
  }

  /** The query of the store and the second critical section. */
  function AfterFinish(s: State, c: Config, addr: Addr, now: int): (State, Option<Entry>)
    requires c.maxEntries > 0
  {
    if addr in s.inner
    then (s.(cache := Used(s.cache, c.maxEntries, addr, s.inner[addr])), Some(s.inner[addr]))
    else (s.(negative := s.negative[addr := now + c.negativeTtl]), Option.None)
  }

  function AfterInsert(s: State, c: Config, addr: Addr, e: Entry): State
    requires c.maxEntries > 0
  {
    State(s.inner[addr := e], Used(s.cache, c.maxEntries, addr, e), s.negative - {addr})
  }

  function AfterSweep(s: State, now: int): State {
    State(Swept(s.inner, now), Unexpired(s.cache, now),
          map a | a in s.negative && s.negative[a] > now :: s.negative[a])
  }

  class CachedStore {
    const config: Config
    const inner: MemStore
    const cache: LruCache
    var negative: map<Addr, int>

    ghost predicate Valid()
      reads this, cache
    {
      cache.Valid() && cache.capacity == config.maxEntries
    }

    ghost function View(): State
      reads this, inner, cache
    {
      State(inner.byAddr, cache.slots, negative)
    }

    constructor (inner: MemStore, config: Config)
      requires config.maxEntries > 0
      ensures this.inner == inner && this.config == config
      ensures Valid() && fresh(cache) && View() == State(inner.byAddr, [], map[])
    {
      this.inner := inner;
      this.config := config;
      cache := new LruCache(config.maxEntries);
      negative := map[];
    }

    method BeginGet(addr: Addr, now: int) returns (b: Begun)
      requires Valid()
      modifies this`negative, cache
      ensures Valid() && (View(), b) == AfterBegin(old(View()), config, addr, now)
    {
      var hit := cache.Get(addr);
      if hit.Some? {
        return Answered(hit);
      }
      if addr in negative {
        if negative[addr] > now {
          return Answered(Option.None);
        }
        negative := negative - {addr};
      }
      assert old(negative) - {addr} == negative;
      b := Missed;
    }

    method FinishGet(addr: Addr, now: int) returns (e: Option<Entry>)
      requires Valid()
      modifies this`negative, cache
      ensures Valid() && (View(), e) == AfterFinish(old(View()), config, addr, now)
    {
      e := inner.Get(addr);
      if e.Some? {
        cache.Put(addr, e.value);
      } else {
        negative := negative[addr := now + config.negativeTtl];
      }
    }

    /** A lookup that no other interrupts; `now` and `later` are its two readings of the clock. */
    method Get(addr: Addr, now: int, later: int) returns (e: Option<Entry>)
      requires Valid()
      modifies this`negative, cache
      ensures Valid()
      ensures var b := AfterBegin(old(View()), config, addr, now);
        if b.1.Answered? then View() == b.0 && e == b.1.result
        else (View(), e) == AfterFinish(b.0, config, addr, later)
    {
      var b := BeginGet(addr, now);
      if b.Answered? {
        return b.result;
      }
      e := FinishGet(addr, later);
    }

    method Insert(addr: Addr, e: Entry)
      requires Valid()
      modifies this`negative, inner, cache
      ensures Valid() && View() == AfterInsert(old(View()), config, addr, e)
    {
      inner.Insert(addr, e);
      cache.Put(addr, e);
      negative := negative - {addr};
    }

    /** What is returned counts an entry that is cached and stored twice. */
    method SweepExpired(now: int) returns (removed: int)
      requires Valid()
      modifies this`negative, inner, cache
      ensures Valid() && View() == AfterSweep(old(View()), now)
      ensures removed == |old(inner.byAddr)| - |inner.byAddr| + |ExpiredKeys(old(cache.slots), now)|
    {
      hide DistinctKeys;
      var removedInner := inner.SweepExpired(now);
      var keys: seq<Addr> := [];
      var i := 0;
      while i < |cache.slots|
        invariant 0 <= i <= |cache.slots|
        invariant keys == ExpiredKeys(cache.slots[..i], now)
      {
        assert cache.slots[..i + 1][..i] == cache.slots[..i];
        if cache.slots[i].entry.Expired(now) {
          keys := keys + [cache.slots[i].addr];
        }
        i := i + 1;
      }
      assert cache.slots[..i] == cache.slots;
      PopAll(keys);
      DropExpired(old(cache.slots), now);
      negative := map a | a in negative && negative[a] > now :: negative[a];
      removed := removedInner + |keys|;
    }

    method PopAll(keys: seq<Addr>)
      requires Valid()
      modifies cache
      ensures Valid() && cache.slots == Dropped(old(cache.slots), keys)
    {
      hide DistinctKeys, Dropped;
      DropNothing(cache.slots);
      var i := 0;
      while i < |keys|
        invariant 0 <= i <= |keys| && Valid()
        invariant cache.slots == Dropped(old(cache.slots), keys[..i])
      {
        DropTwice(old(cache.slots), keys[..i], keys[i]);
        assert keys[..i] + [keys[i]] == keys[..i + 1];
        cache.Pop(keys[i]);
        i := i + 1;
      }
      assert keys[..i] == keys;
    }
  }
}
