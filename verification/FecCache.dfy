/** How long a frame stays in the receiver's cache. */
module FecCache {
  import opened Bytes
  import opened Counting
  import opened Fec
  import opened FecReceive
  import opened FecRun

  /** The counter `c` has exactly `n` younger ones in the eviction order. */
  predicate Aged(order: seq<u64>, c: u64, n: nat) {
    n < |order| && order[|order| - 1 - n] == c
  }

  /** The order after one observation. */
  lemma {:induction false} ObservedOrder(s: RxState, f: bytes)
    requires RxValid(s) && |f| >= DATA_MIN_FRAME
    ensures var all := s.order + [CounterOf(f)];
            Observe(s, f).state.order ==
            if CounterOf(f) in s.cache then s.order else if |s.order| + 1 > s.limit then all[1..] else all
    ensures |s.order| == |s.cache|
  {
    hide CounterOf, Filed, InOrder, Evict;
    InOrderSize(s.order, s.cache);
    var c := CounterOf(f);
    if c !in s.cache {
      NewcomerInOrder(s.order, s.cache, c, f);
      EvictOne(s.order + [c], s.cache[c := f], s.limit);
    }
  }

  lemma {:induction false} ArrivalIsYoungest(s: RxState, f: bytes)
    requires RxValid(s) && |f| >= DATA_MIN_FRAME && CounterOf(f) !in s.cache
    ensures Aged(Observe(s, f).state.order, CounterOf(f), 0)
  {
    hide CounterOf, Filed, InOrder, Observe;
    ObservedOrder(s, f);
  }

  /** A newcomer ages the others by one, and pushes out the oldest of a full cache. */
  lemma {:induction false} NewcomerAges(s: RxState, c: u64, n: nat, f: bytes)
    requires RxValid(s) && |f| >= DATA_MIN_FRAME && CounterOf(f) !in s.cache && Aged(s.order, c, n)
    ensures n + 1 < s.limit ==> Aged(Observe(s, f).state.order, c, n + 1)
    ensures n + 1 >= s.limit ==> c !in Observe(s, f).state.cache
  {
    hide CounterOf, Filed, InOrder, Observe;
    ObservedOrder(s, f);
    if n + 1 >= s.limit {
      OldestLeaves(s, f);
    }
  }

  lemma {:induction false} OldestLeaves(s: RxState, f: bytes)
    requires RxValid(s) && |f| >= DATA_MIN_FRAME && CounterOf(f) !in s.cache && |s.order| == s.limit
    ensures s.order[0] !in Observe(s, f).state.cache
  {
    hide CounterOf, Filed, Observe;
    ObservedOrder(s, f);
    ObserveKeepsValid(s, f);
    assert s.order[0] in s.cache;
  }

  lemma {:induction false} AgedIsCached(s: RxState, c: u64, n: nat)
    requires RxValid(s) && Aged(s.order, c, n)
    ensures c in s.cache
  {
    hide CounterOf, Filed;
  }

  function Capacity(limit: nat): nat {
    if limit == 0 then DEFAULT_RX_CACHE else limit
  }

  // ---- over a run ----

  /** The event brings a frame whose counter is not cached. */
  ghost predicate Newcomer(s: RxState, e: Event)
    requires e.Data? ==> |e.frame| >= DATA_MIN_FRAME
  {
    e.Data? && CounterOf(e.frame) !in s.cache
  }

  /** How many events from `q` on bring a frame that is not cached when it comes. */
  ghost function Newcomers(limit: nat, sent: set<bytes>, groups: seq<seq<Sealed>>, events: seq<Event>, q: nat): nat
    requires Setting(sent, groups, events) && q <= |events|
  {
    if |events| == q then 0
    else
      var n := |events| - 1;
      PrefixSetting(sent, groups, events, n);
      GroupAtEvent(sent, groups, events, n);
      Newcomers(limit, sent, groups, events[..n], q)
        + One(Newcomer(After(limit, sent, groups, events[..n]), events[n]))
  }

  /** The counter is cached when `p` events have happened. */
  ghost predicate CachedAt(limit: nat, sent: set<bytes>, groups: seq<seq<Sealed>>, events: seq<Event>, p: nat, c: u64)
    requires Setting(sent, groups, events) && p <= |events|
  {
    PrefixSetting(sent, groups, events, p);
    c in After(limit, sent, groups, events[..p]).cache
  }

  /** Event `q` puts the frame into the cache. */
  ghost predicate EntersAt(limit: nat, sent: set<bytes>, groups: seq<seq<Sealed>>, events: seq<Event>, q: nat, f: bytes)
    requires Setting(sent, groups, events)
  {
    && q < |events| && events[q] == Data(f) && |f| >= DATA_MIN_FRAME
    && !CachedAt(limit, sent, groups, events, q, CounterOf(f))
  }

  lemma {:induction false} EarlierEnters(limit: nat, sent: set<bytes>, groups: seq<seq<Sealed>>, events: seq<Event>,
      q: nat, f: bytes, n: nat)
    requires Setting(sent, groups, events) && EntersAt(limit, sent, groups, events, q, f) && q < n <= |events|
    ensures Setting(sent, groups, events[..n]) && EntersAt(limit, sent, groups, events[..n], q, f)
  {
    hide Setting, After, CounterOf;
    PrefixSetting(sent, groups, events, n);
    assert events[..n][..q] == events[..q];
  }

  lemma {:induction false} StepAges(s: RxState, sent: set<bytes>, groups: seq<seq<Sealed>>, e: Event, c: u64, n: nat)
    requires RxValid(s) && Aged(s.order, c, n)
    requires e.Recovery? ==> e.group < |groups| && GoodGroup(sent, groups[e.group])
    requires e.Data? ==> |e.frame| >= DATA_MIN_FRAME
    ensures var t, m := Receive(s, groups, e), n + One(Newcomer(s, e));
            if m < s.limit then Aged(t.order, c, m) else c !in t.cache
  {
    match e {
      case Data(f) =>
        hide RxValid, CounterOf;
        if CounterOf(f) in s.cache {
          KnownKeepsOrder(s, f);
          AgedWithin(s, c, n);
        } else {
          NewcomerAges(s, c, n, f);
        }
      case Recovery(g) =>
        hide RxValid, RecoveryOf;
        AcceptKeepsValid(s, RecoveryOf(groups[g], g));
        AgedWithin(s, c, n);
    }
  }

  lemma {:induction false} KnownKeepsOrder(s: RxState, f: bytes)
    requires |f| >= DATA_MIN_FRAME && CounterOf(f) in s.cache
    ensures Observe(s, f).state.order == s.order
  {
  }

  lemma {:induction false} AgedWithin(s: RxState, c: u64, n: nat)
    requires RxValid(s) && Aged(s.order, c, n)
    ensures n < s.limit
  {
    hide CounterOf, Filed;
    InOrderSize(s.order, s.cache);
  }

  /** The last event, and the receiver that meets it. */
  lemma {:induction false} LastEvent(limit: nat, sent: set<bytes>, groups: seq<seq<Sealed>>, events: seq<Event>)
    requires Setting(sent, groups, events) && events != []
    ensures var n := |events| - 1;
            && Setting(sent, groups, events[..n])
            && (events[n].Recovery? ==> events[n].group < |groups| && GoodGroup(sent, groups[events[n].group]))
            && (events[n].Data? ==> |events[n].frame| >= DATA_MIN_FRAME)
            && RxValid(After(limit, sent, groups, events[..n]))
            && After(limit, sent, groups, events[..n]).limit == Capacity(limit)
            && After(limit, sent, groups, events)
               == Receive(After(limit, sent, groups, events[..n]), groups, events[n])
  {
    hide RxValid, CounterOf, Receive, GoodGroup, Genuine;
    var n := |events| - 1;
    PrefixSetting(sent, groups, events, n);
    GroupAtEvent(sent, groups, events, n);
    RunIsGenuine(limit, sent, groups, events[..n]);
    GenuineIsValid(After(limit, sent, groups, events[..n]), events[..n]);
  }

  lemma {:induction false} GenuineIsValid(s: RxState, events: seq<Event>)
    requires Genuine(s, events)
    ensures RxValid(s)
  {
    hide RxValid;
  }

  lemma {:induction false} NewcomersStep(limit: nat, sent: set<bytes>, groups: seq<seq<Sealed>>, events: seq<Event>,
      q: nat)
    requires Setting(sent, groups, events) && q < |events|
    requires var n := |events| - 1;
             Setting(sent, groups, events[..n]) && (events[n].Data? ==> |events[n].frame| >= DATA_MIN_FRAME)
    ensures var n := |events| - 1;
            Newcomers(limit, sent, groups, events, q)
            == Newcomers(limit, sent, groups, events[..n], q)
               + One(Newcomer(After(limit, sent, groups, events[..n]), events[n]))
  {
    hide Setting, After, CounterOf;
  }

  lemma {:induction false} NoNewcomers(limit: nat, sent: set<bytes>, groups: seq<seq<Sealed>>, events: seq<Event>)
    requires Setting(sent, groups, events)
    ensures Newcomers(limit, sent, groups, events, |events|) == 0
  {
    hide Setting, After, CounterOf;
  }

  lemma {:induction false} CachedNow(limit: nat, sent: set<bytes>, groups: seq<seq<Sealed>>, events: seq<Event>, c: u64)
    requires Setting(sent, groups, events)
    ensures CachedAt(limit, sent, groups, events, |events|, c) <==> c in After(limit, sent, groups, events).cache
  {
    hide Setting, After;
    assert events[..|events|] == events;
  }

  lemma {:induction false} SamePrefix(limit: nat, sent: set<bytes>, groups: seq<seq<Sealed>>, events: seq<Event>,
      n: nat, r: nat, c: u64)
    requires Setting(sent, groups, events) && r <= n <= |events| && Setting(sent, groups, events[..n])
    ensures CachedAt(limit, sent, groups, events[..n], r, c) <==> CachedAt(limit, sent, groups, events, r, c)
  {
    hide Setting, After;
    assert events[..n][..r] == events[..r];
  }

  lemma {:induction false} EntersLast(limit: nat, sent: set<bytes>, groups: seq<seq<Sealed>>, events: seq<Event>,
      f: bytes)
    requires Setting(sent, groups, events) && events != []
    requires EntersAt(limit, sent, groups, events, |events| - 1, f)
    ensures Newcomers(limit, sent, groups, events, |events|) == 0
    ensures Aged(After(limit, sent, groups, events).order, CounterOf(f), 0)
  {
    hide Setting, After, CounterOf, RxValid, GoodGroup, Observe, Answer, Aged;
    LastEvent(limit, sent, groups, events);
    ArrivalIsYoungest(After(limit, sent, groups, events[..|events| - 1]), f);
  }

  /** After it enters, a frame is as old as newcomers have followed it, until they fill the cache. */
  lemma {:induction false} AgeAfter(limit: nat, sent: set<bytes>, groups: seq<seq<Sealed>>, events: seq<Event>,
      q: nat, f: bytes)
    requires Setting(sent, groups, events) && q < |events| && EntersAt(limit, sent, groups, events, q, f)
    requires |f| >= DATA_MIN_FRAME && Newcomers(limit, sent, groups, events, q + 1) < Capacity(limit)
    ensures Aged(After(limit, sent, groups, events).order, CounterOf(f), Newcomers(limit, sent, groups, events, q + 1))
    decreases |events|
  {
    hide After, Setting, CounterOf, Receive, GoodGroup, RxValid, Newcomers, EntersAt, CachedAt, Aged;
    var n := |events| - 1;
    LastEvent(limit, sent, groups, events);
    if q == n {
      EntersLast(limit, sent, groups, events, f);
    } else {
      NewcomersStep(limit, sent, groups, events, q + 1);
      EarlierEnters(limit, sent, groups, events, q, f, n);
      AgeAfter(limit, sent, groups, events[..n], q, f);
      StepAges(After(limit, sent, groups, events[..n]), sent, groups, events[n], CounterOf(f),
               Newcomers(limit, sent, groups, events[..n], q + 1));
    }
  }

  lemma {:induction false} NewcomersGrow(limit: nat, sent: set<bytes>, groups: seq<seq<Sealed>>, events: seq<Event>,
      q: nat, r: nat)
    requires Setting(sent, groups, events) && q <= r <= |events|
    ensures Setting(sent, groups, events[..r])
    ensures Newcomers(limit, sent, groups, events[..r], q) <= Newcomers(limit, sent, groups, events, q)
    decreases |events|
  {
    hide Setting, After;
    PrefixSetting(sent, groups, events, r);
    if r == |events| {
      assert events[..r] == events;
    } else {
      var n := |events| - 1;
      PrefixSetting(sent, groups, events, n);
      NewcomersGrow(limit, sent, groups, events[..n], q, r);
      assert events[..n][..r] == events[..r];
    }
  }

  /** Once the newcomers fill the cache, the frame has been out of it. */
  lemma {:induction false} EvictedAt(limit: nat, sent: set<bytes>, groups: seq<seq<Sealed>>, events: seq<Event>,
      q: nat, f: bytes) returns (r: nat)
    requires Setting(sent, groups, events) && q < |events| && EntersAt(limit, sent, groups, events, q, f)
    requires |f| >= DATA_MIN_FRAME && Newcomers(limit, sent, groups, events, q + 1) >= Capacity(limit)
    ensures q < r <= |events| && !CachedAt(limit, sent, groups, events, r, CounterOf(f))
    decreases |events|
  {
    hide After, Setting, CounterOf, Receive, GoodGroup, RxValid, Newcomers, EntersAt, CachedAt, Aged;
    var n := |events| - 1;
    LastEvent(limit, sent, groups, events);
    r := |events|;
    if q == n {
      NoNewcomers(limit, sent, groups, events);
    } else {
      NewcomersStep(limit, sent, groups, events, q + 1);
      EarlierEnters(limit, sent, groups, events, q, f, n);
      if Newcomers(limit, sent, groups, events[..n], q + 1) >= Capacity(limit) {
        r := EvictedAt(limit, sent, groups, events[..n], q, f);
        SamePrefix(limit, sent, groups, events, n, r, CounterOf(f));
      } else {
        AgeAfter(limit, sent, groups, events[..n], q, f);
        StepAges(After(limit, sent, groups, events[..n]), sent, groups, events[n], CounterOf(f),
                 Newcomers(limit, sent, groups, events[..n], q + 1));
        CachedNow(limit, sent, groups, events, CounterOf(f));
      }
    }
  }

  /** From the moment it enters, a frame stays cached exactly as long as fewer frames than the capacity come that are
      not cached when they come. Repetitions of cached frames do not count. */
  lemma {:induction false} StaysRecent(limit: nat, sent: set<bytes>, groups: seq<seq<Sealed>>, events: seq<Event>,
      q: nat, f: bytes)
    requires Setting(sent, groups, events) && EntersAt(limit, sent, groups, events, q, f)
    ensures (forall r :: q < r <= |events| ==> CachedAt(limit, sent, groups, events, r, CounterOf(f)))
      <==> Newcomers(limit, sent, groups, events, q + 1) < Capacity(limit)
  {
    hide Setting, After, CounterOf, Newcomers, CachedAt;
    if Newcomers(limit, sent, groups, events, q + 1) < Capacity(limit) {
      forall r | q < r <= |events| ensures CachedAt(limit, sent, groups, events, r, CounterOf(f)) {
        YoungIsCached(limit, sent, groups, events, q, f, r);
      }
    } else {
      var r := EvictedAt(limit, sent, groups, events, q, f);
    }
  }

  lemma {:induction false} YoungIsCached(limit: nat, sent: set<bytes>, groups: seq<seq<Sealed>>, events: seq<Event>,
      q: nat, f: bytes, r: nat)
    requires Setting(sent, groups, events) && EntersAt(limit, sent, groups, events, q, f) && q < r <= |events|
    requires Newcomers(limit, sent, groups, events, q + 1) < Capacity(limit)
    ensures CachedAt(limit, sent, groups, events, r, CounterOf(f))
  {
    hide Setting, After, CounterOf, Newcomers, RxValid;
    EarlierEnters(limit, sent, groups, events, q, f, r);
    NewcomersGrow(limit, sent, groups, events, q + 1, r);
    AgeAfter(limit, sent, groups, events[..r], q, f);
    RunIsGenuine(limit, sent, groups, events[..r]);
    AgedIsCached(After(limit, sent, groups, events[..r]), CounterOf(f),
                 Newcomers(limit, sent, groups, events[..r], q + 1));
  }
}
