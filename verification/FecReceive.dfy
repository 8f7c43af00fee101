/** Forward error correction, receiving side: the frame cache and reconstruction. */
module FecReceive {
  import opened Bytes
  import opened Fec
  import opened Wrappers

  const DEFAULT_RX_CACHE := 256
  const MAX_SEEN_GROUPS := 128

  /** `cache` holds frames by counter; `order` is their first-arrival order; `seen` are the groups whose
      recovery frame has been processed, oldest first. */
  datatype RxState = RxState(cache: map<u64, bytes>, order: seq<u64>, limit: nat, seen: seq<u64>,
                             recovered: nat, abandoned: nat, dupRecovery: nat)

  function Fresh(limit: nat): RxState {
    RxState(map[], [], if limit == 0 then DEFAULT_RX_CACHE else limit, [], 0, 0, 0)
  }

  ghost predicate NoDup(s: seq<u64>) {
    forall i, j :: 0 <= i < j < |s| ==> s[i] != s[j]
  }

  ghost predicate Filed(cache: map<u64, bytes>) {
    forall c :: c in cache ==> |cache[c]| >= DATA_MIN_FRAME && CounterOf(cache[c]) == c
  }

  /** The cache and its eviction order list the same counters, once each. */
  ghost predicate InOrder(order: seq<u64>, cache: map<u64, bytes>) {
    NoDup(order) && (forall c :: c in order <==> c in cache)
  }

  ghost predicate RxValid(s: RxState) {
    s.limit > 0 && InOrder(s.order, s.cache) && Filed(s.cache) && |s.cache| <= s.limit && |s.seen| <= MAX_SEEN_GROUPS
  }

  // ---- data frames ----

  datatype Observed = Observed(state: RxState, result: Result<(), FecError>)

  /** Oldest frames leave until the cache is within its limit. */
  function Evict(order: seq<u64>, cache: map<u64, bytes>, limit: nat): (seq<u64>, map<u64, bytes>)
    decreases |order|
  {
    if |cache| > limit && order != [] then Evict(order[1..], cache - {order[0]}, limit) else (order, cache)
  }

  function Observe(s: RxState, frame: bytes): Observed {
    match DataCounter(frame)
    case Err(e) => Observed(s, Err(e))
    case Ok(c) =>
      if c in s.cache then Observed(s.(cache := s.cache[c := frame]), Ok(()))
      else
        var kept := Evict(s.order + [c], s.cache[c := frame], s.limit);
        Observed(s.(order := kept.0, cache := kept.1), Ok(()))
  }

  // ---- recovery frames ----

  datatype Table = Table(counters: seq<u64>, lens: seq<u16>, parity: bytes)

  /** The group size of a frame that is long enough for its member table. */
  function Shape(frame: bytes): (r: Result<nat, FecError>)
    ensures r.Ok? ==> FEC_MIN_K <= r.value <= FEC_MAX_K && FIXED_END + 10 * r.value <= |frame|
  {
    if |frame| < FIXED_END then Err(BodyTooShort(FIXED_END, |frame|))
    else if frame[0] != TUNNEL_VERSION || frame[1] != FEC_FRAME_TYPE then Err(SanityCheck)
    else if frame[18] < FEC_MIN_K || frame[18] > FEC_MAX_K then Err(BadK(frame[18]))
    else if |frame| < FIXED_END + 10 * (frame[18] as nat) then
      Err(BodyTooShort(FIXED_END + 10 * (frame[18] as nat), |frame|))
    else Ok(frame[18])
  }

  function GroupSeqOf(frame: bytes): u64
    requires |frame| >= FIXED_END
  {
    Word64(frame[10..18])
  }

  function ReadCounters(frame: bytes, n: nat): (r: seq<u64>)
    requires FIXED_END + 8 * n <= |frame|
    ensures |r| == n
  {
    seq(n, i requires 0 <= i < n => Word64(frame[FIXED_END + 8 * i..FIXED_END + 8 * i + 8]))
  }

  function ReadLens(frame: bytes, base: nat, n: nat): (r: seq<u16>)
    requires base + 2 * n <= |frame|
    ensures |r| == n
  {
    seq(n, i requires 0 <= i < n => Word16(frame[base + 2 * i], frame[base + 2 * i + 1]))
  }

  function ReadTable(frame: bytes, k: nat): (t: Table)
    requires FIXED_END + 10 * k <= |frame|
    ensures |t.counters| == |t.lens| == k
  {
    Table(ReadCounters(frame, k), ReadLens(frame, FIXED_END + 8 * k, k), frame[FIXED_END + 10 * k..])
  }

  function Largest(lens: seq<u16>): (n: nat)
    ensures forall i :: 0 <= i < |lens| ==> lens[i] <= n
  {
    if lens == [] then 0
    else
      var m := Largest(lens[..|lens| - 1]);
      assert forall i :: 0 <= i < |lens| - 1 ==> lens[i] == lens[..|lens| - 1][i];
      if lens[|lens| - 1] > m then lens[|lens| - 1] else m
  }

  /** The first length below the minimum. */
  function FirstShort(lens: seq<u16>): (r: Option<u16>)
    ensures r == Option.None ==> forall i :: 0 <= i < |lens| ==> lens[i] >= DATA_MIN_FRAME
  {
    if lens == [] then Option.None
    else match FirstShort(lens[..|lens| - 1])
      case Some(l) => Some(l)
      case None =>
        assert forall i :: 0 <= i < |lens| - 1 ==> lens[i] == lens[..|lens| - 1][i];
        if lens[|lens| - 1] < DATA_MIN_FRAME then Some(lens[|lens| - 1]) else Option.None
  }

  function TableError(t: Table): Option<FecError> {
    if |t.parity| != Largest(t.lens) then Some(XorLenMismatch(Largest(t.lens), |t.parity|))
    else match FirstShort(t.lens)
      case Some(l) => Some(BadMemberLen(l))
      case None => Option.None
  }

  /** Append a group, forgetting the oldest beyond the limit. */
  function Remember(seen: seq<u64>, group: u64): seq<u64> {
    var all := seen + [group];
    if |all| > MAX_SEEN_GROUPS then all[|all| - MAX_SEEN_GROUPS..] else all
  }

  /** The positions whose counter is not cached, in order. */
  function Missing(counters: seq<u64>, cache: map<u64, bytes>): (r: seq<nat>)
    ensures forall i :: 0 <= i < |r| ==> r[i] < |counters|
    ensures forall i :: 0 <= i < |r| ==> counters[r[i]] !in cache
  {
    if counters == [] then []
    else Missing(counters[..|counters| - 1], cache)
         + if counters[|counters| - 1] in cache then [] else [|counters| - 1]
  }

  /** The parity with the first `n` cached members mixed back in, except position `mi`. */
  function Mixed(parity: bytes, counters: seq<u64>, mi: nat, cache: map<u64, bytes>, n: nat): (r: bytes)
    requires n <= |counters|
    ensures |r| == |parity|
  {
    if n == 0 then parity
    else
      var r := Mixed(parity, counters, mi, cache, n - 1);
      if n - 1 == mi || counters[n - 1] !in cache then r else XorOnto(r, cache[counters[n - 1]])
  }

  predicate LooksLikeData(frame: bytes, counter: u64) {
    |frame| >= DATA_MIN_FRAME && frame[0] == TUNNEL_VERSION && frame[1] == DATA_FRAME_TYPE
        && CounterOf(frame) == counter
  }

  function Rebuild(t: Table, mi: nat, cache: map<u64, bytes>): Result<Option<bytes>, FecError>
    requires mi < |t.counters| == |t.lens| && t.lens[mi] <= |t.parity|
  {
    var recon := Mixed(t.parity, t.counters, mi, cache, |t.counters|)[..t.lens[mi]];
    if LooksLikeData(recon, t.counters[mi]) then Ok(Some(recon)) else Err(SanityCheck)
  }

  datatype Accepted = Accepted(state: RxState, result: Result<Option<bytes>, FecError>)

  /** A table that passed its checks, whose group has just been recorded. */
  function Restore(s: RxState, t: Table): Accepted
    requires |t.counters| == |t.lens| && TableError(t) == Option.None
  {
    var missing := Missing(t.counters, s.cache);
    if |missing| == 0 then Accepted(s, Ok(Option.None))
    else if |missing| > 1 then Accepted(s.(abandoned := s.abandoned + 1), Ok(Option.None))
    else
      var r := Rebuild(t, missing[0], s.cache);
      Accepted(if r.Ok? then s.(recovered := s.recovered + 1) else s, r)
  }

  function Accept(s: RxState, frame: bytes): Accepted {
    match Shape(frame)
    case Err(e) => Accepted(s, Err(e))
    case Ok(k) =>
      if GroupSeqOf(frame) in s.seen then Accepted(s.(dupRecovery := s.dupRecovery + 1), Ok(Option.None))
      else
        var t := ReadTable(frame, k);
        match TableError(t)
        case Some(e) => Accepted(s, Err(e))
        case None => Restore(s.(seen := Remember(s.seen, GroupSeqOf(frame))), t)
  }

  // ---- invariants ----

  ghost function SetOf(order: seq<u64>): (r: set<u64>)
    ensures forall c :: c in r <==> c in order
  {
    set c | c in order
  }

  lemma {:induction false} OrderSize(order: seq<u64>)
    requires NoDup(order)
    ensures |SetOf(order)| == |order|
  {
    if order == [] {
      assert SetOf(order) == {};
    } else {
      var n := |order| - 1;
      OrderSize(order[..n]);
      assert order[n] !in order[..n];
      assert order == order[..n] + [order[n]];
      assert SetOf(order) == SetOf(order[..n]) + {order[n]};
    }
  }

  lemma {:induction false} InOrderSize(order: seq<u64>, cache: map<u64, bytes>)
    requires InOrder(order, cache)
    ensures |order| == |cache|
  {
    OrderSize(order);
    assert cache.Keys == SetOf(order);
  }

  lemma {:induction false} PopKeepsOrder(order: seq<u64>, cache: map<u64, bytes>)
    requires InOrder(order, cache) && order != []
    ensures order[0] in cache && InOrder(order[1..], cache - {order[0]})
    ensures |cache - {order[0]}| == |cache| - 1
  {
    var oldest, rest := order[0], cache - {order[0]};
    assert oldest in order;
    assert rest.Keys == cache.Keys - {oldest};
    forall c ensures c in order[1..] <==> c in rest {
      if c in order && c != oldest {
        var i :| 0 <= i < |order| && order[i] == c;
        assert order[1..][i - 1] == c;
      }
      if c in order[1..] {
        var i :| 0 <= i < |order[1..]| && order[1..][i] == c;
        assert order[i + 1] == c;
      }
    }
  }

  /** One frame too many drops exactly the oldest. */
  lemma {:induction false} EvictOne(order: seq<u64>, cache: map<u64, bytes>, limit: nat)
    requires InOrder(order, cache) && 0 < limit && |cache| <= limit + 1
    ensures Evict(order, cache, limit) ==
            if |cache| > limit then (order[1..], cache - {order[0]}) else (order, cache)
    ensures |cache| > limit ==> order != []
  {
    InOrderSize(order, cache);
    if |cache| > limit { PopKeepsOrder(order, cache); }
  }

  /** Observing a frame keeps the receiver's invariant. */
  lemma {:induction false} ObserveKeepsValid(s: RxState, frame: bytes)
    requires RxValid(s)
    ensures RxValid(Observe(s, frame).state)
  {
    hide CounterOf, InOrder, Filed, Evict;
    if |frame| >= DATA_MIN_FRAME {
      var c := CounterOf(frame);
      FiledKept(s.cache, c, frame);
      if c in s.cache {
        SameKeys(s.order, s.cache, c, frame);
      } else {
        var order, cache := s.order + [c], s.cache[c := frame];
        NewcomerInOrder(s.order, s.cache, c, frame);
        EvictOne(order, cache, s.limit);
        if |cache| > s.limit {
          PopKeepsOrder(order, cache);
          FiledDropped(cache, order[0]);
        }
      }
    }
  }

  lemma {:induction false} FiledKept(cache: map<u64, bytes>, c: u64, frame: bytes)
    requires Filed(cache) && |frame| >= DATA_MIN_FRAME && c == CounterOf(frame)
    ensures Filed(cache[c := frame])
  {
    hide CounterOf;
  }

  lemma {:induction false} FiledDropped(cache: map<u64, bytes>, c: u64)
    requires Filed(cache)
    ensures Filed(cache - {c})
  {
    hide CounterOf;
  }

  lemma {:induction false} SameKeys(order: seq<u64>, cache: map<u64, bytes>, c: u64, frame: bytes)
    requires InOrder(order, cache) && c in cache
    ensures InOrder(order, cache[c := frame]) && |cache[c := frame]| == |cache|
  {
    assert cache[c := frame].Keys == cache.Keys;
  }

  lemma {:induction false} NewcomerInOrder(order: seq<u64>, cache: map<u64, bytes>, c: u64, frame: bytes)
    requires InOrder(order, cache) && c !in cache
    ensures InOrder(order + [c], cache[c := frame]) && |cache[c := frame]| == |cache| + 1
  {
    assert cache[c := frame].Keys == cache.Keys + {c};
    assert c !in order;
    forall d ensures d in order + [c] <==> d in cache[c := frame] { }
  }

  /** Accepting arbitrary bytes keeps the receiver's invariant and never touches the cache. */
  lemma {:induction false} AcceptKeepsValid(s: RxState, frame: bytes)
    requires RxValid(s)
    ensures var a := Accept(s, frame).state;
            RxValid(a) && a.cache == s.cache && a.order == s.order && a.limit == s.limit
  {
    hide ReadTable, TableError, Missing, Rebuild, CounterOf, Shape, GroupSeqOf;
  }

  /** Whatever the bytes, a returned frame was missing from the cache, and is well formed. */
  lemma {:induction false} ReturnedFrameWasMissing(s: RxState, frame: bytes)
    requires Accept(s, frame).result.Ok? && Accept(s, frame).result.value.Some?
    ensures var f := Accept(s, frame).result.value.value;
            |f| >= DATA_MIN_FRAME && LooksLikeData(f, CounterOf(f)) && CounterOf(f) !in s.cache
  {
    hide ReadTable, TableError, Missing, CounterOf, Shape, GroupSeqOf, Mixed;
  }

  /** Every processed recovery frame is counted in exactly one way. */
  lemma {:induction false} OutcomesAreCounted(s: RxState, frame: bytes)
    ensures var a := Accept(s, frame);
            && a.state.recovered == s.recovered + (if a.result.Ok? && a.result.value.Some? then 1 else 0)
            && (a.result.Err? ==> a.state.dupRecovery == s.dupRecovery && a.state.abandoned == s.abandoned)
            && (a.result == Ok(Option.None) ==>
                  a.state.dupRecovery + a.state.abandoned
                  == s.dupRecovery + s.abandoned
                     + (if GroupSeqOf(frame) !in s.seen
                         && Missing(ReadTable(frame, Shape(frame).value).counters, s.cache) == []
                        then 0 else 1))
  {
    hide ReadTable, TableError, Missing, CounterOf, Shape, GroupSeqOf, Mixed, LooksLikeData;
  }

  // ---- the receiver ----

  class FecRx {
    var cache: map<u64, bytes>
    var order: seq<u64>
    var limit: nat
    var seenGroups: seq<u64>
    var recovered: nat
    var abandoned: nat
    var dupRecovery: nat

    function State(): RxState
      reads this
    {
      RxState(cache, order, limit, seenGroups, recovered, abandoned, dupRecovery)
    }

    constructor (size: nat)
      ensures State() == Fresh(size) && RxValid(State())
    {
      cache, order, seenGroups := map[], [], [];
      limit := if size == 0 then DEFAULT_RX_CACHE else size;
      recovered, abandoned, dupRecovery := 0, 0, 0;
    }

    method Cached() returns (n: nat)
      ensures n == |cache|
    {
      n := |cache|;
    }

    method ObserveData(frame: bytes) returns (r: Result<(), FecError>)
      requires RxValid(State())
      modifies this
      ensures RxValid(State()) && Observed(State(), r) == Observe(old(State()), frame)
    {
      hide CounterOf;
      ObserveKeepsValid(State(), frame);
      var c := DataCounter(frame);
      if c.Err? { return Err(c.error); }
      var counter := c.value;
      if counter in cache {
        cache := cache[counter := frame];
        return Ok(());
      }
      NewcomerInOrder(order, cache, counter, frame);
      cache := cache[counter := frame];
      order := order + [counter];
      while |cache| > limit
        invariant InOrder(order, cache) && limit == old(limit) && limit > 0
        invariant seenGroups == old(seenGroups) && recovered == old(recovered)
        invariant abandoned == old(abandoned) && dupRecovery == old(dupRecovery)
        invariant Evict(order, cache, limit) == Evict(old(order) + [counter], old(cache)[counter := frame], limit)
        decreases |cache|
      {
        InOrderSize(order, cache);
        if order != [] {
          PopKeepsOrder(order, cache);
          var oldest := order[0];
          order := order[1..];
          cache := cache - {oldest};
        }
      }
      r := Ok(());
    }

    method AcceptRecovery(frame: bytes) returns (r: Result<Option<bytes>, FecError>)
      requires RxValid(State())
      modifies this
      ensures RxValid(State()) && Accepted(State(), r) == Accept(old(State()), frame)
      ensures cache == old(cache) && order == old(order)
    {
      hide CounterOf, ReadCounters, ReadLens, Missing, FirstShort, Largest, Restore, RxValid, Remember, GroupSeqOf;
      AcceptKeepsValid(State(), frame);
      if |frame| < FIXED_END { return Err(BodyTooShort(FIXED_END, |frame|)); }
      if frame[0] != TUNNEL_VERSION || frame[1] != FEC_FRAME_TYPE { return Err(SanityCheck); }
      var groupSeq := GroupSeqOf(frame);
      var k: nat := frame[18];
      if k < FEC_MIN_K || k > FEC_MAX_K { return Err(BadK(k)); }
      var tableEnd := FIXED_END + 10 * k;
      if |frame| < tableEnd { return Err(BodyTooShort(tableEnd, |frame|)); }
      if groupSeq in seenGroups {
        dupRecovery := dupRecovery + 1;
        return Ok(Option.None);
      }
      var t := ParseTable(frame, k);
      var maxLen := MaxOfLens(t.lens);
      if |frame| - tableEnd != maxLen { return Err(XorLenMismatch(maxLen, |frame| - tableEnd)); }
      var short := ShortOf(t.lens);
      if short.Some? { return Err(BadMemberLen(short.value)); }
      Record(groupSeq);
      r := RestoreMissing(t);
    }

    /** Note a processed group, forgetting the oldest. */
    method Record(groupSeq: u64)
      modifies this`seenGroups
      ensures seenGroups == Remember(old(seenGroups), groupSeq)
    {
      seenGroups := seenGroups + [groupSeq];
      ghost var all := seenGroups;
      while |seenGroups| > MAX_SEEN_GROUPS
        invariant |seenGroups| <= |all| && seenGroups == all[|all| - |seenGroups|..]
        invariant |seenGroups| >= MAX_SEEN_GROUPS || seenGroups == all
        decreases |seenGroups|
      {
        seenGroups := seenGroups[1..];
      }
    }

    /** Reconstruct the one absent member, if there is exactly one. */
    method RestoreMissing(t: Table) returns (r: Result<Option<bytes>, FecError>)
      requires |t.counters| == |t.lens| && TableError(t) == Option.None
      modifies this`recovered, this`abandoned
      ensures Accepted(State(), r) == Restore(old(State()), t)
    {
      hide Missing, Rebuild, FirstShort, Largest;
      var missing, count := FindMissing(t.counters);
      if count == 0 { return Ok(Option.None); }
      if count > 1 {
        abandoned := abandoned + 1;
        return Ok(Option.None);
      }
      assert missing == Missing(t.counters, cache)[0];
      r := Reconstruct(t, missing);
      if r.Ok? { recovered := recovered + 1; }
    }

    static method ParseTable(frame: bytes, k: nat) returns (t: Table)
      requires FIXED_END + 10 * k <= |frame|
      ensures t == ReadTable(frame, k)
    {
      hide Word64, Word16;
      var counters: seq<u64>, lens: seq<u16> := [], [];
      var i := 0;
      while i < k
        invariant 0 <= i <= k && counters == ReadCounters(frame, i)
      {
        counters := counters + [Word64(frame[FIXED_END + 8 * i..FIXED_END + 8 * i + 8])];
        i := i + 1;
      }
      i := 0;
      var base := FIXED_END + 8 * k;
      while i < k
        invariant 0 <= i <= k && lens == ReadLens(frame, base, i)
      {
        lens := lens + [Word16(frame[base + 2 * i], frame[base + 2 * i + 1])];
        i := i + 1;
      }
      t := Table(counters, lens, frame[FIXED_END + 10 * k..]);
    }

    static method MaxOfLens(lens: seq<u16>) returns (n: nat)
      ensures n == Largest(lens)
    {
      n := 0;
      var i := 0;
      while i < |lens|
        invariant 0 <= i <= |lens| && n == Largest(lens[..i])
      {
        assert lens[..i + 1][..i] == lens[..i];
        if lens[i] > n { n := lens[i]; }
        i := i + 1;
      }
      assert lens[..i] == lens;
    }

    static method ShortOf(lens: seq<u16>) returns (r: Option<u16>)
      ensures r == FirstShort(lens)
    {
      var i := 0;
      while i < |lens|
        invariant 0 <= i <= |lens| && FirstShort(lens[..i]) == Option.None
      {
        assert lens[..i + 1][..i] == lens[..i];
        if lens[i] < DATA_MIN_FRAME {
          ShortStays(lens, i + 1);
          return Some(lens[i]);
        }
        i := i + 1;
      }
      assert lens[..i] == lens;
      r := Option.None;
    }

    /** Scan for absent members, giving up at the second. */
    method FindMissing(counters: seq<u64>) returns (first: nat, count: nat)
      ensures count == 0 <==> Missing(counters, cache) == []
      ensures count > 1 <==> |Missing(counters, cache)| > 1
      ensures count == 1 ==> Missing(counters, cache) == [first]
    {
      first, count := 0, 0;
      var i := 0;
      while i < |counters|
        invariant 0 <= i <= |counters| && count == |Missing(counters[..i], cache)| <= 1
        invariant count == 1 ==> Missing(counters[..i], cache) == [first]
      {
        assert counters[..i + 1][..i] == counters[..i];
        if counters[i] !in cache {
          count := count + 1;
          if count > 1 {
            MissingGrows(counters, cache, i + 1);
            return;
          }
          first := i;
        }
        i := i + 1;
      }
      assert counters[..i] == counters;
    }

    /** Mix the cached members out of the parity and check what is left. */
    method Reconstruct(t: Table, mi: nat) returns (r: Result<Option<bytes>, FecError>)
      requires mi < |t.counters| == |t.lens| && t.lens[mi] <= |t.parity|
      ensures r == Rebuild(t, mi, cache)
    {
      hide CounterOf, XorOnto;
      var recon := new u8[|t.parity|](i requires 0 <= i < |t.parity| => t.parity[i]);
      assert recon[..] == t.parity;
      var i := 0;
      while i < |t.counters|
        invariant 0 <= i <= |t.counters|
        invariant recon[..] == Mixed(t.parity, t.counters, mi, cache, i)
        modifies recon
      {
        if i != mi {
          if t.counters[i] in cache { XorInto(recon, cache[t.counters[i]]); }
        }
        i := i + 1;
      }
      var frame := recon[..][..t.lens[mi]];
      if !LooksLikeData(frame, t.counters[mi]) { return Err(SanityCheck); }
      r := Ok(Some(frame));
    }
  }

  lemma {:induction false} ShortStays(lens: seq<u16>, n: nat)
    requires n <= |lens| && FirstShort(lens[..n]).Some?
    ensures FirstShort(lens) == FirstShort(lens[..n])
    decreases |lens| - n
  {
    if n < |lens| {
      assert lens[..n + 1][..n] == lens[..n];
      ShortStays(lens, n + 1);
    } else {
      assert lens[..n] == lens;
    }
  }

  lemma {:induction false} MissingGrows(counters: seq<u64>, cache: map<u64, bytes>, n: nat)
    requires n <= |counters|
    ensures |Missing(counters[..n], cache)| <= |Missing(counters, cache)|
    decreases |counters| - n
  {
    if n < |counters| {
      assert counters[..n + 1][..n] == counters[..n];
      MissingGrows(counters, cache, n + 1);
    } else {
      assert counters[..n] == counters;
    }
  }
}
