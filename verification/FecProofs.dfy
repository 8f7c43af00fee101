/** A recovery frame restores exactly the member that is missing. */
module FecProofs {
  import opened Bytes
  import opened Fec
  import opened FecReceive
  import opened Wrappers

  // ---- what the receiver reads back from a recovery frame ----

  ghost predicate Group(members: seq<bytes>) {
    && FEC_MIN_K <= |members| <= FEC_MAX_K
    && forall i :: 0 <= i < |members| ==> |members[i]| >= DATA_MIN_FRAME
  }

  lemma {:induction false} CounterTableAt(counters: seq<u64>, i: nat)
    requires i < |counters|
    ensures CounterTable(counters)[8 * i..8 * i + 8] == Be64(counters[i])
  {
    hide Be64;
    var n := |counters| - 1;
    if i < n {
      CounterTableAt(counters[..n], i);
      assert CounterTable(counters)[8 * i..8 * i + 8] == CounterTable(counters[..n])[8 * i..8 * i + 8];
    }
  }

  lemma {:induction false} LenTableAt(lens: seq<u16>, i: nat)
    requires i < |lens|
    ensures LenTable(lens)[2 * i] == lens[i] / 256 && LenTable(lens)[2 * i + 1] == lens[i] % 256
  {
    var n := |lens| - 1;
    if i < n { LenTableAt(lens[..n], i); }
  }

  lemma {:induction false} Word16Of(n: u16)
    ensures Word16(n / 256, n % 256) == n
  {
  }

  lemma {:induction false} HeadReads(keyId: bytes, g: u64, k: nat)
    requires |keyId| == 8 && k < 256
    ensures var h := RecoveryHead(keyId, g, k);
            h[0] == TUNNEL_VERSION && h[1] == FEC_FRAME_TYPE && h[18] == k && h[10..18] == Be64(g)
  {
    hide Be64;
  }

  /** The header of a recovery frame names its group and size. */
  lemma {:induction false} RecoveryShape(keyId: bytes, g: u64, members: seq<bytes>)
    requires |keyId| == 8 && Group(members)
    ensures var f := RecoveryFrame(keyId, g, members);
            Shape(f) == Ok(|members|) && GroupSeqOf(f) == g
  {
    hide RecoveryHead, CounterTable, LenTable, Parity, CountersOf, LensOf, Be64, MaxLen, Word64;
    HeadReads(keyId, g, |members|);
    WordsRoundTrip64(g);
    var h := RecoveryHead(keyId, g, |members|);
    var f := RecoveryFrame(keyId, g, members);
    assert f[..FIXED_END] == h;
    assert f[18] == h[18] && f[0] == h[0] && f[1] == h[1];
    assert f[10..18] == h[10..18];
  }

  lemma {:induction false} TableReads(head: bytes, counters: seq<u64>, lens: seq<u16>, parity: bytes)
    requires |head| == FIXED_END && |counters| == |lens|
    ensures var f := head + CounterTable(counters) + LenTable(lens) + parity;
            ReadTable(f, |counters|) == Table(counters, lens, parity)
  {
    hide CounterTable, LenTable, Word64, Word16, Be64;
    var f, k := head + CounterTable(counters) + LenTable(lens) + parity, |counters|;
    forall i | 0 <= i < k ensures ReadCounters(f, k)[i] == counters[i] {
      CounterTableAt(counters, i);
      assert f[FIXED_END + 8 * i..FIXED_END + 8 * i + 8] == CounterTable(counters)[8 * i..8 * i + 8];
      WordsRoundTrip64(counters[i]);
    }
    forall i | 0 <= i < k ensures ReadLens(f, FIXED_END + 8 * k, k)[i] == lens[i] {
      LenTableAt(lens, i);
      assert f[FIXED_END + 8 * k + 2 * i] == LenTable(lens)[2 * i];
      assert f[FIXED_END + 8 * k + 2 * i + 1] == LenTable(lens)[2 * i + 1];
      Word16Of(lens[i]);
    }
    assert f[FIXED_END + 10 * k..] == parity;
  }

  /** The table of a recovery frame is the members' counters, clamped lengths and parity. */
  lemma {:induction false} RecoveryTable(keyId: bytes, g: u64, members: seq<bytes>)
    requires |keyId| == 8 && Group(members)
    ensures ReadTable(RecoveryFrame(keyId, g, members), |members|)
         == Table(CountersOf(members), LensOf(members), Parity(members))
  {
    hide RecoveryHead, CounterTable, LenTable, Parity, ReadTable;
    TableReads(RecoveryHead(keyId, g, |members|), CountersOf(members), LensOf(members), Parity(members));
  }

  lemma {:induction false} LargestLen(members: seq<bytes>)
    ensures Largest(LensOf(members)) == Clamped(MaxLen(members))
  {
    if members == [] {
    } else {
      var n := |members| - 1;
      LargestLen(members[..n]);
      assert LensOf(members)[..n] == LensOf(members[..n]);
    }
  }

  lemma {:induction false} NoShort(lens: seq<u16>)
    requires forall i :: 0 <= i < |lens| ==> lens[i] >= DATA_MIN_FRAME
    ensures FirstShort(lens) == Option.None
  {
    if lens == [] {
    } else {
      NoShort(lens[..|lens| - 1]);
    }
  }

  /** The receiver accepts the table exactly when every member's length fits in sixteen bits. */
  lemma {:induction false} TableAccepted(members: seq<bytes>)
    requires Group(members)
    ensures TableError(Table(CountersOf(members), LensOf(members), Parity(members)))
         == if MaxLen(members) < 0x1_0000 then Option.None else Some(XorLenMismatch(0xFFFF, MaxLen(members)))
  {
    hide MaxLen, Parity, CountersOf, Largest, FirstShort;
    LargestLen(members);
    NoShort(LensOf(members));
  }

  // ---- the exclusive-or algebra ----

  lemma {:induction false} Swap(a: u8, b: u8, c: u8)
    ensures Xor(Xor(a, b), c) == Xor(Xor(a, c), b)
  {
    hide Xor;
    XorGroup(a, b, c);
    XorGroup(a, c, b);
    XorGroup(b, c, 0);
  }

  lemma {:induction false} Cancel(a: u8, b: u8)
    ensures Xor(Xor(a, b), a) == b
  {
    hide Xor;
    Swap(a, b, a);
    XorGroup(a, a, b);
    XorGroup(b, 0, 0);
  }

  /** Exclusive or at `i` of the first `n` members except `mi`. */
  function SkipAt(members: seq<bytes>, mi: nat, n: nat, i: nat): u8
    requires n <= |members|
  {
    if n == 0 then 0
    else if n - 1 == mi then SkipAt(members, mi, n - 1, i)
    else Xor(SkipAt(members, mi, n - 1, i), Padded(members[n - 1], i))
  }

  lemma {:induction false} XorAtSplits(members: seq<bytes>, mi: nat, n: nat, i: nat)
    requires n <= |members| && mi < |members|
    ensures XorAt(members[..n], i)
         == if n <= mi then SkipAt(members, mi, n, i) else Xor(SkipAt(members, mi, n, i), Padded(members[mi], i))
  {
    hide Xor;
    if n == 0 {
    } else {
      XorAtSplits(members, mi, n - 1, i);
      assert members[..n][..n - 1] == members[..n - 1];
      if n - 1 > mi { Swap(SkipAt(members, mi, n - 1, i), Padded(members[mi], i), Padded(members[n - 1], i)); }
    }
  }

  /** Every member but `mi` is cached under its counter. */
  ghost predicate CachedBut(cache: map<u64, bytes>, members: seq<bytes>, mi: nat)
    requires forall i :: 0 <= i < |members| ==> |members[i]| >= DATA_MIN_FRAME
  {
    && mi < |members| && CounterOf(members[mi]) !in cache
    && (forall i :: 0 <= i < |members| && i != mi ==>
          CounterOf(members[i]) in cache && cache[CounterOf(members[i])] == members[i])
  }

  lemma {:induction false} MissingOne(cache: map<u64, bytes>, members: seq<bytes>, mi: nat, n: nat)
    requires Group(members) && CachedBut(cache, members, mi) && n <= |members|
    ensures Missing(CountersOf(members)[..n], cache) == if n <= mi then [] else [mi]
  {
    hide CounterOf;
    if n == 0 {
    } else {
      MissingOne(cache, members, mi, n - 1);
      assert CountersOf(members)[..n][..n - 1] == CountersOf(members)[..n - 1];
    }
  }

  lemma {:induction false} MixedAt(cache: map<u64, bytes>, members: seq<bytes>, mi: nat, parity: bytes, n: nat, i: nat)
    requires Group(members) && CachedBut(cache, members, mi) && n <= |members| && i < |parity|
    ensures Mixed(parity, CountersOf(members), mi, cache, n)[i] == Xor(parity[i], SkipAt(members, mi, n, i))
  {
    hide CounterOf, Xor;
    if n == 0 {
      XorGroup(parity[i], 0, 0);
    } else {
      MixedAt(cache, members, mi, parity, n - 1, i);
      if n - 1 != mi {
        XorGroup(parity[i], SkipAt(members, mi, n - 1, i), Padded(members[n - 1], i));
      }
    }
  }

  /** What is left of the parity is the missing member, padded. */
  lemma {:induction false} RestAt(cache: map<u64, bytes>, members: seq<bytes>, mi: nat, i: nat)
    requires Group(members) && CachedBut(cache, members, mi) && i < MaxLen(members)
    ensures Mixed(Parity(members), CountersOf(members), mi, cache, |members|)[i] == Padded(members[mi], i)
  {
    hide CounterOf, Xor, Padded, Mixed;
    MixedAt(cache, members, mi, Parity(members), |members|, i);
    XorAtSplits(members, mi, |members|, i);
    assert members[..|members|] == members;
    Cancel(SkipAt(members, mi, |members|, i), Padded(members[mi], i));
  }

  lemma {:induction false} MixedGivesMissing(cache: map<u64, bytes>, members: seq<bytes>, mi: nat)
    requires Group(members) && CachedBut(cache, members, mi)
    ensures |members[mi]| <= MaxLen(members)
    ensures Mixed(Parity(members), CountersOf(members), mi, cache, |members|)[..|members[mi]|] == members[mi]
  {
    hide CounterOf, Xor, XorAt, Mixed;
    MaxLenIsMaximum(members);
    forall i | 0 <= i < |members[mi]|
      ensures Mixed(Parity(members), CountersOf(members), mi, cache, |members|)[i] == members[mi][i]
    {
      RestAt(cache, members, mi, i);
    }
  }

  /** The receiver's answer to the recovery frame of a group of which it has every member but one: the missing
      member exactly if every length fits in sixteen bits and the member starts like a data frame; otherwise
      the error that says which of the two failed. */
  lemma {:induction false} RecoversExactly(s: RxState, keyId: bytes, g: u64, members: seq<bytes>, mi: nat)
    requires |keyId| == 8 && Group(members) && g !in s.seen && CachedBut(s.cache, members, mi)
    ensures var a := Accept(s, RecoveryFrame(keyId, g, members));
            var fits := MaxLen(members) < 0x1_0000;
            var data := members[mi][0] == TUNNEL_VERSION && members[mi][1] == DATA_FRAME_TYPE;
            && a.result == (if !fits then Err(XorLenMismatch(0xFFFF, MaxLen(members)))
                            else if !data then Err(SanityCheck) else Ok(Some(members[mi])))
            && a.state == (if !fits then s
                           else s.(seen := Remember(s.seen, g), recovered := s.recovered + if data then 1 else 0))
  {
    hide RecoveryFrame, Shape, GroupSeqOf, ReadTable, TableError, Parity, MaxLen, CounterOf, Missing, Mixed, Remember,
         CachedBut, LensOf, CountersOf;
    RecoveryShape(keyId, g, members);
    RecoveryTable(keyId, g, members);
    TableAccepted(members);
    CachedMember(s.cache, members, mi);
    var t := Table(CountersOf(members), LensOf(members), Parity(members));
    if MaxLen(members) < 0x1_0000 { RebuildsMissing(s.(seen := Remember(s.seen, g)), members, mi, t); }
  }

  lemma {:induction false} CachedMember(cache: map<u64, bytes>, members: seq<bytes>, mi: nat)
    requires Group(members) && CachedBut(cache, members, mi)
    ensures mi < |members|
  {
    hide CounterOf;
  }

  lemma {:induction false} RebuildsMissing(s: RxState, members: seq<bytes>, mi: nat, t: Table)
    requires Group(members) && mi < |members| && CachedBut(s.cache, members, mi) && MaxLen(members) < 0x1_0000
    requires t == Table(CountersOf(members), LensOf(members), Parity(members)) && TableError(t) == Option.None
    ensures var data := members[mi][0] == TUNNEL_VERSION && members[mi][1] == DATA_FRAME_TYPE;
            Restore(s, t) == Accepted(s.(recovered := s.recovered + if data then 1 else 0),
                                      if data then Ok(Some(members[mi])) else Err(SanityCheck))
  {
    hide TableError, Parity, MaxLen, CounterOf, Mixed, Missing, CachedBut, CountersOf, LensOf;
    MissingOne(s.cache, members, mi, |members|);
    assert CountersOf(members)[..|members|] == CountersOf(members);
    MixedGivesMissing(s.cache, members, mi);
    assert Missing(t.counters, s.cache) == [mi];
    assert t.lens[mi] == |members[mi]|;
  }

  /** A new recovery frame that misses no member is redundant, and one that misses several is given up: nothing is
      returned, and only the memory of groups and, in the second case, its statistic change. */
  lemma {:induction false} OutcomeByMissing(s: RxState, keyId: bytes, g: u64, members: seq<bytes>)
    requires |keyId| == 8 && Group(members) && MaxLen(members) < 0x1_0000 && g !in s.seen
    ensures var a := Accept(s, RecoveryFrame(keyId, g, members));
            var missing := |Missing(CountersOf(members), s.cache)|;
            && (missing == 0 ==> a == Accepted(s.(seen := Remember(s.seen, g)), Ok(Option.None)))
            && (missing > 1 ==> a == Accepted(s.(seen := Remember(s.seen, g), abandoned := s.abandoned + 1),
                                              Ok(Option.None)))
  {
    hide RecoveryFrame, Shape, GroupSeqOf, ReadTable, TableError, Missing, CounterOf, MaxLen, Rebuild, Remember;
    RecoveryShape(keyId, g, members);
    RecoveryTable(keyId, g, members);
    TableAccepted(members);
  }

  lemma {:induction false} MissingAll(counters: seq<u64>, cache: map<u64, bytes>, i: nat)
    requires i < |counters| && counters[i] !in cache
    ensures i in Missing(counters, cache)
  {
    var n := |counters| - 1;
    if i < n { MissingAll(counters[..n], cache, i); }
  }

  /** No member is missing exactly when every one is cached. */
  lemma {:induction false} NoneMissing(cache: map<u64, bytes>, counters: seq<u64>)
    ensures Missing(counters, cache) == [] <==> forall i :: 0 <= i < |counters| ==> counters[i] in cache
  {
    hide Missing;
    if Missing(counters, cache) == [] {
      forall i | 0 <= i < |counters| ensures counters[i] in cache {
        if counters[i] !in cache { MissingAll(counters, cache, i); }
      }
    } else {
      assert counters[Missing(counters, cache)[0]] !in cache;
    }
  }
}
