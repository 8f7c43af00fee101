/** Forward error correction, sending side: groups of data frames and their exclusive-or. */
module Fec {
  import opened Bytes
  import opened Wrappers

  const FRAME_HEADER_SIZE := 10
  const DATA_MIN_FRAME := 74
  const FEC_MIN_K := 2
  const FEC_MAX_K := 16
  const COUNTER_FROM_END := 24
  const RECOVERY_FIXED_BODY := 12
  const FIXED_END := 22
  const TUNNEL_VERSION: u8 := 1
  const DATA_FRAME_TYPE: u8 := 2
  const FEC_FRAME_TYPE: u8 := 6

  datatype FecError =
    | TooShort(len: nat)
    | BadK(k: nat)
    | BodyTooShort(need: nat, got: nat)
    | XorLenMismatch(expected: nat, got: nat)
    | BadMemberLen(len: nat)
    | SanityCheck

  /** The eight counter bytes before the sixteen tag bytes. */
  function CounterOf(frame: bytes): u64
    requires |frame| >= DATA_MIN_FRAME
  {
    Word64(frame[|frame| - COUNTER_FROM_END..|frame| - COUNTER_FROM_END + 8])
  }

  function DataCounter(frame: bytes): Result<u64, FecError> {
    if |frame| < DATA_MIN_FRAME then Err(TooShort(|frame|)) else Ok(CounterOf(frame))
  }

  // ---- exclusive or of frames of different lengths ----

  /** Byte `i` of `s` followed by zeros for ever. */
  function Padded(s: bytes, i: nat): u8 {
    if i < |s| then s[i] else 0
  }

  /** `a` with `b` mixed in, no longer than `a`. */
  function XorOnto(a: bytes, b: bytes): (r: bytes)
    ensures |r| == |a|
    ensures forall i :: 0 <= i < |a| ==> r[i] == Xor(a[i], Padded(b, i))
  {
    seq(|a|, i requires 0 <= i < |a| => Xor(a[i], Padded(b, i)))
  }

  /** Exclusive or of the padded frames at one index. */
  function XorAt(frames: seq<bytes>, i: nat): u8 {
    if frames == [] then 0 else Xor(XorAt(frames[..|frames| - 1], i), Padded(frames[|frames| - 1], i))
  }

  function MaxLen(frames: seq<bytes>): nat {
    if frames == [] then 0
    else
      var m, l := MaxLen(frames[..|frames| - 1]), |frames[|frames| - 1]|;
      if l > m then l else m
  }

  /** It bounds every length and is one of them. */
  lemma {:induction false} MaxLenIsMaximum(frames: seq<bytes>)
    ensures forall i :: 0 <= i < |frames| ==> |frames[i]| <= MaxLen(frames)
    ensures frames != [] ==> exists i :: 0 <= i < |frames| && |frames[i]| == MaxLen(frames)
  {
    if frames == [] {
    } else {
      var n := |frames| - 1;
      MaxLenIsMaximum(frames[..n]);
      assert forall i :: 0 <= i < n ==> frames[..n][i] == frames[i];
      if |frames[n]| <= MaxLen(frames[..n]) && n > 0 {
        var i :| 0 <= i < n && |frames[..n][i]| == MaxLen(frames[..n]);
        assert |frames[i]| == MaxLen(frames);
      } else {
        assert |frames[n]| == MaxLen(frames);
      }
    }
  }

  /** Exclusive or of all frames, as long as the longest. */
  function Parity(frames: seq<bytes>): (r: bytes)
    ensures |r| == MaxLen(frames)
  {
    seq(MaxLen(frames), i requires 0 <= i => XorAt(frames, i))
  }

  /** `acc[i] ^= other[i]` as far as both reach. */
  method XorInto(acc: array<u8>, other: bytes)
    modifies acc
    ensures acc[..] == XorOnto(old(acc[..]), other)
  {
    hide Xor;
    var n := if acc.Length < |other| then acc.Length else |other|;
    var i := 0;
    while i < n
      invariant 0 <= i <= n
      invariant forall j :: 0 <= j < i ==> acc[j] == Xor(old(acc[j]), other[j])
      invariant forall j :: i <= j < acc.Length ==> acc[j] == old(acc[j])
    {
      acc[i] := Xor(acc[i], other[i]);
      i := i + 1;
    }
    forall j | n <= j < acc.Length ensures acc[j] == Xor(old(acc[j]), Padded(other, j)) {
      XorGroup(acc[j], 0, 0);
    }
    assert forall j :: 0 <= j < acc.Length ==> acc[..][j] == XorOnto(old(acc[..]), other)[j];
  }

  /** Extending with zeros and mixing in one more frame keeps the accumulator the parity of the group. */
  lemma {:induction false} ParityStep(frames: seq<bytes>, frame: bytes, wide: bytes)
    requires |wide| == MaxLen(frames + [frame])
    requires forall i :: 0 <= i < |wide| ==> wide[i] == Padded(Parity(frames), i)
    ensures XorOnto(wide, frame) == Parity(frames + [frame])
  {
    hide Xor, XorAt;
    MaxLenIsMaximum(frames);
    forall i | 0 <= i < |wide| ensures XorOnto(wide, frame)[i] == XorAt(frames + [frame], i) {
      XorAtSnoc(frames, frame, i);
      if i >= MaxLen(frames) { XorAtBeyond(frames, i); }
    }
  }

  lemma {:induction false} XorAtSnoc(frames: seq<bytes>, frame: bytes, i: nat)
    ensures XorAt(frames + [frame], i) == Xor(XorAt(frames, i), Padded(frame, i))
  {
    hide Xor;
    assert (frames + [frame])[..|frames|] == frames;
  }

  lemma {:induction false} XorAtBeyond(frames: seq<bytes>, i: nat)
    requires forall k :: 0 <= k < |frames| ==> |frames[k]| <= i
    ensures XorAt(frames, i) == 0
  {
    hide Xor;
    if frames == [] {
    } else {
      XorAtBeyond(frames[..|frames| - 1], i);
      XorGroup(0, 0, 0);
    }
  }

  lemma {:induction false} MaxLenSnoc(frames: seq<bytes>, frame: bytes)
    ensures MaxLen(frames + [frame]) == if |frame| > MaxLen(frames) then |frame| else MaxLen(frames)
  {
    assert (frames + [frame])[..|frames|] == frames;
  }

  // ---- the recovery frame ----

  function CountersOf(frames: seq<bytes>): (r: seq<u64>)
    requires forall i :: 0 <= i < |frames| ==> |frames[i]| >= DATA_MIN_FRAME
    ensures |r| == |frames| && forall i :: 0 <= i < |r| ==> r[i] == CounterOf(frames[i])
  {
    seq(|frames|, i requires 0 <= i < |frames| => CounterOf(frames[i]))
  }

  /** A length as the sixteen-bit field holds it. */
  function Clamped(n: nat): u16 {
    if n < 0x1_0000 then n else 0xFFFF
  }

  function LensOf(frames: seq<bytes>): (r: seq<u16>)
    ensures |r| == |frames| && forall i :: 0 <= i < |r| ==> r[i] == Clamped(|frames[i]|)
  {
    seq(|frames|, i requires 0 <= i < |frames| => Clamped(|frames[i]|))
  }

  function CounterTable(counters: seq<u64>): (r: bytes)
    ensures |r| == 8 * |counters|
  {
    if counters == [] then []
    else CounterTable(counters[..|counters| - 1]) + Be64(counters[|counters| - 1])
  }

  function LenTable(lens: seq<u16>): (r: bytes)
    ensures |r| == 2 * |lens|
  {
    if lens == [] then [] else LenTable(lens[..|lens| - 1]) + Be16(lens[|lens| - 1])
  }

  /** The 22 bytes before the member table. */
  function RecoveryHead(keyId: bytes, groupSeq: u64, k: nat): (r: bytes)
    requires |keyId| == 8
    ensures |r| == FIXED_END
  {
    [TUNNEL_VERSION, FEC_FRAME_TYPE] + keyId + Be64(groupSeq) + [k % 256] + [0, 0, 0]
  }

  /** The recovery frame of a group. */
  function RecoveryFrame(keyId: bytes, groupSeq: u64, members: seq<bytes>): (r: bytes)
    requires |keyId| == 8 && forall i :: 0 <= i < |members| ==> |members[i]| >= DATA_MIN_FRAME
    ensures |r| >= FIXED_END
  {
    RecoveryHead(keyId, groupSeq, |members|) + CounterTable(CountersOf(members)) + LenTable(LensOf(members))
    + Parity(members)
  }

  // ---- the sender ----

  /** The group being collected. */
  datatype TxState = TxState(groupSeq: u64, members: seq<bytes>)

  ghost predicate Collecting(k: nat, s: TxState) {
    && FEC_MIN_K <= k <= FEC_MAX_K && |s.members| < k
    && forall i :: 0 <= i < |s.members| ==> |s.members[i]| >= DATA_MIN_FRAME
  }

  datatype Pushed = Pushed(state: TxState, result: Result<Option<bytes>, FecError>)

  /** One frame enters the group; the last one of a group brings out its recovery frame. */
  ghost function PushStep(k: nat, s: TxState, frame: bytes, keyId: bytes): Pushed
    requires Collecting(k, s) && |keyId| == 8
  {
    var all := s.members + [frame];
    if |frame| < DATA_MIN_FRAME then Pushed(s, Err(TooShort(|frame|)))
    else if |all| < k then Pushed(s.(members := all), Ok(Option.None))
    else Pushed(TxState((s.groupSeq + 1) % 0x1_0000_0000_0000_0000, []),
        Ok(Some(RecoveryFrame(keyId, s.groupSeq, all))))
  }

  class FecTx {
    var k: nat
    var groupSeq: u64
    var acc: array<u8>
    var counters: seq<u64>
    var lens: seq<u16>
    /** The frames of the current group, which the other fields summarise. */
    ghost var members: seq<bytes>

    ghost predicate Valid()
      reads this, acc
    {
      && Collecting(k, State())
      && counters == CountersOf(members) && lens == LensOf(members) && acc[..] == Parity(members)
    }

    ghost function State(): TxState
      reads this
    {
      TxState(groupSeq, members)
    }

    constructor (size: nat)
      requires FEC_MIN_K <= size <= FEC_MAX_K
      ensures Valid() && fresh(acc) && k == size && State() == TxState(0, [])
    {
      k, groupSeq, counters, lens, members := size, 0, [], [], [];
      acc := new u8[0];
    }

    static method New(size: nat) returns (r: Result<FecTx, FecError>)
      ensures !(FEC_MIN_K <= size <= FEC_MAX_K) ==> r == Err(BadK(size))
      ensures FEC_MIN_K <= size <= FEC_MAX_K ==>
                && r.Ok? && fresh(r.value) && fresh(r.value.acc)
                && r.value.Valid() && r.value.k == size && r.value.State() == TxState(0, [])
    {
      if size < FEC_MIN_K || size > FEC_MAX_K { return Err(BadK(size)); }
      var tx := new FecTx(size);
      r := Ok(tx);
    }

    method Pending() returns (n: nat)
      requires Valid()
      ensures n == |members|
    {
      n := |counters|;
    }

    /** Feed one sealed frame. */
    method Push(frame: bytes, keyId: bytes) returns (r: Result<Option<bytes>, FecError>)
      requires Valid() && |keyId| == 8
      modifies this, acc
      ensures Valid() && k == old(k) && (acc == old(acc) || fresh(acc))
      ensures Pushed(State(), r) == PushStep(old(k), old(State()), frame, keyId)
    {
      hide Parity, MaxLen, CounterOf, RecoveryFrame, CountersOf, LensOf;
      if |frame| < DATA_MIN_FRAME { return Err(TooShort(|frame|)); }
      Absorb(frame);
      if |counters| < k { return Ok(Option.None); }
      var out := EncodeRecovery(keyId);
      groupSeq := (groupSeq + 1) % 0x1_0000_0000_0000_0000;
      acc := new u8[0];
      counters, lens, members := [], [], [];
      EmptyParity();
      assert acc[..] == [];
      r := Ok(Some(out));
    }

    /** Mix the frame into the accumulator and note its counter and length. */
    method Absorb(frame: bytes)
      requires Valid() && |frame| >= DATA_MIN_FRAME
      modifies this, acc
      ensures k == old(k) && groupSeq == old(groupSeq) && members == old(members) + [frame]
      ensures acc == old(acc) || fresh(acc)
      ensures |counters| == |members| == |lens| && forall i :: 0 <= i < |members| ==> |members[i]| >= DATA_MIN_FRAME
      ensures counters == CountersOf(members) && lens == LensOf(members) && acc[..] == Parity(members)
    {
      hide Parity, MaxLen, CounterOf, XorOnto;
      Widen(|frame|);
      ghost var wide := acc[..];
      MaxLenSnoc(members, frame);
      XorInto(acc, frame);
      ParityStep(members, frame, wide);
      counters := counters + [CounterOf(frame)];
      lens := lens + [Clamped(|frame|)];
      members := members + [frame];
      assert counters == CountersOf(members);
      assert lens == LensOf(members);
    }

    /** Extend the accumulator with zeros to at least `n` bytes. */
    method Widen(n: nat)
      modifies this`acc
      ensures acc == old(acc) || fresh(acc)
      ensures acc.Length == if n > old(acc.Length) then n else old(acc.Length)
      ensures forall i :: 0 <= i < acc.Length ==> acc[i] == Padded(old(acc[..]), i)
    {
      if n > acc.Length {
        var old' := acc[..];
        acc := new u8[n](i => if 0 <= i < |old'| then old'[i] else 0);
      }
    }

    /** The recovery frame of the full group. */
    method EncodeRecovery(keyId: bytes) returns (f: bytes)
      requires |keyId| == 8 && |counters| == |members| == |lens|
      requires forall i :: 0 <= i < |members| ==> |members[i]| >= DATA_MIN_FRAME
      requires counters == CountersOf(members) && lens == LensOf(members) && acc[..] == Parity(members)
      ensures f == RecoveryFrame(keyId, groupSeq, members)
    {
      hide Parity, MaxLen, CounterOf;
      f := [TUNNEL_VERSION, FEC_FRAME_TYPE];
      f := f + keyId;
      f := f + Be64(groupSeq);
      f := f + [|counters| % 256] + [0, 0, 0];
      assert f == RecoveryHead(keyId, groupSeq, |members|);
      var i := 0;
      while i < |counters|
        invariant 0 <= i <= |counters|
        invariant f == RecoveryHead(keyId, groupSeq, |members|) + CounterTable(counters[..i])
      {
        assert counters[..i + 1][..i] == counters[..i];
        f := f + Be64(counters[i]);
        i := i + 1;
      }
      assert counters[..i] == counters;
      ghost var prefix := f;
      i := 0;
      while i < |lens|
        invariant 0 <= i <= |lens|
        invariant f == prefix + LenTable(lens[..i])
      {
        assert lens[..i + 1][..i] == lens[..i];
        f := f + Be16(lens[i]);
        i := i + 1;
      }
      assert lens[..i] == lens;
      f := f + acc[..];
    }
  }

  lemma {:induction false} EmptyParity()
    ensures Parity([]) == [] && CountersOf([]) == [] && LensOf([]) == []
  {
  }
}
