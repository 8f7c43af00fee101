/** Layer-2 neighbour discovery: the fixed-size signed message, the table of authorised
    neighbours with its file format, and the processor that guards the table.
    Signatures are an opaque predicate and the clock is a parameter. */
module Neighbors {
  import opened Bytes
  import opened Wrappers
  import opened Counting

  type i64 = x: int | -0x8000_0000_0000_0000 <= x < 0x8000_0000_0000_0000

  type Mac = b: bytes | |b| == 6 witness [0, 0, 0, 0, 0, 0]
  type Addr = b: bytes | |b| == 16 witness ToBe(0, 16)
  type Key = b: bytes | |b| == 32 witness ToBe(0, 32)
  type Sig = b: bytes | |b| == 64 witness ToBe(0, 64)

  /** The signature scheme: public key, signed bytes, signature. */
  type Verifier = (bytes, bytes, bytes) -> bool

  const MAGIC: bytes := [0x49, 0x50, 0x38, 0x4E]
  const STORE_TAG: bytes := [0x4E, 0x42, 0x48, 0x52]
  const VERSION: u8 := 1
  const HELLO: u8 := 1
  const ACK: u8 := 2
  const MSG_LEN: nat := 136
  const SIGNED_LEN: nat := 72
  const TS_WINDOW: nat := 300
  const NONCE_RING: nat := 64
  const PENDING_TTL: nat := 30
  const PENDING_MAX: nat := 1024
  const STORE_HDR_LEN: nat := 13
  const RECORD_LEN: nat := 64
  const MAX_COUNT: u32 := 0xFFFF_FFFF

  datatype NeighError =
    | BadLength(want: nat, got: nat)
    | BadMagic
    | BadVersion(version: u8)
    | UnknownType(kind: u8)
    | BadFlags(flags: u16)
    | BadTimestamp
    | BadSignature
    | TimestampOutOfWindow(msg: int, now: int)
    | Replay(nonce: u64)
    | UnexpectedType(kind: u8)
    | AckNonceMismatch(nonce: u64)
    | StoreTooShort
    | StoreMagic
    | StoreVersion(version: u8)
    | StoreLength(want: nat, got: nat)

  // ---- the message ----

  datatype Message = Message(kind: u8, flags: u16, addr: Addr, ts: i64, nonce: u64, key: Key, sig: Sig)

  /** A signed 64-bit value as the unsigned word with the same bits, and back. */
  function Unsigned(x: i64): u64 {
    if x < 0 then x + 0x1_0000_0000_0000_0000 else x
  }

  function Signed(x: u64): i64 {
    if x < 0x8000_0000_0000_0000 then x else x - 0x1_0000_0000_0000_0000
  }

  /** The encoder always writes zero flags. */
  function EncodeMessage(m: Message): (b: bytes)
    ensures |b| == MSG_LEN
  {
    MAGIC + [VERSION, m.kind] + [0, 0] + m.addr + Be64(Unsigned(m.ts)) + Be64(m.nonce) + m.key + m.sig
  }

  function DecodeMessage(b: bytes): Result<Message, NeighError> {
    if |b| != MSG_LEN then Err(BadLength(MSG_LEN, |b|))
    else if b[..4] != MAGIC then Err(BadMagic)
    else if b[4] != VERSION then Err(BadVersion(b[4]))
    else if b[5] != HELLO && b[5] != ACK then Err(UnknownType(b[5]))
    else if Word16(b[6], b[7]) != 0 then Err(BadFlags(Word16(b[6], b[7])))
    else if Word64(b[24..32]) >= 0x8000_0000_0000_0000 then Err(BadTimestamp)
    else Ok(Message(b[5], 0, b[8..24], Word64(b[24..32]), Word64(b[32..40]), b[40..72], b[72..136]))
  }

  /** Decoding inverts encoding exactly for the messages the protocol can carry:
      type HELLO or ACK, no flags, and a time stamp that is not negative. */
  lemma {:induction false} EncodeThenDecode(m: Message)
    ensures DecodeMessage(EncodeMessage(m)) == Ok(m)
      <==> (m.kind == HELLO || m.kind == ACK) && m.flags == 0 && m.ts >= 0
  {
    hide Word64, Be64;
    var b := EncodeMessage(m);
    assert b[..4] == MAGIC;
    assert b[8..24] == m.addr;
    assert b[24..32] == Be64(Unsigned(m.ts));
    assert b[32..40] == Be64(m.nonce);
    assert b[40..72] == m.key;
    assert b[72..136] == m.sig;
    WordsRoundTrip64(Unsigned(m.ts));
    WordsRoundTrip64(m.nonce);
  }

  lemma {:induction false} Rewrite64(b: bytes)
    requires |b| == 8
    ensures Be64(Word64(b)) == b
  {
    ToFromBe(b);
  }

  /** Nothing in an accepted frame is ignored: it is the encoding of what was decoded,
      so two different frames never decode to one message. */
  lemma {:induction false} DecodeThenEncode(b: bytes)
    requires DecodeMessage(b).Ok?
    ensures EncodeMessage(DecodeMessage(b).value) == b
  {
    hide Word64, Be64;
    Rewrite64(b[24..32]);
    Rewrite64(b[32..40]);
    assert b == b[..4] + [b[4], b[5]] + [b[6], b[7]] + b[8..24] + b[24..32] + b[32..40] + b[40..72] + b[72..136];
  }

  // ---- the table of neighbours ----

  datatype Record = Record(mac: Mac, addr: Addr, key: Key, ts: i64)

  datatype Selector = ByKey(key: Key) | ByPrefix(prefix: bytes) | ByAddr(addr: Addr) | ByMac(mac: Mac)

  predicate Selected(which: Selector, r: Record) {
    match which
    case ByKey(k) => r.key == k
    case ByPrefix(p) => p != [] && p <= r.key
    case ByAddr(a) => r.addr == a
    case ByMac(m) => r.mac == m
  }

  /** Where the first record of a key is; the length of the list when there is none. */
  function IndexOf(peers: seq<Record>, key: Key): (i: nat)
    ensures i <= |peers|
    ensures i < |peers| ==> peers[i].key == key
    ensures forall k :: 0 <= k < i ==> peers[k].key != key
  {
    if peers == [] then 0
    else if peers[0].key == key then 0
    else 1 + IndexOf(peers[1..], key)
  }

  function Upsert(peers: seq<Record>, r: Record): seq<Record> {
    var i := IndexOf(peers, r.key);
    if i < |peers| then peers[i := r] else peers + [r]
  }

  function Kept(peers: seq<Record>, which: Selector): seq<Record> {
    if peers == [] then []
    else
      var last := peers[|peers| - 1];
      Kept(peers[..|peers| - 1], which) + if Selected(which, last) then [] else [last]
  }

  ghost predicate UniqueKeys(peers: seq<Record>) {
    forall i, j :: 0 <= i < j < |peers| ==> peers[i].key != peers[j].key
  }

  ghost predicate HasKey(peers: seq<Record>, key: Key) {
    exists i :: 0 <= i < |peers| && peers[i].key == key
  }

  // ---- the file of neighbours ----

  function ToLe(n: nat, k: nat): (r: bytes)
    ensures |r| == k
  {
    if k == 0 then [] else [n % 256] + ToLe(n / 256, k - 1)
  }

  function FromLe(s: bytes): (n: nat)
    ensures n < Pow256(|s|)
  {
    if s == [] then 0 else s[0] + 256 * FromLe(s[1..])
  }

  lemma {:induction false} FromToLe(n: nat, k: nat)
    requires n < Pow256(k)
    ensures FromLe(ToLe(n, k)) == n
  {
    if k == 0 {
    } else {
      FromToLe(n / 256, k - 1);
      assert ToLe(n, k)[1..] == ToLe(n / 256, k - 1);
    }
  }

  function EncodeRecord(r: Record): (b: bytes)
    ensures |b| == RECORD_LEN
  {
    r.mac + [0, 0] + r.addr + r.key + ToLe(Unsigned(r.ts), 8)
  }

  function DecodeRecord(b: bytes): Record
    requires |b| == RECORD_LEN
  {
    PowValues();
    Record(b[..6], b[8..24], b[24..56], Signed(FromLe(b[56..64])))
  }

  function EncodeRecords(peers: seq<Record>): (b: bytes)
    ensures |b| == RECORD_LEN * |peers|
  {
    if peers == [] then []
    else EncodeRecords(peers[..|peers| - 1]) + EncodeRecord(peers[|peers| - 1])
  }

  function EncodeStore(peers: seq<Record>): bytes {
    MAGIC + STORE_TAG + [VERSION]
      + ToLe(if |peers| <= MAX_COUNT then |peers| else MAX_COUNT, 4) + EncodeRecords(peers)
  }

  /** The table after the first `n` records of a file have been entered. */
  function Entered(b: bytes, n: nat): seq<Record>
    requires STORE_HDR_LEN + n * RECORD_LEN <= |b|
  {
    if n == 0 then []
    else
      var base := STORE_HDR_LEN + (n - 1) * RECORD_LEN;
      Upsert(Entered(b, n - 1), DecodeRecord(b[base..base + RECORD_LEN]))
  }

  function DecodeStore(b: bytes): Result<seq<Record>, NeighError> {
    if |b| < STORE_HDR_LEN then Err(StoreTooShort)
    else if b[..4] != MAGIC || b[4..8] != STORE_TAG then Err(StoreMagic)
    else if b[8] != VERSION then Err(StoreVersion(b[8]))
    else
      var count := FromLe(b[9..13]);
      if |b| != STORE_HDR_LEN + count * RECORD_LEN
      then Err(StoreLength(STORE_HDR_LEN + count * RECORD_LEN, |b|))
      else Ok(Entered(b, count))
  }

  class NeighborStore {
    var peers: seq<Record>

    constructor ()
      ensures peers == []
    {
      peers := [];
    }

    method Contains(key: Key) returns (found: bool)
      ensures found == HasKey(peers, key)
    {
      var i := 0;
      while i < |peers|
        invariant 0 <= i <= |peers|
        invariant forall k :: 0 <= k < i ==> peers[k].key != key
      {
        if peers[i].key == key {
          return true;
        }
        i := i + 1;
      }
      found := false;
    }

    method Authorize(r: Record)
      modifies this
      ensures peers == Upsert(old(peers), r)
    {
      var i := 0;
      while i < |peers|
        invariant 0 <= i <= |peers| && peers == old(peers)
        invariant forall k :: 0 <= k < i ==> peers[k].key != r.key
      {
        if peers[i].key == r.key {
          peers := peers[i := r];
          return;
        }
        i := i + 1;
      }
      peers := peers + [r];
    }

    method Remove(which: Selector) returns (hit: bool)
      modifies this
      ensures peers == Kept(old(peers), which)
      ensures hit == (|peers| != |old(peers)|)
    {
      var kept: seq<Record> := [];
      var i := 0;
      while i < |peers|
        invariant 0 <= i <= |peers|
        invariant kept == Kept(peers[..i], which)
      {
        assert peers[..i + 1][..i] == peers[..i];
        if !Selected(which, peers[i]) {
          kept := kept + [peers[i]];
        }
        i := i + 1;
      }
      assert peers[..i] == peers;
      hit := |kept| != |peers|;
      peers := kept;
    }

    method EncodeVec() returns (out: bytes)
      ensures out == EncodeStore(peers)
    {
      var count := if |peers| <= MAX_COUNT then |peers| else MAX_COUNT;
      out := MAGIC + STORE_TAG + [VERSION] + ToLe(count, 4);
      ghost var header := out;
      var i := 0;
      while i < |peers|
        invariant 0 <= i <= |peers|
        invariant out == header + EncodeRecords(peers[..i])
      {
        assert peers[..i + 1][..i] == peers[..i];
        out := out + EncodeRecord(peers[i]);
        i := i + 1;
      }
      assert peers[..i] == peers;
    }

    static method DecodeSlice(b: bytes) returns (r: Result<NeighborStore, NeighError>)
      ensures r.Ok? == DecodeStore(b).Ok?
      ensures r.Err? ==> r.error == DecodeStore(b).error
      ensures r.Ok? ==> fresh(r.value) && r.value.peers == DecodeStore(b).value
    {
      hide Entered, FromLe;
      if |b| < STORE_HDR_LEN {
        return Err(StoreTooShort);
      }
      if b[..4] != MAGIC || b[4..8] != STORE_TAG {
        return Err(StoreMagic);
      }
      if b[8] != VERSION {
        return Err(StoreVersion(b[8]));
      }
      var count := FromLe(b[9..13]);
      var want := STORE_HDR_LEN + count * RECORD_LEN;
      if |b| != want {
        return Err(StoreLength(want, |b|));
      }
      var store := new NeighborStore();
      store.Enter(b, count);
      r := Ok(store);
    }

    method Enter(b: bytes, count: nat)
      requires peers == [] && STORE_HDR_LEN + count * RECORD_LEN <= |b|
      modifies this
      ensures peers == Entered(b, count)
    {
      hide DecodeRecord, Upsert;
      var i := 0;
      while i < count
        invariant 0 <= i <= count
        invariant peers == Entered(b, i)
      {
        var base := STORE_HDR_LEN + i * RECORD_LEN;
        Authorize(DecodeRecord(b[base..base + RECORD_LEN]));
        i := i + 1;
      }
    }
  }

  // ---- the processor ----

  datatype Pending = Pending(nonce: u64, sentAt: i64)

  datatype State = State(peers: seq<Record>, seen: map<Key, seq<u64>>, pending: seq<Pending>)

  datatype HelloDecision = AutoAck(msg: Message) | NeedsConsent(msg: Message) | Reject(error: NeighError)

  /** Subtraction that saturates at the ends of the signed 64-bit range. */
  function SatSub(a: i64, b: i64): i64 {
    if a - b < -0x8000_0000_0000_0000 then -0x8000_0000_0000_0000
    else if a - b >= 0x8000_0000_0000_0000 then 0x7FFF_FFFF_FFFF_FFFF
    else a - b
  }

  function Abs(x: int): nat {
    if x < 0 then -x else x
  }

  function Live(pending: seq<Pending>, now: i64): seq<Pending> {
    if pending == [] then []
    else
      var last := pending[|pending| - 1];
      Live(pending[..|pending| - 1], now) + if SatSub(now, last.sentAt) <= PENDING_TTL then [last] else []
  }

  /** Where the first entry with this nonce waits; the length of the list when there is none. */
  function Waiting(pending: seq<Pending>, nonce: u64): (i: nat)
    ensures i <= |pending|
    ensures i < |pending| ==> pending[i].nonce == nonce
    ensures forall k :: 0 <= k < i ==> pending[k].nonce != nonce
  {
    if pending == [] then 0
    else if pending[0].nonce == nonce then 0
    else 1 + Waiting(pending[1..], nonce)
  }

  function Ring(s: State, key: Key): seq<u64> {
    if key in s.seen then s.seen[key] else []
  }

  function Pushed(ring: seq<u64>, nonce: u64): seq<u64> {
    (if |ring| >= NONCE_RING then ring[1..] else ring) + [nonce]
  }

  function WithHello(s: State, nonce: u64, now: i64): State {
    var live := Live(s.pending, now);
    var room := if |live| >= PENDING_MAX then live[1..] else live;
    s.(pending := room + [Pending(nonce, now)])
  }

  /** What the checks shared by HELLO and ACK make of a frame; they do not change the table. */
  function Checked(verify: Verifier, s: State, frame: bytes, kind: u8, now: i64): Result<Message, NeighError> {
    var d := DecodeMessage(frame);
    if d.Err? then d
    else
      var m := d.value;
      if m.kind != kind then Err(UnexpectedType(m.kind))
      else if !verify(m.key, frame[..SIGNED_LEN], m.sig) then Err(BadSignature)
      else if Abs(SatSub(m.ts, now)) > TS_WINDOW then Err(TimestampOutOfWindow(m.ts, now))
      else if m.nonce in Ring(s, m.key) then Err(Replay(m.nonce))
      else d
  }

  /** An accepted message leaves its nonce in the ring of its key. */
  function Noted(s: State, r: Result<Message, NeighError>): State {
    if r.Err? then s
    else s.(seen := s.seen[r.value.key := Pushed(Ring(s, r.value.key), r.value.nonce)])
  }

  function AfterHello(verify: Verifier, s: State, frame: bytes, mac: Mac, now: i64): (State, HelloDecision) {
    var c := Checked(verify, s, frame, HELLO, now);
    var t := Noted(s, c);
    if c.Err? then (t, Reject(c.error))
    else if IndexOf(s.peers, c.value.key) < |s.peers| then
      (t.(peers := Upsert(s.peers, Record(mac, c.value.addr, c.value.key, now))), AutoAck(c.value))
    else (t, NeedsConsent(c.value))
  }

  function AfterAck(verify: Verifier, s: State, frame: bytes, mac: Mac, now: i64)
    : (State, Result<Record, NeighError>)
  {
    var c := Checked(verify, s, frame, ACK, now);
    var t := Noted(s, c);
    if c.Err? then (t, Err(c.error))
    else
      var live := Live(s.pending, now);
      var i := Waiting(live, c.value.nonce);
      if i == |live| then (t.(pending := live), Err(AckNonceMismatch(c.value.nonce)))
      else
        var r := Record(mac, c.value.addr, c.value.key, now);
        (t.(pending := Without(live, i), peers := Upsert(s.peers, r)), Ok(r))
  }

  class NeighborProcessor {
    const verify: Verifier
    const store: NeighborStore
    var seen: map<Key, seq<u64>>
    var pending: seq<Pending>

    constructor (verify: Verifier, store: NeighborStore)
      ensures this.verify == verify && this.store == store
      ensures View() == State(store.peers, map[], [])
    {
      this.verify := verify;
      this.store := store;
      seen := map[];
      pending := [];
    }

    ghost function View(): State
      reads this, store
    {
      State(store.peers, seen, pending)
    }

    method PrunePending(now: i64)
      modifies this`pending
      ensures pending == Live(old(pending), now)
    {
      var live: seq<Pending> := [];
      var i := 0;
      while i < |pending|
        invariant 0 <= i <= |pending| && pending == old(pending)
        invariant live == Live(pending[..i], now)
      {
        assert pending[..i + 1][..i] == pending[..i];
        if SatSub(now, pending[i].sentAt) <= PENDING_TTL {
          live := live + [pending[i]];
        }
        i := i + 1;
      }
      assert pending[..i] == pending;
      pending := live;
    }

    method RecordHelloSent(nonce: u64, now: i64)
      modifies this`pending
      ensures View() == WithHello(old(View()), nonce, now)
    {
      PrunePending(now);
      if |pending| >= PENDING_MAX {
        pending := pending[1..];
      }
      pending := pending + [Pending(nonce, now)];
    }

    method VerifyFrame(frame: bytes, kind: u8, now: i64) returns (r: Result<Message, NeighError>)
      modifies this`seen
      ensures r == Checked(verify, old(View()), frame, kind, now)
      ensures View() == Noted(old(View()), r)
    {
      r := DecodeMessage(frame);
      if r.Err? {
        return;
      }
      var m := r.value;
      if m.kind != kind {
        return Err(UnexpectedType(m.kind));
      }
      if !verify(m.key, frame[..SIGNED_LEN], m.sig) {
        return Err(BadSignature);
      }
      if Abs(SatSub(m.ts, now)) > TS_WINDOW {
        return Err(TimestampOutOfWindow(m.ts, now));
      }
      var ring := if m.key in seen then seen[m.key] else [];
      if m.nonce in ring {
        return Err(Replay(m.nonce));
      }
      if |ring| >= NONCE_RING {
        ring := ring[1..];
      }
      seen := seen[m.key := ring + [m.nonce]];
    }

    method ProcessHello(frame: bytes, mac: Mac, now: i64) returns (d: HelloDecision)
      modifies this`seen, store
      ensures (View(), d) == AfterHello(verify, old(View()), frame, mac, now)
    {
      var r := VerifyFrame(frame, HELLO, now);
      if r.Err? {
        return Reject(r.error);
      }
      var known := store.Contains(r.value.key);
      if known {
        store.Authorize(Record(mac, r.value.addr, r.value.key, now));
        d := AutoAck(r.value);
      } else {
        d := NeedsConsent(r.value);
      }
    }

    method ApproveConsent(hello: Message, mac: Mac, now: i64)
      modifies store
      ensures View() == old(View()).(peers := Upsert(old(store.peers), Record(mac, hello.addr, hello.key, now)))
    {
      store.Authorize(Record(mac, hello.addr, hello.key, now));
    }

    method ProcessAck(frame: bytes, mac: Mac, now: i64) returns (r: Result<Record, NeighError>)
      modifies this, store
      ensures (View(), r) == AfterAck(verify, old(View()), frame, mac, now)
    {
      var c := VerifyFrame(frame, ACK, now);
      if c.Err? {
        return Err(c.error);
      }
      PrunePending(now);
      var i := 0;
      while i < |pending| && pending[i].nonce != c.value.nonce
        invariant 0 <= i <= |pending|
        invariant forall k :: 0 <= k < i ==> pending[k].nonce != c.value.nonce
      {
        i := i + 1;
      }
      if i == |pending| {
        return Err(AckNonceMismatch(c.value.nonce));
      }
      pending := Without(pending, i);
      var entry := Record(mac, c.value.addr, c.value.key, now);
      store.Authorize(entry);
      r := Ok(entry);
    }
  }
}
