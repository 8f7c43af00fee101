/** What the neighbour processor guarantees over every run, and the round trip of its file. */
module NeighborRuns {
  import opened Bytes
  import opened Wrappers
  import opened Counting
  import opened Neighbors

  // ---- runs ----

  datatype Step =
    | Sent(nonce: u64, now: i64)
    | Hello(frame: bytes, mac: Mac, now: i64)
    | Ack(frame: bytes, mac: Mac, now: i64)
    | Approve(msg: Message, mac: Mac, now: i64)
    | Remove(which: Selector)

  function After(v: Verifier, s: State, step: Step): State {
    match step
    case Sent(nonce, now) => WithHello(s, nonce, now)
    case Hello(frame, mac, now) => AfterHello(v, s, frame, mac, now).0
    case Ack(frame, mac, now) => AfterAck(v, s, frame, mac, now).0
    case Approve(m, mac, now) => s.(peers := Upsert(s.peers, Record(mac, m.addr, m.key, now)))
    case Remove(which) => s.(peers := Kept(s.peers, which))
  }

  /** A processor starts with a table and nothing else. */
  function Start(peers: seq<Record>): State {
    State(peers, map[], [])
  }

  function Run(v: Verifier, peers: seq<Record>, steps: seq<Step>): State {
    if steps == [] then Start(peers)
    else After(v, Run(v, peers, steps[..|steps| - 1]), steps[|steps| - 1])
  }

  /** The result of the checks that a step makes, for the steps that check a frame. */
  function CheckOf(v: Verifier, s: State, step: Step): Option<Result<Message, NeighError>> {
    match step
    case Hello(frame, _, now) => Some(Checked(v, s, frame, HELLO, now))
    case Ack(frame, _, now) => Some(Checked(v, s, frame, ACK, now))
    case _ => Option.None
  }

  predicate Accepts(v: Verifier, s: State, step: Step, key: Key) {
    var c := CheckOf(v, s, step);
    c.Some? && c.value.Ok? && c.value.value.key == key
  }

  /** The nonces accepted from one key, oldest first. */
  function History(v: Verifier, peers: seq<Record>, steps: seq<Step>, key: Key): seq<u64> {
    if steps == [] then []
    else
      var before := steps[..|steps| - 1];
      var s := Run(v, peers, before);
      var step := steps[|steps| - 1];
      History(v, peers, before, key)
        + if Accepts(v, s, step, key) then [CheckOf(v, s, step).value.value.nonce] else []
  }

  function Recent(h: seq<u64>): seq<u64> {
    if |h| <= NONCE_RING then h else h[|h| - NONCE_RING..]
  }

  // ---- replay ----

  lemma {:induction false} PushedIsRecent(h: seq<u64>, n: u64)
    ensures Pushed(Recent(h), n) == Recent(h + [n])
  {
  }

  lemma {:induction false} RingAfter(v: Verifier, s: State, step: Step, key: Key)
    ensures Ring(After(v, s, step), key)
      == if Accepts(v, s, step, key) then Pushed(Ring(s, key), CheckOf(v, s, step).value.value.nonce)
         else Ring(s, key)
  {
    hide Checked, Pushed, Upsert, Live, Waiting, Kept, IndexOf, Without;
  }

  /** The ring of a key holds exactly its 64 most recently accepted nonces, oldest first. */
  lemma {:induction false} RingIsRecent(v: Verifier, peers: seq<Record>, steps: seq<Step>, key: Key)
    ensures Ring(Run(v, peers, steps), key) == Recent(History(v, peers, steps, key))
  {
    hide After, Accepts, CheckOf, Pushed, Recent, Ring;
    if steps == [] {
      StartsEmpty(peers, key);
    } else {
      var before := steps[..|steps| - 1];
      RingIsRecent(v, peers, before, key);
      RingAfter(v, Run(v, peers, before), steps[|steps| - 1], key);
      if Accepts(v, Run(v, peers, before), steps[|steps| - 1], key) {
        var c := CheckOf(v, Run(v, peers, before), steps[|steps| - 1]);
        AcceptsMeans(v, Run(v, peers, before), steps[|steps| - 1], key);
        PushedIsRecent(History(v, peers, before, key), c.value.value.nonce);
      } else {
        assert History(v, peers, steps, key) == History(v, peers, before, key);
      }
    }
  }

  lemma {:induction false} StartsEmpty(peers: seq<Record>, key: Key)
    ensures Ring(Start(peers), key) == Recent([])
  {
  }

  lemma {:induction false} AcceptsMeans(v: Verifier, s: State, step: Step, key: Key)
    requires Accepts(v, s, step, key)
    ensures CheckOf(v, s, step).Some? && CheckOf(v, s, step).value.Ok?
    ensures CheckOf(v, s, step).value.value.nonce !in Ring(s, key)
  {
  }

  /** A frame is accepted exactly when it decodes to a message of the wanted type, its
      signature and time hold, and its nonce is not among the last 64 accepted from its key. */
  lemma {:induction false} AcceptedExactly(v: Verifier, peers: seq<Record>, steps: seq<Step>,
      frame: bytes, kind: u8, now: i64)
    ensures Checked(v, Run(v, peers, steps), frame, kind, now).Ok? <==>
      var d := DecodeMessage(frame);
      && d.Ok? && d.value.kind == kind
      && v(d.value.key, frame[..SIGNED_LEN], d.value.sig)
      && now - TS_WINDOW <= d.value.ts <= now + TS_WINDOW
      && d.value.nonce !in Recent(History(v, peers, steps, d.value.key))
  {
    hide Run, History, Recent, Ring;
    var d := DecodeMessage(frame);
    if d.Ok? {
      RingIsRecent(v, peers, steps, d.value.key);
    }
  }

  lemma {:induction false} ForgottenIsFar(h: seq<u64>, i: nat)
    requires i < |h|
    ensures h[i] !in Recent(h) ==> |h| - i > NONCE_RING
  {
    if |h| - i <= NONCE_RING && |h| > NONCE_RING {
      assert Recent(h)[i - (|h| - NONCE_RING)] == h[i];
    }
  }

  /** Two acceptances of one nonce from one key have at least 64 acceptances of other
      messages from that key between them. */
  lemma {:induction false} ReplayDistance(v: Verifier, peers: seq<Record>, steps: seq<Step>, key: Key, i: nat, j: nat)
    requires i < j < |History(v, peers, steps, key)|
    requires History(v, peers, steps, key)[i] == History(v, peers, steps, key)[j]
    ensures j - i - 1 >= NONCE_RING
  {
    hide After, Accepts, CheckOf, Run, Ring, Recent;
    var before := steps[..|steps| - 1];
    var h := History(v, peers, before, key);
    if j < |h| {
      ReplayDistance(v, peers, before, key, i, j);
    } else {
      var s := Run(v, peers, before);
      AcceptsMeans(v, s, steps[|steps| - 1], key);
      RingIsRecent(v, peers, before, key);
      ForgottenIsFar(h, i);
    }
  }

  // ---- what an ACK consumes ----

  function SentHellos(steps: seq<Step>): seq<Pending> {
    if steps == [] then []
    else
      var last := steps[|steps| - 1];
      SentHellos(steps[..|steps| - 1]) + if last.Sent? then [Pending(last.nonce, last.now)] else []
  }

  predicate Succeeds(v: Verifier, s: State, step: Step) {
    step.Ack? && AfterAck(v, s, step.frame, step.mac, step.now).1.Ok?
  }

  /** The waiting HELLO that a successful ACK takes. */
  function Taken(v: Verifier, s: State, step: Step): Pending
    requires Succeeds(v, s, step)
  {
    var live := Live(s.pending, step.now);
    live[Waiting(live, DecodeMessage(step.frame).value.nonce)]
  }

  /** The HELLOs taken by the successful ACKs of a run, one for each, in order. */
  function Consumed(v: Verifier, peers: seq<Record>, steps: seq<Step>): seq<Pending> {
    if steps == [] then []
    else
      var before := steps[..|steps| - 1];
      var s := Run(v, peers, before);
      var last := steps[|steps| - 1];
      Consumed(v, peers, before) + if Succeeds(v, s, last) then [Taken(v, s, last)] else []
  }

  lemma {:induction false} LiveMembers(pending: seq<Pending>, now: i64)
    ensures |Live(pending, now)| <= |pending|
    ensures multiset(Live(pending, now)) <= multiset(pending)
    ensures forall k :: 0 <= k < |Live(pending, now)| ==> now - Live(pending, now)[k].sentAt <= PENDING_TTL
  {
    if pending == [] {
    } else {
      LiveMembers(pending[..|pending| - 1], now);
      assert pending == pending[..|pending| - 1] + [pending[|pending| - 1]];
    }
  }

  lemma {:induction false} WithoutOne<T>(s: seq<T>, i: nat)
    requires i < |s|
    ensures multiset(Without(s, i)) + multiset{s[i]} == multiset(s)
  {
    assert s == s[..i] + [s[i]] + s[i + 1..];
  }

  lemma {:induction false} CheckedDecodes(v: Verifier, s: State, frame: bytes, kind: u8, now: i64)
    ensures Checked(v, s, frame, kind, now).Ok? ==> Checked(v, s, frame, kind, now) == DecodeMessage(frame)
  {
    hide DecodeMessage;
  }

  lemma {:induction false} TakenIsFresh(v: Verifier, s: State, step: Step)
    requires Succeeds(v, s, step)
    ensures Taken(v, s, step).nonce == DecodeMessage(step.frame).value.nonce
    ensures step.now - Taken(v, s, step).sentAt <= PENDING_TTL
    ensures Taken(v, s, step) in multiset(s.pending)
  {
    hide Checked, Upsert, DecodeMessage, Live, Waiting;
    CheckedDecodes(v, s, step.frame, ACK, step.now);
    LiveMembers(s.pending, step.now);
    var live := Live(s.pending, step.now);
    var i := Waiting(live, DecodeMessage(step.frame).value.nonce);
    assert live[i] in multiset(live);
  }

  /** What a step adds to the waiting HELLOs, and what a successful ACK takes from them. */
  function Gained(step: Step): multiset<Pending> {
    if step.Sent? then multiset{Pending(step.nonce, step.now)} else multiset{}
  }

  function Lost(v: Verifier, s: State, step: Step): multiset<Pending> {
    if Succeeds(v, s, step) then multiset{Taken(v, s, step)} else multiset{}
  }

  lemma {:induction false} PendingAfterSent(s: State, nonce: u64, now: i64)
    ensures multiset(WithHello(s, nonce, now).pending) <= multiset(s.pending) + multiset{Pending(nonce, now)}
    ensures |s.pending| <= PENDING_MAX ==> |WithHello(s, nonce, now).pending| <= PENDING_MAX
  {
    hide Live;
    LiveMembers(s.pending, now);
    var live := Live(s.pending, now);
    if |live| >= PENDING_MAX {
      WithoutOne(live, 0);
      assert Without(live, 0) == live[1..];
    }
  }

  lemma {:induction false} PendingAfterAck(v: Verifier, s: State, frame: bytes, mac: Mac, now: i64)
    ensures multiset(AfterAck(v, s, frame, mac, now).0.pending) + Lost(v, s, Ack(frame, mac, now))
         <= multiset(s.pending)
    ensures |AfterAck(v, s, frame, mac, now).0.pending| <= |s.pending|
  {
    hide Checked, DecodeMessage, Upsert, Live, Waiting, Without, Pushed, Ring;
    CheckedDecodes(v, s, frame, ACK, now);
    LiveMembers(s.pending, now);
    var live := Live(s.pending, now);
    var c := Checked(v, s, frame, ACK, now);
    if c.Ok? && Waiting(live, c.value.nonce) < |live| {
      WithoutOne(live, Waiting(live, c.value.nonce));
      WithoutLength(live, Waiting(live, c.value.nonce));
    }
  }

  lemma {:induction false} WithoutLength<T>(s: seq<T>, i: nat)
    requires i < |s|
    ensures |Without(s, i)| == |s| - 1
  {
  }

  lemma {:induction false} PendingAfter(v: Verifier, s: State, step: Step)
    ensures multiset(After(v, s, step).pending) + Lost(v, s, step) <= multiset(s.pending) + Gained(step)
    ensures |s.pending| <= PENDING_MAX ==> |After(v, s, step).pending| <= PENDING_MAX
  {
    hide Checked, AfterAck, WithHello, Upsert, Kept, IndexOf, Pushed, Ring, Taken;
    match step
    case Sent(nonce, now) => PendingAfterSent(s, nonce, now);
    case Ack(frame, mac, now) => PendingAfterAck(v, s, frame, mac, now);
    case _ =>
  }

  lemma {:induction false} Balance<T>(c: multiset<T>, p: multiset<T>, s: multiset<T>,
      p': multiset<T>, lost: multiset<T>, gained: multiset<T>)
    requires c + p <= s && p' + lost <= p + gained
    ensures (c + lost) + p' <= s + gained
  {
    forall x ensures (c + lost + p')[x] <= (s + gained)[x] {
      assert (c + p)[x] <= s[x] && (p' + lost)[x] <= (p + gained)[x];
    }
  }

  lemma {:induction false} ConsumedStep(v: Verifier, peers: seq<Record>, steps: seq<Step>)
    requires steps != []
    ensures var n := |steps| - 1;
      && multiset(Consumed(v, peers, steps))
        == multiset(Consumed(v, peers, steps[..n])) + Lost(v, Run(v, peers, steps[..n]), steps[n])
      && multiset(SentHellos(steps)) == multiset(SentHellos(steps[..n])) + Gained(steps[n])
  {
    hide After, Succeeds, Taken, Run;
  }

  /** The HELLOs that successful ACKs took, together with those still waiting, are among the
      HELLOs sent, counting repetitions: every successful ACK takes a HELLO of its own. */
  lemma {:induction false} AcksTakeDistinctHellos(v: Verifier, peers: seq<Record>, steps: seq<Step>)
    ensures multiset(Consumed(v, peers, steps)) + multiset(Run(v, peers, steps).pending)
      <= multiset(SentHellos(steps))
    ensures |Run(v, peers, steps).pending| <= PENDING_MAX
  {
    hide After, Succeeds, Taken, Gained, Lost;
    if steps == [] {
    } else {
      var n := |steps| - 1;
      AcksTakeDistinctHellos(v, peers, steps[..n]);
      PendingAfter(v, Run(v, peers, steps[..n]), steps[n]);
      ConsumedStep(v, peers, steps);
      Balance(multiset(Consumed(v, peers, steps[..n])), multiset(Run(v, peers, steps[..n]).pending),
              multiset(SentHellos(steps[..n])), multiset(Run(v, peers, steps).pending),
              Lost(v, Run(v, peers, steps[..n]), steps[n]), Gained(steps[n]));
    }
  }

  lemma {:induction false} SentAtStep(steps: seq<Step>, p: Pending)
    requires p in multiset(SentHellos(steps))
    ensures exists i :: 0 <= i < |steps| && steps[i] == Sent(p.nonce, p.sentAt)
  {
    var last := steps[|steps| - 1];
    if last == Sent(p.nonce, p.sentAt) {
    } else {
      SentAtStep(steps[..|steps| - 1], p);
      var i :| 0 <= i < |steps| - 1 && steps[..|steps| - 1][i] == Sent(p.nonce, p.sentAt);
      assert steps[i] == Sent(p.nonce, p.sentAt);
    }
  }

  /** A successful ACK answers a HELLO of ours that carried its nonce and went out, earlier in
      the run, at most 30 seconds before. */
  lemma {:induction false} AckNeedsHello(v: Verifier, peers: seq<Record>, steps: seq<Step>, j: nat)
    requires j < |steps| && Succeeds(v, Run(v, peers, steps[..j]), steps[j])
    ensures exists i :: (
      && 0 <= i < j && steps[i].Sent?
      && steps[i].nonce == DecodeMessage(steps[j].frame).value.nonce
      && steps[j].now - steps[i].now <= PENDING_TTL)
  {
    hide Run, Succeeds, Taken;
    var s := Run(v, peers, steps[..j]);
    assert steps[j].Ack? by { SuccessIsAck(v, s, steps[j]); }
    TakenIsFresh(v, s, steps[j]);
    var p := Taken(v, s, steps[j]);
    AcksTakeDistinctHellos(v, peers, steps[..j]);
    SentAtStep(steps[..j], p);
    var i :| 0 <= i < j && steps[..j][i] == Sent(p.nonce, p.sentAt);
    assert steps[i] == Sent(p.nonce, p.sentAt);
  }

  lemma {:induction false} SuccessIsAck(v: Verifier, s: State, step: Step)
    requires Succeeds(v, s, step)
    ensures step.Ack?
  {
  }

  // ---- the table ----

  lemma {:induction false} UpsertKeys(peers: seq<Record>, r: Record)
    ensures UniqueKeys(peers) ==> UniqueKeys(Upsert(peers, r))
    ensures forall k :: HasKey(Upsert(peers, r), k) <==> HasKey(peers, k) || k == r.key
  {
    var i := IndexOf(peers, r.key);
    var after := Upsert(peers, r);
    assert after[i] == r;
    forall k | HasKey(peers, k) ensures HasKey(after, k) {
      var j :| 0 <= j < |peers| && peers[j].key == k;
      assert after[j].key == k;
    }
    forall k | HasKey(after, k) && k != r.key ensures HasKey(peers, k) {
      var j :| 0 <= j < |after| && after[j].key == k;
      assert peers[j].key == k;
    }
  }

  /** Removal keeps the unselected records, in order, and only those. */
  lemma {:induction false} KeptMembers(peers: seq<Record>, which: Selector)
    ensures forall r :: r in Kept(peers, which) <==> r in peers && !Selected(which, r)
    ensures |Kept(peers, which)| == |peers| <==> Kept(peers, which) == peers
  {
    if peers == [] {
    } else {
      var n := |peers| - 1;
      KeptMembers(peers[..n], which);
      KeptIsShorter(peers[..n], which);
      assert peers == peers[..n] + [peers[n]];
    }
  }

  lemma {:induction false} KeptIsUnique(peers: seq<Record>, which: Selector)
    requires UniqueKeys(peers)
    ensures UniqueKeys(Kept(peers, which))
  {
    hide Selected;
    if peers == [] {
    } else {
      var n := |peers| - 1;
      KeptIsUnique(peers[..n], which);
      KeptMembers(peers[..n], which);
      forall i | 0 <= i < |Kept(peers[..n], which)| ensures Kept(peers[..n], which)[i].key != peers[n].key {
        assert Kept(peers[..n], which)[i] in peers[..n];
      }
    }
  }

  lemma {:induction false} KeptIsShorter(peers: seq<Record>, which: Selector)
    ensures |Kept(peers, which)| <= |peers|
  {
    if peers == [] {
    } else {
      KeptIsShorter(peers[..|peers| - 1], which);
    }
  }

  /** The step that brings a key into the table. */
  ghost predicate Admits(v: Verifier, s: State, step: Step, key: Key) {
    || (step.Approve? && step.msg.key == key)
    || (Succeeds(v, s, step) && DecodeMessage(step.frame).value.key == key)
  }

  lemma {:induction false} PeersAfter(v: Verifier, s: State, step: Step, key: Key)
    ensures UniqueKeys(s.peers) ==> UniqueKeys(After(v, s, step).peers)
    ensures HasKey(After(v, s, step).peers, key) ==> HasKey(s.peers, key) || Admits(v, s, step, key)
    ensures (HasKey(s.peers, key) && !step.Remove?) || Admits(v, s, step, key)
      ==> HasKey(After(v, s, step).peers, key)
  {
    hide Upsert, Kept, Live, Waiting, Ring, Pushed, Without, UniqueKeys, HasKey, Selected;
    match step
    case Sent(_, _) =>
    case Hello(frame, mac, now) =>
      var c := Checked(v, s, frame, HELLO, now);
      if c.Ok? {
        UpsertKeys(s.peers, Record(mac, c.value.addr, c.value.key, now));
        if IndexOf(s.peers, c.value.key) < |s.peers| {
          FoundIsHeld(s.peers, c.value.key);
        }
      }
    case Ack(frame, mac, now) =>
      var c := Checked(v, s, frame, ACK, now);
      if c.Ok? {
        UpsertKeys(s.peers, Record(mac, c.value.addr, c.value.key, now));
      }
    case Approve(m, mac, now) => UpsertKeys(s.peers, Record(mac, m.addr, m.key, now));
    case Remove(which) =>
      if UniqueKeys(s.peers) {
        KeptIsUnique(s.peers, which);
      }
      KeptHasKey(s.peers, which, key);
  }

  lemma {:induction false} FoundIsHeld(peers: seq<Record>, key: Key)
    requires IndexOf(peers, key) < |peers|
    ensures HasKey(peers, key)
  {
  }

  lemma {:induction false} KeptHasKey(peers: seq<Record>, which: Selector, key: Key)
    ensures HasKey(Kept(peers, which), key) ==> HasKey(peers, key)
  {
    KeptMembers(peers, which);
    if HasKey(Kept(peers, which), key) {
      var i :| 0 <= i < |Kept(peers, which)| && Kept(peers, which)[i].key == key;
      assert Kept(peers, which)[i] in peers;
    }
  }

  /** Keys stay unique, and a key that is in the table but was not in it at the start was
      admitted by a consent or by a successful ACK that carried it. */
  lemma {:induction false} NewKeysAreAdmitted(v: Verifier, peers: seq<Record>, steps: seq<Step>, key: Key)
    ensures UniqueKeys(peers) ==> UniqueKeys(Run(v, peers, steps).peers)
    ensures HasKey(Run(v, peers, steps).peers, key) && !HasKey(peers, key) ==>
      exists j :: 0 <= j < |steps| && Admits(v, Run(v, peers, steps[..j]), steps[j], key)
  {
    hide After, Admits, UniqueKeys, HasKey;
    if steps == [] {
    } else {
      var n := |steps| - 1;
      NewKeysAreAdmitted(v, peers, steps[..n], key);
      PeersAfter(v, Run(v, peers, steps[..n]), steps[n], key);
      if HasKey(Run(v, peers, steps[..n]).peers, key) && !HasKey(peers, key) {
        var j :| 0 <= j < n && Admits(v, Run(v, peers, steps[..n][..j]), steps[..n][j], key);
        assert steps[..n][..j] == steps[..j];
        assert Admits(v, Run(v, peers, steps[..j]), steps[j], key);
      }
    }
  }

  // ---- the file ----

  lemma {:induction false} RecordRoundTrip(r: Record)
    ensures DecodeRecord(EncodeRecord(r)) == r
  {
    hide ToLe, FromLe;
    PowValues();
    var b := EncodeRecord(r);
    var tail := ToLe(Unsigned(r.ts), 8);
    var front := r.mac + [0, 0] + r.addr + r.key;
    assert b == front + tail;
    assert b[..6] == r.mac;
    assert b[8..24] == r.addr;
    assert b[24..56] == r.key;
    assert b[56..64] == tail by {
      forall k | 0 <= k < 8 ensures b[56..64][k] == tail[k] {
        assert (front + tail)[56 + k] == tail[k];
      }
    }
    FromToLe(Unsigned(r.ts), 8);
  }

  lemma {:induction false} RecordAt(peers: seq<Record>, k: nat)
    requires k < |peers|
    ensures EncodeRecords(peers)[RECORD_LEN * k..RECORD_LEN * k + RECORD_LEN] == EncodeRecord(peers[k])
  {
    hide EncodeRecord;
    var n := |peers| - 1;
    var front := EncodeRecords(peers[..n]);
    if k == n {
      assert EncodeRecords(peers)[RECORD_LEN * n..] == EncodeRecord(peers[n]);
    } else {
      RecordAt(peers[..n], k);
      assert EncodeRecords(peers)[RECORD_LEN * k..RECORD_LEN * k + RECORD_LEN]
          == front[RECORD_LEN * k..RECORD_LEN * k + RECORD_LEN];
    }
  }

  lemma {:induction false} UniqueAt(peers: seq<Record>, i: nat, j: nat)
    requires UniqueKeys(peers) && i < j < |peers|
    ensures peers[i].key != peers[j].key
  {
  }

  lemma {:induction false} AppendsNew(peers: seq<Record>, n: nat)
    requires n < |peers| && UniqueKeys(peers)
    ensures Upsert(peers[..n], peers[n]) == peers[..n + 1]
  {
    hide UniqueKeys;
    var i := IndexOf(peers[..n], peers[n].key);
    if i < n {
      UniqueAt(peers, i, n);
    }
  }

  lemma {:induction false} EnteredAll(peers: seq<Record>, b: bytes, n: nat)
    requires UniqueKeys(peers) && n <= |peers|
    requires |b| == STORE_HDR_LEN + RECORD_LEN * |peers| && b[STORE_HDR_LEN..] == EncodeRecords(peers)
    ensures Entered(b, n) == peers[..n]
  {
    hide EncodeRecords, EncodeRecord, DecodeRecord, Upsert, UniqueKeys;
    if n == 0 {
    } else {
      EnteredAll(peers, b, n - 1);
      var base := STORE_HDR_LEN + (n - 1) * RECORD_LEN;
      SliceOfSlice(b, STORE_HDR_LEN, |b|, RECORD_LEN * (n - 1), RECORD_LEN * (n - 1) + RECORD_LEN);
      assert b[STORE_HDR_LEN..|b|] == b[STORE_HDR_LEN..];
      RecordAt(peers, n - 1);
      assert b[base..base + RECORD_LEN] == EncodeRecord(peers[n - 1]);
      RecordRoundTrip(peers[n - 1]);
      AppendsNew(peers, n - 1);
    }
  }

  lemma {:induction false} EnteredIsUnique(b: bytes, n: nat)
    requires STORE_HDR_LEN + n * RECORD_LEN <= |b|
    ensures UniqueKeys(Entered(b, n))
  {
    hide Upsert, DecodeRecord;
    if n == 0 {
    } else {
      EnteredIsUnique(b, n - 1);
      var base := STORE_HDR_LEN + (n - 1) * RECORD_LEN;
      UpsertKeys(Entered(b, n - 1), DecodeRecord(b[base..base + RECORD_LEN]));
    }
  }

  lemma {:induction false} HeaderReads(peers: seq<Record>)
    ensures var b := EncodeStore(peers);
      && |b| == STORE_HDR_LEN + RECORD_LEN * |peers|
      && b[..4] == MAGIC && b[4..8] == STORE_TAG && b[8] == VERSION
      && b[STORE_HDR_LEN..] == EncodeRecords(peers)
      && FromLe(b[9..13]) == if |peers| <= MAX_COUNT then |peers| else MAX_COUNT
  {
    hide ToLe, FromLe, EncodeRecords;
    PowValues();
    var count := if |peers| <= MAX_COUNT then |peers| else MAX_COUNT;
    assert EncodeStore(peers)[9..13] == ToLe(count, 4);
    FromToLe(count, 4);
  }

  /** Reading back a written file gives the same table in the same order exactly when no key
      repeats and the number of records fits the 32-bit count. */
  lemma {:induction false} FileRoundTrip(peers: seq<Record>)
    ensures DecodeStore(EncodeStore(peers)) == Ok(peers) <==> UniqueKeys(peers) && |peers| <= MAX_COUNT
  {
    hide EncodeStore, FromLe, UniqueKeys;
    var b := EncodeStore(peers);
    HeaderReads(peers);
    if |peers| <= MAX_COUNT {
      EnteredIsUnique(b, |peers|);
      if UniqueKeys(peers) {
        EnteredAll(peers, b, |peers|);
        assert peers[..|peers|] == peers;
      }
    }
  }
}
