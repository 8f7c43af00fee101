/** The driver's lists and the walks over them, each under the frame lock. */
module DriverLists {
  import opened Bytes
  import opened Counting
  import opened Driver
  import opened Wrappers

  /** The waiters that match, and those that do not, in list order. */
  function Chosen(pending: seq<Waiter>, m: Match): seq<Waiter> {
    if pending == [] then []
    else (if Matches(pending[0], m) then [pending[0]] else []) + Chosen(pending[1..], m)
  }

  function Spared(pending: seq<Waiter>, m: Match): seq<Waiter> {
    if pending == [] then []
    else (if Matches(pending[0], m) then [] else [pending[0]]) + Spared(pending[1..], m)
  }

  class Globals {
    var freeRxNodes: seq<nat>
    var frameQueue: seq<nat>
    var freeTxNodes: seq<nat>
    var pendingReads: seq<Waiter>
    /** What the receive nodes hold. */
    const rxBlock: array<Frame>

    predicate Valid()
      reads this, rxBlock
    {
      rxBlock.Length == RX_NODES && forall i :: 0 <= i < |frameQueue| ==> frameQueue[i] < RX_NODES
    }

    /** What is queued, in order. */
    function Queued(): seq<Frame>
      requires Valid()
      reads this, rxBlock
    {
      Frames(frameQueue, rxBlock[..])
    }

    constructor ()
      ensures Valid() && fresh(rxBlock) && frameQueue == [] && pendingReads == []
      ensures freeRxNodes == Upto(RX_NODES) && freeTxNodes == Upto(TX_NODES)
    {
      frameQueue, pendingReads := [], [];
      rxBlock := new Frame[RX_NODES](_ => Frame(0, []));
      freeRxNodes, freeTxNodes := [], [];
      new;
      var i := 0;
      while i < RX_NODES
        invariant 0 <= i <= RX_NODES && freeRxNodes == Upto(i) && frameQueue == [] && pendingReads == []
        invariant freeTxNodes == []
      {
        freeRxNodes := freeRxNodes + [i];
        i := i + 1;
      }
      i := 0;
      assert freeTxNodes == Upto(0);
      while i < TX_NODES
        invariant 0 <= i <= TX_NODES && freeTxNodes == Upto(i) && frameQueue == [] && pendingReads == []
        invariant freeRxNodes == Upto(RX_NODES)
      {
        freeTxNodes := freeTxNodes + [i];
        i := i + 1;
      }
    }

    /** Walk the queue for the first frame that a READ for `ifIndex` accepts and unlink its node. */
    method FrameDequeueLocked(ifIndex: u32) returns (node: Option<nat>)
      requires Valid()
      modifies this`frameQueue
      ensures Valid()
      ensures match FirstWanted(old(Queued()), ifIndex, 0)
              case Some(k) => node == Some(old(frameQueue)[k]) && frameQueue == Without(old(frameQueue), k)
              case None => node == Option.None && frameQueue == old(frameQueue)
    {
      var k := 0;
      while k < |frameQueue|
        invariant 0 <= k <= |frameQueue| && frameQueue == old(frameQueue)
        invariant FirstWanted(Queued(), ifIndex, k) == FirstWanted(Queued(), ifIndex, 0)
      {
        var n := frameQueue[k];
        if ifIndex == IFINDEX_ANY || rxBlock[n].ifIndex == ifIndex {
          frameQueue := Without(frameQueue, k);
          return Some(n);
        }
        k := k + 1;
      }
      node := Option.None;
    }

    /** The first waiter after position `from` that matches. */
    method CsqPeekNextIrp(from: nat, m: Match) returns (k: Option<nat>)
      ensures k == FirstWaiter(pendingReads, m, from)
    {
      var i := from;
      while i < |pendingReads|
        invariant FirstWaiter(pendingReads, m, i) == FirstWaiter(pendingReads, m, from)
      {
        if Matches(pendingReads[i], m) { return Some(i); }
        i := i + 1;
      }
      k := Option.None;
    }

    method CsqInsertIrp(w: Waiter)
      modifies this`pendingReads
      ensures pendingReads == old(pendingReads) + [w]
    {
      pendingReads := pendingReads + [w];
    }

    /** Peek and unlink in one critical section; whoever gets the waiter owns it. */
    method CsqRemoveNextIrp(m: Match) returns (w: Option<Waiter>)
      modifies this`pendingReads
      ensures match FirstWaiter(old(pendingReads), m, 0)
              case Some(k) => w == Some(old(pendingReads)[k]) && pendingReads == Without(old(pendingReads), k)
              case None => w == Option.None && pendingReads == old(pendingReads)
    {
      var k := CsqPeekNextIrp(0, m);
      if k == Option.None { return Option.None; }
      w := Some(pendingReads[k.value]);
      pendingReads := Without(pendingReads, k.value);
    }

    /** The loop of a cleanup or an unload: take matching waiters until there is none. Undisturbed, it takes all of
        them, in the order in which they waited, and leaves the others as they were. */
    method TakeAll(m: Match) returns (taken: seq<Waiter>)
      modifies this`pendingReads
      ensures taken == Chosen(old(pendingReads), m) && pendingReads == Spared(old(pendingReads), m)
    {
      taken := [];
      assert Chosen(pendingReads, m) == [] + Chosen(pendingReads, m);
      while true
        invariant taken + Chosen(pendingReads, m) == Chosen(old(pendingReads), m)
        invariant Spared(pendingReads, m) == Spared(old(pendingReads), m)
        decreases |pendingReads|
      {
        ghost var before := pendingReads;
        var w := CsqRemoveNextIrp(m);
        match w {
          case None =>
            NothingChosen(before, m);
            assert taken + [] == taken;
            return;
          case Some(x) =>
            TakeOne(before, m, FirstWaiter(before, m, 0).value);
            assert taken + ([x] + Chosen(pendingReads, m)) == taken + [x] + Chosen(pendingReads, m);
            taken := taken + [x];
        }
      }
    }
  }

  lemma {:induction false} NothingChosen(pending: seq<Waiter>, m: Match)
    requires forall j :: 0 <= j < |pending| ==> !Matches(pending[j], m)
    ensures Chosen(pending, m) == [] && Spared(pending, m) == pending
  {
    if pending == [] {
    } else {
      NothingChosen(pending[1..], m);
      assert pending == [pending[0]] + pending[1..];
    }
  }

  /** Taking the first match moves it to the front of the chosen and spares the same waiters. */
  lemma {:induction false} TakeOne(pending: seq<Waiter>, m: Match, k: nat)
    requires k < |pending| && Matches(pending[k], m) && forall j :: 0 <= j < k ==> !Matches(pending[j], m)
    ensures Chosen(pending, m) == [pending[k]] + Chosen(Without(pending, k), m)
    ensures Spared(pending, m) == Spared(Without(pending, k), m)
  {
    if k == 0 {
      assert Without(pending, 0) == pending[1..];
    } else {
      TakeOne(pending[1..], m, k - 1);
      assert Without(pending, k)[1..] == Without(pending[1..], k - 1);
    }
  }
}
