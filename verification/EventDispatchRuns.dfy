/** What every interleaving of producers, dispatcher and shutdown guarantees. */
module EventDispatchRuns {
  import opened Base
  import opened EventDispatch

  /** Every state of every run satisfies the invariant for some lock holders. */
  lemma {:induction false} RunsKeepInv(ss: seq<State>, steps: seq<Step>, i: nat) returns (w: Witness)
    requires IsRun(ss, steps) && i < |ss|
    ensures Inv(ss[i], w)
  {
    if i == 0 {
      w := Witness(None, None);
    } else {
      var v := RunsKeepInv(ss, steps, i - 1);
      assert Linked(ss, steps, i - 1);
      StepKeepsInv(ss[i - 1], v, steps[i - 1]);
      w := NextWitness(ss[i - 1], v, steps[i - 1]);
    }
  }

  // ---------------------------------------------------------------- theorems

  /** Delivered, in flight and queued events, in that order, are exactly the committed sequence, numbered from one. */
  lemma NothingLostOrReordered(ss: seq<State>, steps: seq<Step>, i: nat)
    requires IsRun(ss, steps) && i < |ss|
    ensures ss[i].mem.committed == ss[i].mem.delivered + InFlight(ss[i].disp) + ss[i].mem.queue
    ensures forall k :: 0 <= k < |ss[i].mem.committed| ==> ss[i].mem.committed[k].seqNo == k + 1
  {
    var w := RunsKeepInv(ss, steps, i);
  }

  /** Outside eventMu the pending counter is the queued events plus the one being delivered. */
  lemma PendingCountsUndelivered(ss: seq<State>, steps: seq<Step>, i: nat)
    requires IsRun(ss, steps) && i < |ss| && !ss[i].mem.muLocked
    ensures ss[i].mem.pending == |ss[i].mem.queue| + (if Uncounted(ss[i].disp) then 1 else 0)
    ensures ss[i].mem.lastSeq == |ss[i].mem.committed|
  {
    var w := RunsKeepInv(ss, steps, i);
  }

  /** A parked dispatcher with an event or the seal to see has a token waiting, or somebody about to post one. */
  lemma NoLostWakeup(ss: seq<State>, steps: seq<Step>, i: nat)
    requires IsRun(ss, steps) && i < |ss|
    requires ss[i].disp.DPark? && (ss[i].mem.queue != [] || ss[i].mem.sealed)
    ensures ss[i].mem.wake || exists p :: AboutToWake(ss[i], p)
  {
    var w := RunsKeepInv(ss, steps, i);
  }

  /** One step after the seal keeps the seal and commits nothing. */
  lemma SealedStep(s: State, st: Step)
    requires FenceInv(s) && Enabled(s, st) && s.mem.sealed
    ensures Do(s, st).mem.sealed && Do(s, st).mem.committed == s.mem.committed
  {
    if st.MoveProducer? {
      assert !Admitted(s.producers[st.p]);
    }
  }

  lemma RunsKeepFence(ss: seq<State>, steps: seq<Step>, i: nat)
    requires IsRun(ss, steps) && i < |ss|
    ensures FenceInv(ss[i])
  {
    var w := RunsKeepInv(ss, steps, i);
  }

  /** No event is committed once admission is sealed. */
  lemma {:induction false} NothingAfterSeal(ss: seq<State>, steps: seq<Step>, i: nat, j: nat)
    requires IsRun(ss, steps) && i <= j < |ss| && ss[i].mem.sealed
    ensures ss[j].mem.sealed && ss[j].mem.committed == ss[i].mem.committed
  {
    if i < j {
      NothingAfterSeal(ss, steps, i, j - 1);
      RunsKeepFence(ss, steps, j - 1);
      assert Linked(ss, steps, j - 1);
      SealedStep(ss[j - 1], steps[j - 1]);
    }
  }

  /** The dispatcher exits only when everything ever committed, then or later, has been delivered. */
  lemma {:induction false} ExitMeansAllDelivered(ss: seq<State>, steps: seq<Step>, i: nat, j: nat)
    requires IsRun(ss, steps) && i <= j < |ss| && ss[i].disp.DExited?
    ensures ss[j].mem.delivered == ss[i].mem.committed == ss[j].mem.committed && ss[j].mem.pending == 0
  {
    var w := RunsKeepInv(ss, steps, i);
    NothingAfterSeal(ss, steps, i, j);
    StaysExited(ss, steps, i, j);
    var v := RunsKeepInv(ss, steps, j);
    NoMuProducerAfterSeal(ss[j], v);
  }

  lemma NoMuProducerAfterSeal(s: State, w: Witness)
    requires Inv(s, w) && s.mem.sealed
    ensures MuProducer(s, w).Some? ==> !MuProducer(s, w).value.PCount?
  {
  }

  lemma {:induction false} StaysExited(ss: seq<State>, steps: seq<Step>, i: nat, j: nat)
    requires IsRun(ss, steps) && i <= j < |ss| && ss[i].disp.DExited?
    ensures ss[j].disp.DExited?
  {
    if i < j {
      StaysExited(ss, steps, i, j - 1);
      assert Linked(ss, steps, j - 1);
    }
  }

  /** A finishShutdown that returned leaves a delivered log that never changes again. */
  lemma ShutdownDrains(ss: seq<State>, steps: seq<Step>, i: nat, j: nat, z: Id)
    requires IsRun(ss, steps) && i <= j < |ss| && z in ss[i].sealers && ss[i].sealers[z].SDone?
    ensures ss[j].mem.delivered == ss[i].mem.committed == ss[j].mem.committed
  {
    var w := RunsKeepInv(ss, steps, i);
    ExitMeansAllDelivered(ss, steps, i, j);
  }

  /** A receipt is closed at most once, and only after its event's callback returned. */
  lemma ReceiptsCloseOnce(ss: seq<State>, steps: seq<Step>, i: nat)
    requires IsRun(ss, steps) && i < |ss|
    ensures NoDup(ss[i].mem.closed)
    ensures forall r :: r in ss[i].mem.closed ==>
                          exists k :: 0 <= k < |ss[i].mem.delivered| && ss[i].mem.delivered[k].receipt == Some(r)
  {
    var w := RunsKeepInv(ss, steps, i);
    var m := ss[i].mem;
    ReceiptsPrefix(m.committed, |m.delivered|);
    assert m.committed[..|m.delivered|] == m.delivered;
    assert m.closed <= Receipts(m.delivered) <= Receipts(m.committed);
    forall r | r in m.closed
      ensures exists k :: 0 <= k < |m.delivered| && m.delivered[k].receipt == Some(r)
    {
      var k := ReceiptSource(m.delivered, r);
    }
  }

  lemma {:induction false} ReceiptsPrefix(es: seq<Event>, n: nat)
    requires n <= |es|
    ensures Receipts(es[..n]) <= Receipts(es)
  {
    if n == |es| {
      assert es[..n] == es;
    } else {
      assert es[..|es| - 1][..n] == es[..n];
      ReceiptsPrefix(es[..|es| - 1], n);
    }
  }

  lemma {:induction false} ReceiptSource(es: seq<Event>, r: Id) returns (k: nat)
    requires r in Receipts(es)
    ensures k < |es| && es[k].receipt == Some(r)
  {
    var n := |es| - 1;
    if es[n].receipt == Some(r) {
      k := n;
    } else {
      k := ReceiptSource(es[..n], r);
    }
  }
}
