/**
 What goes into the event log: exactly the events the critical sections asked
 for, in commit order, each with the receipt its section meant for it; and every
 such receipt is closed.
 */
module EventDispatchLog {
  import opened Base
  import opened EventDispatch
  import opened EventDispatchRuns
  import opened EventDispatchServing

  /** The step is a section's append to the queue. */
  predicate Appends(s: State, st: Step) { st.MoveProducer? && st.p in s.producers && s.producers[st.p].PAppend? }

  /** The step is a section asking for one more event. */
  predicate Asks(s: State, st: Step) {
    st.MoveProducer? && st.p in s.producers && s.producers[st.p].PInside? && st.more
  }

  /** The appends among the first n steps of a run. */
  ghost function AppendSteps(ss: seq<State>, steps: seq<Step>, n: nat): (a: seq<nat>)
    requires n <= |steps| < |ss|
    ensures forall k :: 0 <= k < |a| ==> a[k] < n && Appends(ss[a[k]], steps[a[k]])
  {
    if n == 0 then []
    else AppendSteps(ss, steps, n - 1) + if Appends(ss[n - 1], steps[n - 1]) then [n - 1] else []
  }

  /** One of the first n steps is an append of section p with its receipt. */
  ghost predicate Attached(ss: seq<State>, steps: seq<Step>, n: nat, p: Id)
    requires n <= |steps| < |ss|
  {
    exists j: nat :: j < n && Appends(ss[j], steps[j]) && steps[j].p == p && steps[j].attach
  }

  /** The receipt meant for the event appended at step k: its section's, if it comes with this event first. */
  ghost function Meant(ss: seq<State>, steps: seq<Step>, k: nat): Option<Id>
    requires k < |steps| < |ss| && steps[k].MoveProducer?
  {
    if steps[k].attach && !Attached(ss, steps, k, steps[k].p) then Some(steps[k].p) else None
  }

  lemma AttachedNext(ss: seq<State>, steps: seq<Step>, n: nat, p: Id)
    requires n < |steps| < |ss|
    ensures Attached(ss, steps, n + 1, p) <==>
              Attached(ss, steps, n, p) || (Appends(ss[n], steps[n]) && steps[n].p == p && steps[n].attach)
  {
    if Attached(ss, steps, n, p) {
      var j: nat :| j < n && Appends(ss[j], steps[j]) && steps[j].p == p && steps[j].attach;
      assert j < n + 1;
    }
  }

  /** The flag `spent` says whether the section attached its receipt before. */
  ghost predicate SpentRight(ss: seq<State>, steps: seq<Step>, n: nat, p: Id)
    requires n <= |steps| < |ss|
  {
    var ps := ss[n].producers;
    && (p !in ps || ps[p].PLock? || ps[p].PCheck? ==> !Attached(ss, steps, n, p))
    && (p in ps && Admitted(ps[p]) ==> (ps[p].spent <==> Attached(ss, steps, n, p)))
  }

  lemma {:induction false} SpentIsRight(ss: seq<State>, steps: seq<Step>, n: nat, p: Id)
    requires IsRun(ss, steps) && n < |ss|
    ensures SpentRight(ss, steps, n, p)
  {
    if n > 0 {
      SpentIsRight(ss, steps, n - 1, p);
      assert Linked(ss, steps, n - 1);
      AttachedNext(ss, steps, n - 1, p);
    }
  }

  /** The event is what the append step k offered. */
  ghost predicate Matches(ss: seq<State>, steps: seq<Step>, k: nat, e: Event)
    requires k < |steps| < |ss|
  {
    Appends(ss[k], steps[k]) && e.payload == steps[k].payload && e.receipt == Meant(ss, steps, k)
  }

  lemma OnlyAppendsCommit(s: State, st: Step)
    requires Enabled(s, st)
    ensures Appends(s, st) ==>
              Do(s, st).mem.committed ==
                s.mem.committed + [Committed(s.mem, s.producers[st.p], st.p, st.payload, st.attach)]
    ensures !Appends(s, st) ==> Do(s, st).mem.committed == s.mem.committed
  {
    if st.MoveProducer? {
      ProducerCommits(s.mem, s.producers[st.p], st.p, st.payload, st.attach);
    } else if st.MoveSealer? {
      SealerCommitsNothing(s.mem, s.sealers[st.z]);
    } else if st.MoveDispatcher? {
      DispatcherCommitsNothing(s.mem, s.disp);
    }
  }

  lemma ProducerCommits(m: Memory, pc: ProducerPc, p: Id, payload: nat, attach: bool)
    ensures ProducerMemory(m, pc, p, payload, attach).committed ==
              if pc.PAppend? then m.committed + [Committed(m, pc, p, payload, attach)] else m.committed
  {
  }

  lemma SealerCommitsNothing(m: Memory, pc: SealerPc)
    ensures SealerMemory(m, pc).committed == m.committed
  {
  }

  lemma DispatcherCommitsNothing(m: Memory, pc: DispatcherPc)
    requires DispatcherReady(m, pc)
    ensures DispatcherMemory(m, pc).committed == m.committed
  {
  }

  lemma AppendMatches(ss: seq<State>, steps: seq<Step>, n: nat)
    requires IsRun(ss, steps) && n < |steps| && Appends(ss[n], steps[n])
    ensures var st := steps[n];
            Matches(ss, steps, n, Committed(ss[n].mem, ss[n].producers[st.p], st.p, st.payload, st.attach))
  {
    SpentIsRight(ss, steps, n, steps[n].p);
  }

  /**
   The committed events are, in order, those the sections appended: as many,
   each with the payload of its step, and with the section's receipt exactly when
   the step attaches it and no earlier one of that section did.
   */
  lemma {:induction false} CommittedAsAppended(ss: seq<State>, steps: seq<Step>, n: nat)
    requires IsRun(ss, steps) && n < |ss|
    ensures var a := AppendSteps(ss, steps, n);
            && |ss[n].mem.committed| == |a|
            && forall k :: 0 <= k < |a| ==> Matches(ss, steps, a[k], ss[n].mem.committed[k])
  {
    if n > 0 {
      CommittedAsAppended(ss, steps, n - 1);
      assert Linked(ss, steps, n - 1);
      OnlyAppendsCommit(ss[n - 1], steps[n - 1]);
      if Appends(ss[n - 1], steps[n - 1]) {
        AppendMatches(ss, steps, n - 1);
      }
    }
  }

  // ---------------------------------------------------------------- nothing asked for is dropped

  ghost function Asked(ss: seq<State>, steps: seq<Step>, n: nat, p: Id): nat
    requires n <= |steps| < |ss|
  {
    if n == 0 then 0
    else Asked(ss, steps, n - 1, p) + if Asks(ss[n - 1], steps[n - 1]) && steps[n - 1].p == p then 1 else 0
  }

  ghost function Appended(ss: seq<State>, steps: seq<Step>, n: nat, p: Id): nat
    requires n <= |steps| < |ss|
  {
    if n == 0 then 0
    else Appended(ss, steps, n - 1, p) + if Appends(ss[n - 1], steps[n - 1]) && steps[n - 1].p == p then 1 else 0
  }

  /** Between asking and appending. */
  predicate Appending(pc: ProducerPc) { pc.PMuLock? || pc.PNumber? || pc.PAppend? }

  lemma {:induction false} AskedIsAppended(ss: seq<State>, steps: seq<Step>, n: nat, p: Id)
    requires IsRun(ss, steps) && n < |ss|
    ensures Asked(ss, steps, n, p) ==
              Appended(ss, steps, n, p) + if p in ss[n].producers && Appending(ss[n].producers[p]) then 1 else 0
  {
    if n > 0 {
      AskedIsAppended(ss, steps, n - 1, p);
      assert Linked(ss, steps, n - 1);
    }
  }

  /** A section that is done has committed every event it asked for. */
  lemma SectionCommitsAll(ss: seq<State>, steps: seq<Step>, n: nat, p: Id)
    requires IsRun(ss, steps) && n < |ss| && p in ss[n].producers && ss[n].producers[p].PDone?
    ensures Asked(ss, steps, n, p) == Appended(ss, steps, n, p)
  {
    AskedIsAppended(ss, steps, n, p);
  }

  lemma {:induction false} ShutdownStays(ss: seq<State>, steps: seq<Step>, i: nat, j: nat)
    requires IsRun(ss, steps) && i <= j < |ss| && ss[i].mem.shutdown
    ensures ss[j].mem.shutdown
  {
    if i < j {
      ShutdownStays(ss, steps, i, j - 1);
      assert Linked(ss, steps, j - 1);
    }
  }

  /** The fence turns a section away only after shutdown. */
  lemma {:induction false} RefusedOnlyAfterShutdown(ss: seq<State>, steps: seq<Step>, n: nat, p: Id)
    requires IsRun(ss, steps) && n < |ss| && p in ss[n].producers
    requires ss[n].producers[p].PUnlock? || ss[n].producers[p].PDone?
    requires forall k :: 0 <= k <= n && p in ss[k].producers ==> !Admitted(ss[k].producers[p])
    ensures ss[n].mem.shutdown
  {
    if n > 0 {
      assert Linked(ss, steps, n - 1);
      if p in ss[n - 1].producers && (ss[n - 1].producers[p].PUnlock? || ss[n - 1].producers[p].PDone?) {
        RefusedOnlyAfterShutdown(ss, steps, n - 1, p);
        ShutdownStays(ss, steps, n - 1, n);
      }
    }
  }

  // ---------------------------------------------------------------- receipts

  lemma {:induction false} ReceiptOfEvent(es: seq<Event>, k: nat)
    requires k < |es| && es[k].receipt.Some?
    ensures es[k].receipt.value in Receipts(es)
  {
    if k < |es| - 1 {
      assert es[..|es| - 1][k] == es[k];
      ReceiptOfEvent(es[..|es| - 1], k);
    }
  }

  /** The receipts are closed in the order of delivery; of those delivered, at most the last is yet to be closed. */
  lemma DeliveredReceiptsAreClosed(ss: seq<State>, steps: seq<Step>, n: nat, k: nat)
    requires IsRun(ss, steps) && n < |ss| && k < |ss[n].mem.delivered| && ss[n].mem.delivered[k].receipt.Some?
    requires ss[n].disp.DClose? ==> k < |ss[n].mem.delivered| - 1
    ensures ss[n].mem.delivered[k].receipt.value in ss[n].mem.closed
  {
    var w := RunsKeepInv(ss, steps, n);
    var m := ss[n].mem;
    if ss[n].disp.DClose? {
      var before := m.delivered[..|m.delivered| - 1];
      assert before[k] == m.delivered[k];
      ReceiptOfEvent(before, k);
      ClosingIsLast(ss, steps, n);
      ClosedBefore(m, ss[n].disp);
    } else {
      assert m.closed + [] == m.closed;
      ReceiptOfEvent(m.delivered, k);
    }
  }

  /** The receipt about to be closed is that of the event delivered last. */
  lemma {:induction false} ClosingIsLast(ss: seq<State>, steps: seq<Step>, n: nat)
    requires IsRun(ss, steps) && n < |ss| && ss[n].disp.DClose?
    ensures var d := ss[n].mem.delivered; d != [] && d[|d| - 1] == ss[n].disp.ev
  {
    assert n > 0;
    assert Linked(ss, steps, n - 1);
    if ss[n - 1].disp.DClose? {
      ClosingIsLast(ss, steps, n - 1);
    }
  }

  lemma ClosedBefore(m: Memory, d: DispatcherPc)
    requires d.DClose? && ReceiptInv(m, d) && m.delivered != [] && m.delivered[|m.delivered| - 1] == d.ev
    ensures m.closed == Receipts(m.delivered[..|m.delivered| - 1])
  {
    var last, before := ReceiptOf(d.ev), Receipts(m.delivered[..|m.delivered| - 1]);
    assert m.closed + last == before + last;
    assert m.closed == (m.closed + last)[..|m.closed|] && before == (before + last)[..|before|];
  }

  /** When everything has come to rest, every receipt that was attached has been closed, so nobody waits for one. */
  lemma DrainedClosesReceipts(ss: seq<State>, steps: seq<Step>, n: nat, k: nat)
    requires IsRun(ss, steps) && n < |ss| && Drained(ss[n])
    requires k < |AppendSteps(ss, steps, n)| && Meant(ss, steps, AppendSteps(ss, steps, n)[k]).Some?
    ensures steps[AppendSteps(ss, steps, n)[k]].p in ss[n].mem.closed
  {
    CommittedAsAppended(ss, steps, n);
    DrainedIsDelivered(ss, steps, n);
    DrainedIsNotClosing(ss[n]);
    assert Matches(ss, steps, AppendSteps(ss, steps, n)[k], ss[n].mem.committed[k]);
    DeliveredReceiptsAreClosed(ss, steps, n, k);
  }

  lemma DrainedIsNotClosing(s: State)
    requires Drained(s)
    ensures !s.disp.DClose?
  {
    assert Enabled(s, MoveDispatcher) ==> Arrival(s, MoveDispatcher);
  }
}
