/** What every interleaving of the lock handoff guarantees. */
module LockHandoffRuns {
  import opened Base
  import opened LockHandoff

  /** Every state of every run satisfies the invariant for some parties. */
  lemma {:induction false} RunsKeepInv(ss: seq<State>, steps: seq<Step>, i: nat) returns (w: Witness)
    requires IsRun(ss, steps) && i < |ss|
    ensures Inv(ss[i], w)
  {
    if i == 0 {
      w := Witness(None, None, None);
    } else {
      var v := RunsKeepInv(ss, steps, i - 1);
      assert Linked(ss, steps, i - 1);
      StepKeepsInv(ss[i - 1], v, steps[i - 1]);
      w := NextWitness(ss[i - 1], v, steps[i - 1]);
    }
  }

  // ---------------------------------------------------------------- theorems

  /**
   The write lock has exactly one accountable party while it is held and none
   while it is free; in particular a call that returned nil owns it, alone.
   */
  lemma ExactlyOneOwner(ss: seq<State>, steps: seq<Step>, i: nat)
    requires IsRun(ss, steps) && i < |ss|
    ensures ss[i].mem.locked <==> exists p :: Accountable(ss[i], p)
    ensures forall p, q :: Accountable(ss[i], p) && Accountable(ss[i], q) ==> p == q
    ensures ss[i].mem.locked ==> ss[i].mem.readers == 0
  {
    var w := RunsKeepInv(ss, steps, i);
    if ss[i].mem.locked {
      assert Accountable(ss[i], w.owner.value);
    }
  }

  /** A call that returned nil holds the lock until it unlocks; one that returned an error holds nothing at all. */
  lemma OutcomeDecidesOwnership(ss: seq<State>, steps: seq<Step>, i: nat, c: CallId)
    requires IsRun(ss, steps) && i < |ss| && c in ss[i].calls
    ensures ss[i].calls[c].ReturnedNil? ==> ss[i].mem.locked && forall p :: Accountable(ss[i], p) ==> p == ByCall(c)
    ensures ss[i].calls[c].ReturnedErr? ==>
              !Accountable(ss[i], ByCall(c)) && !Accountable(ss[i], ByToken(c)) && c !in ss[i].mem.waiters
  {
    var w := RunsKeepInv(ss, steps, i);
    assert Accountable(ss[i], ByCall(c)) <==> w.owner == Some(ByCall(c));
    assert CallStanding(ss[i], w, c, ss[i].calls[c]);
  }

  // ---------------------------------------------------------------- what an ended context leads to

  /** The call stopped waiting because its context ended, and is on its way to the error, or there. */
  predicate GivingUp(pc: CallPc) {
    || pc.DeregLock? || pc.Search? || pc.GiveUpUnlock? || pc.TakeUnlock? || pc.Take? || pc.ReleaseTaken?
    || pc.ReturnedErr?
  }

  lemma {:induction false} StaysGivingUp(ss: seq<State>, steps: seq<Step>, i: nat, j: nat, c: CallId)
    requires IsRun(ss, steps) && i <= j < |ss| && c in ss[i].calls && GivingUp(ss[i].calls[c])
    ensures c in ss[j].calls && GivingUp(ss[j].calls[c])
  {
    if i < j {
      StaysGivingUp(ss, steps, i, j - 1, c);
      assert Linked(ss, steps, j - 1);
    }
  }

  /** The step is the context of the waiting call c ending. */
  predicate ContextEnds(s: State, st: Step, c: CallId) {
    st.MoveCall? && st.c == c && c in s.calls && s.calls[c].Select? && st.alt != 0
  }

  /**
   A waiting call whose context ends never returns nil, even when the lock was
   handed to it at that very moment: once it has returned, it returned the error
   and neither it nor a token of its own holds the lock.
   */
  lemma EndedContextIsAnError(ss: seq<State>, steps: seq<Step>, i: nat, j: nat, c: CallId)
    requires IsRun(ss, steps) && i < j < |ss| && ContextEnds(ss[i], steps[i], c)
    ensures c in ss[j].calls && !ss[j].calls[c].ReturnedNil? && !ss[j].calls[c].Released?
    ensures ss[j].calls[c].ReturnedErr? ==> !Accountable(ss[j], ByCall(c)) && !Accountable(ss[j], ByToken(c))
  {
    assert Linked(ss, steps, i);
    StaysGivingUp(ss, steps, i + 1, j, c);
    OutcomeDecidesOwnership(ss, steps, j, c);
  }

  /** A call that returned nil was never interrupted: its context did not end while it waited. */
  lemma NilMeansNotEnded(ss: seq<State>, steps: seq<Step>, i: nat, j: nat, c: CallId)
    requires IsRun(ss, steps) && i < j < |ss| && c in ss[j].calls
    requires ss[j].calls[c].ReturnedNil? || ss[j].calls[c].Released?
    ensures !ContextEnds(ss[i], steps[i], c)
  {
    if ContextEnds(ss[i], steps[i], c) {
      EndedContextIsAnError(ss, steps, i, j, c);
    }
  }

  /** The step is the call c finding at its start that its context has ended. */
  predicate StartsEnded(s: State, st: Step, c: CallId) {
    st.MoveCall? && st.c == c && c in s.calls && s.calls[c].Entry? && st.alt == 1
  }

  /** The step is the call c finding at its start that its context can never end. */
  predicate StartsUnbounded(s: State, st: Step, c: CallId) {
    st.MoveCall? && st.c == c && c in s.calls && s.calls[c].Entry? && st.alt == 0
  }

  /** Only an ended context makes a call give up: with an error in hand there was a moment at which it ended. */
  lemma {:induction false} ErrorMeansEnded(ss: seq<State>, steps: seq<Step>, j: nat, c: CallId) returns (i: nat)
    requires IsRun(ss, steps) && j < |ss| && c in ss[j].calls && GivingUp(ss[j].calls[c])
    ensures i < j && (ContextEnds(ss[i], steps[i], c) || StartsEnded(ss[i], steps[i], c))
  {
    assert Linked(ss, steps, j - 1);
    i := j - 1;
    if c in ss[i].calls && GivingUp(ss[i].calls[c]) {
      i := ErrorMeansEnded(ss, steps, i, c);
    }
  }

  /** A call whose context had ended before it began returns the error at once, and touches nothing. */
  lemma EndedBeforeStart(ss: seq<State>, steps: seq<Step>, i: nat, j: nat, c: CallId)
    requires IsRun(ss, steps) && i < j < |ss| && StartsEnded(ss[i], steps[i], c)
    ensures ss[i + 1].mem == ss[i].mem && ss[i + 1].helpers == ss[i].helpers
    ensures c in ss[j].calls && ss[j].calls[c].ReturnedErr?
    decreases j
  {
    assert Linked(ss, steps, i) && Linked(ss, steps, j - 1);
    if i + 1 < j {
      EndedBeforeStart(ss, steps, i, j - 1, c);
    }
  }

  /** A call whose context never ends waits for the lock itself: it never queues and never returns an error. */
  lemma {:induction false} UnboundedNeverErrs(ss: seq<State>, steps: seq<Step>, i: nat, j: nat, c: CallId)
    requires IsRun(ss, steps) && i < j < |ss| && StartsUnbounded(ss[i], steps[i], c)
    ensures c in ss[j].calls
    ensures ss[j].calls[c].BlockingLock? || ss[j].calls[c].ReturnedNil? || ss[j].calls[c].Released?
  {
    assert Linked(ss, steps, j - 1);
    if i + 1 < j {
      UnboundedNeverErrs(ss, steps, i, j - 1, c);
    }
  }

  /** One step takes nobody out of the books: whoever queued is still queued or logged, and the log only grows. */
  lemma StepKeepsBooks(s: State, st: Step, c: CallId)
    requires Enabled(s, st)
    ensures s.mem.departed <= Do(s, st).mem.departed
    ensures c in s.mem.waiters || c in s.mem.departed ==> c in Do(s, st).mem.waiters || c in Do(s, st).mem.departed
  {
    if st.MoveHelper? && s.helpers[st.h].HPop? {
      var q := s.mem.waiters;
      assert q == [q[0]] + q[1..];
    }
  }

  /** Over a run the log of departures only grows, and whoever queued is queued or logged for ever after. */
  lemma {:induction false} BooksOnlyGrow(ss: seq<State>, steps: seq<Step>, i: nat, j: nat, c: CallId)
    requires IsRun(ss, steps) && i <= j < |ss|
    ensures ss[i].mem.departed <= ss[j].mem.departed
    ensures c in ss[i].mem.waiters || c in ss[i].mem.departed ==> c in ss[j].mem.waiters || c in ss[j].mem.departed
  {
    if i < j {
      BooksOnlyGrow(ss, steps, i, j - 1, c);
      assert Linked(ss, steps, j - 1);
      StepKeepsBooks(ss[j - 1], steps[j - 1], c);
    }
  }

  /** The standing of one call with the queue and the log. */
  lemma StandingInRun(ss: seq<State>, steps: seq<Step>, i: nat, c: CallId)
    requires IsRun(ss, steps) && i < |ss|
    ensures NoDup(ss[i].mem.departed) && NoDup(ss[i].mem.waiters)
    ensures c in ss[i].mem.waiters ==> c in ss[i].calls && Enrolled(ss[i].calls[c]) && c !in ss[i].mem.departed
    ensures c in ss[i].calls && Enrolled(ss[i].calls[c]) ==> c in ss[i].mem.waiters || c in ss[i].mem.departed
    ensures c in ss[i].calls && BeforeQueue(ss[i].calls[c]) ==> c !in ss[i].mem.waiters && c !in ss[i].mem.departed
  {
    var w := RunsKeepInv(ss, steps, i);
    if c in ss[i].calls {
      assert CallStanding(ss[i], w, c, ss[i].calls[c]);
    }
  }

  /**
   Each waiter leaves the queue exactly once, by handoff or by deregistering.
   Before it queues a call is in neither list; a call that queued at i is, at
   any later j, in exactly one of the two lists, once; and once its outcome is
   decided it has departed. The log keeps its order.
   */
  lemma LeavesQueueOnce(ss: seq<State>, steps: seq<Step>, i: nat, j: nat, c: CallId)
    requires IsRun(ss, steps) && i <= j < |ss| && c in ss[i].calls && Enrolled(ss[i].calls[c])
    ensures NoDup(ss[j].mem.departed) && NoDup(ss[j].mem.waiters)
    ensures c in ss[j].mem.waiters <==> c !in ss[j].mem.departed
    ensures c in ss[j].calls && !Enrolled(ss[j].calls[c]) ==> c in ss[j].mem.departed
    ensures ss[i].mem.departed <= ss[j].mem.departed
  {
    StandingInRun(ss, steps, i, c);
    StandingInRun(ss, steps, j, c);
    BooksOnlyGrow(ss, steps, i, j, c);
  }

  /** c stands before d in the queue. */
  ghost predicate Ahead(q: seq<CallId>, c: CallId, d: CallId) {
    exists a, b :: 0 <= a < b < |q| && q[a] == c && q[b] == d
  }

  lemma {:induction false} WithoutKeepsOrder(q: seq<CallId>, x: CallId, c: CallId, d: CallId)
    requires Ahead(q, c, d) && x != c && x != d
    ensures Ahead(Without(q, x), c, d)
  {
    var a, b :| 0 <= a < b < |q| && q[a] == c && q[b] == d;
    var rest := Without(q[1..], x);
    if a == 0 {
      assert d == q[1..][b - 1];
      assert d in rest;
      var k :| 0 <= k < |rest| && rest[k] == d;
      assert Without(q, x)[0] == c && Without(q, x)[k + 1] == d;
    } else {
      assert q[1..][a - 1] == c && q[1..][b - 1] == d;
      WithoutKeepsOrder(q[1..], x, c, d);
      var k, l :| 0 <= k < l < |rest| && rest[k] == c && rest[l] == d;
      var r := Without(q, x);
      var off := if q[0] == x then 0 else 1;
      assert r[k + off] == c && r[l + off] == d;
    }
  }

  lemma AppendKeepsOrder(q: seq<CallId>, x: CallId, c: CallId, d: CallId)
    requires Ahead(q, c, d)
    ensures Ahead(q + [x], c, d)
  {
    var a, b :| 0 <= a < b < |q| && q[a] == c && q[b] == d;
    assert (q + [x])[a] == c && (q + [x])[b] == d;
  }

  lemma TailKeepsOrder(q: seq<CallId>, c: CallId, d: CallId)
    requires Ahead(q, c, d) && q[0] != c
    ensures Ahead(q[1..], c, d)
  {
    var a, b :| 0 <= a < b < |q| && q[a] == c && q[b] == d;
    assert q[1..][a - 1] == c && q[1..][b - 1] == d;
  }

  /** One step keeps the order of two waiters until one of them departs. */
  lemma StepKeepsOrder(s: State, st: Step, c: CallId, d: CallId)
    requires Enabled(s, st) && NoDup(s.mem.waiters) && Ahead(s.mem.waiters, c, d)
    ensures Ahead(Do(s, st).mem.waiters, c, d) || c in Do(s, st).mem.departed || d in Do(s, st).mem.departed
  {
    var q := s.mem.waiters;
    if st.MoveCall? && s.calls[st.c].Search? && st.c in q && st.c != c && st.c != d {
      WithoutKeepsOrder(q, st.c, c, d);
    } else if st.MoveCall? && s.calls[st.c].Append? {
      AppendKeepsOrder(q, st.c, c, d);
    } else if st.MoveHelper? && s.helpers[st.h].HPop? && q[0] != c {
      TailKeepsOrder(q, c, d);
    }
  }

  lemma OrderKeptByStep(ss: seq<State>, steps: seq<Step>, k: nat, c: CallId, d: CallId)
    requires IsRun(ss, steps) && k < |steps|
    requires Ahead(ss[k].mem.waiters, c, d) || c in ss[k].mem.departed || d in ss[k].mem.departed
    ensures Ahead(ss[k + 1].mem.waiters, c, d) || c in ss[k + 1].mem.departed || d in ss[k + 1].mem.departed
  {
    assert Linked(ss, steps, k);
    if Ahead(ss[k].mem.waiters, c, d) {
      StandingInRun(ss, steps, k, c);
      StepKeepsOrder(ss[k], steps[k], c, d);
    } else {
      StepKeepsBooks(ss[k], steps[k], c);
    }
  }

  lemma {:induction false} OrderKept(ss: seq<State>, steps: seq<Step>, i: nat, j: nat, c: CallId, d: CallId)
    requires IsRun(ss, steps) && i <= j < |ss| && Ahead(ss[i].mem.waiters, c, d)
    ensures Ahead(ss[j].mem.waiters, c, d) || c in ss[j].mem.departed || d in ss[j].mem.departed
  {
    if i < j {
      OrderKept(ss, steps, i, j - 1, c, d);
      OrderKeptByStep(ss, steps, j - 1, c, d);
    }
  }

  /** The step hands the lock to d. */
  predicate HandsOver(s: State, st: Step, d: CallId) {
    st.MoveHelper? && st.h in s.helpers && s.helpers[st.h].HPop? && s.mem.waiters != [] && s.mem.waiters[0] == d
  }

  /** Handoff is first in, first out: when d is handed the lock, whoever ever stood before it has already departed. */
  lemma HandoffIsFifo(ss: seq<State>, steps: seq<Step>, i: nat, j: nat, c: CallId, d: CallId)
    requires IsRun(ss, steps) && i <= j < |steps| && Ahead(ss[i].mem.waiters, c, d) && HandsOver(ss[j], steps[j], d)
    ensures c in ss[j].mem.departed
  {
    OrderKept(ss, steps, i, j, c, d);
    StandingInRun(ss, steps, j, d);
    assert d in ss[j].mem.waiters;
  }

  /**
   At most one helper that will look at the queue again is live or about to start, and `parked` says whether there is
   one; a non-empty waiter list always has one, or a call inside the queue section that is about to decide to start one.
   */
  lemma OneHelperServes(ss: seq<State>, steps: seq<Step>, i: nat)
    requires IsRun(ss, steps) && i < |ss|
    ensures forall p, q :: Serving(ss[i], p) && Serving(ss[i], q) ==> p == q
    ensures ss[i].mem.parked <==> exists p :: Serving(ss[i], p)
    ensures ss[i].mem.waiters != [] && !ss[i].mem.muLocked ==> exists p :: Serving(ss[i], p)
    ensures ss[i].mem.waiters != [] ==>
              || (exists p :: Serving(ss[i], p))
              || exists c :: c in ss[i].calls && (ss[i].calls[c].ReadParked? || ss[i].calls[c] == SetParked(true))
  {
    var w := RunsKeepInv(ss, steps, i);
    if ss[i].mem.parked {
      assert Serving(ss[i], w.server.value);
    }
  }

  /**
   The goroutines that are alive. Two of them can be alive at once, and then one
   is about to release the lock and exit while the other, its successor, waits
   for that lock; so at most one waits on nodeLock, and there are never three.
   */
  lemma AtMostOneWaits(ss: seq<State>, steps: seq<Step>, i: nat, g: HelperId, h: HelperId)
    requires IsRun(ss, steps) && i < |ss| && g in ss[i].helpers && h in ss[i].helpers && g != h
    requires !ss[i].helpers[g].HExited? && !ss[i].helpers[h].HExited?
    ensures (ss[i].helpers[g].HRelease? && ss[i].helpers[h].HLock?) ||
            (ss[i].helpers[g].HLock? && ss[i].helpers[h].HRelease?)
    ensures forall x :: x in ss[i].helpers && x != g && x != h ==> ss[i].helpers[x].HExited?
  {
    TwoAlive(ss, steps, i, g, h);
    forall x | x in ss[i].helpers && x != g && x != h
      ensures ss[i].helpers[x].HExited?
    {
      if !ss[i].helpers[x].HExited? {
        TwoAlive(ss, steps, i, g, x);
        TwoAlive(ss, steps, i, h, x);
      }
    }
  }

  lemma TwoAlive(ss: seq<State>, steps: seq<Step>, i: nat, g: HelperId, h: HelperId)
    requires IsRun(ss, steps) && i < |ss| && g in ss[i].helpers && h in ss[i].helpers && g != h
    requires !ss[i].helpers[g].HExited? && !ss[i].helpers[h].HExited?
    ensures (ss[i].helpers[g].HRelease? && ss[i].helpers[h].HLock?) ||
            (ss[i].helpers[g].HLock? && ss[i].helpers[h].HRelease?)
  {
    var w := RunsKeepInv(ss, steps, i);
    var s := ss[i];
    assert Serving(s, HelperProc(g)) <==> w.server == Some(HelperProc(g));
    assert Serving(s, HelperProc(h)) <==> w.server == Some(HelperProc(h));
    assert InQueueSection(s, HelperProc(g)) <==> w.holder == Some(HelperProc(g));
    assert InQueueSection(s, HelperProc(h)) <==> w.holder == Some(HelperProc(h));
    assert Accountable(s, ByHelper(g)) <==> w.owner == Some(ByHelper(g));
    assert Accountable(s, ByHelper(h)) <==> w.owner == Some(ByHelper(h));
  }

  /** The helper has handed the lock over with nobody left waiting, or is past that. */
  predicate WindingUp(s: State, h: HelperId) {
    && h in s.helpers
    && ((s.helpers[h].HRecheck? && s.mem.waiters == []) || s.helpers[h].HClearLast? || s.helpers[h].HQueueUnlockLast?
        || s.helpers[h].HExited?)
  }

  /** A helper that has served the last waiter exits: it never waits for the lock again. */
  lemma {:induction false} ExitsWhenDrained(ss: seq<State>, steps: seq<Step>, i: nat, j: nat, h: HelperId)
    requires IsRun(ss, steps) && i <= j < |ss| && WindingUp(ss[i], h)
    ensures WindingUp(ss[j], h)
  {
    if i < j {
      ExitsWhenDrained(ss, steps, i, j - 1, h);
      assert Linked(ss, steps, j - 1);
      var w := RunsKeepInv(ss, steps, j - 1);
      WindsUp(ss[j - 1], w, steps[j - 1], h);
    }
  }

  lemma WindsUp(s: State, w: Witness, st: Step, h: HelperId)
    requires Inv(s, w) && Enabled(s, st) && WindingUp(s, h)
    ensures WindingUp(Do(s, st), h)
  {
    if s.helpers[h].HRecheck? {
      assert InQueueSection(s, HelperProc(h));
      if st.MoveCall? {
        assert !InQueueSection(s, CallProc(st.c));
      }
    }
  }

  // ---------------------------------------------------------------- two helpers at once

  lemma Extend(ss: seq<State>, steps: seq<Step>, st: Step) returns (ss': seq<State>, steps': seq<Step>)
    requires IsRun(ss, steps) && Enabled(ss[|steps|], st)
    ensures IsRun(ss', steps') && ss'[|steps'|] == Do(ss[|steps|], st)
  {
    ss', steps' := ss + [Do(ss[|steps|], st)], steps + [st];
    forall i: nat | i < |steps'|
      ensures Linked(ss', steps', i)
    {
      assert i < |steps| ==> Linked(ss, steps, i);
    }
  }

  /** A call comes in, fails TryLock, and puts its channel in the queue. */
  lemma Enroll(ss: seq<State>, steps: seq<Step>, c: CallId) returns (ss': seq<State>, steps': seq<Step>)
    requires IsRun(ss, steps)
    requires var s := ss[|steps|]; c !in s.calls && !s.mem.muLocked
    ensures IsRun(ss', steps')
    ensures var s := ss[|steps|];
            ss'[|steps'|] == State(s.mem.(waiters := s.mem.waiters + [c], muLocked := true), s.calls[c := ReadParked],
                                   s.helpers)
  {
    ss', steps' := Extend(ss, steps, NewCall(c));
    ss', steps' := Extend(ss', steps', MoveCall(c, 2, 0));
    ss', steps' := Extend(ss', steps', MoveCall(c, 1, 0));
    ss', steps' := Extend(ss', steps', MoveCall(c, 0, 0));
    ss', steps' := Extend(ss', steps', MoveCall(c, 0, 0));
  }

  /** A call comes in, fails TryLock, queues up and starts a helper. */
  lemma QueueAndSpawn(ss: seq<State>, steps: seq<Step>, c: CallId, h: HelperId)
    returns (ss': seq<State>, steps': seq<Step>)
    requires IsRun(ss, steps)
    requires var s := ss[|steps|]; c !in s.calls && h !in s.helpers && !s.mem.parked && !s.mem.muLocked
    ensures IsRun(ss', steps')
    ensures var s := ss[|steps|];
            ss'[|steps'|] ==
            State(s.mem.(waiters := s.mem.waiters + [c], parked := true), s.calls[c := Select], s.helpers[h := HLock])
  {
    ss', steps' := Enroll(ss, steps, c);
    ss', steps' := Extend(ss', steps', MoveCall(c, 0, h));
    ss', steps' := Extend(ss', steps', MoveCall(c, 0, h));
    ss', steps' := Extend(ss', steps', MoveCall(c, 0, h));
    ss', steps' := Extend(ss', steps', MoveCall(c, 0, h));
  }

  /** A waiting call's context ends and it deregisters. */
  lemma GiveUp(ss: seq<State>, steps: seq<Step>, c: CallId) returns (ss': seq<State>, steps': seq<Step>)
    requires IsRun(ss, steps)
    requires var s := ss[|steps|]; c in s.calls && s.calls[c].Select? && s.mem.waiters == [c] && !s.mem.muLocked
    ensures IsRun(ss', steps')
    ensures var s := ss[|steps|];
            ss'[|steps'|] == State(s.mem.(waiters := [], departed := s.mem.departed + [c]), s.calls[c := ReturnedErr],
                                   s.helpers)
  {
    assert Without([c], c) == [];
    ss', steps' := Extend(ss, steps, MoveCall(c, 1, 0));
    ss', steps' := Extend(ss', steps', MoveCall(c, 0, 0));
    ss', steps' := Extend(ss', steps', MoveCall(c, 0, 0));
    ss', steps' := Extend(ss', steps', MoveCall(c, 0, 0));
  }

  /** A helper gets the lock, finds nobody waiting and is about to release it. */
  lemma FindNobody(ss: seq<State>, steps: seq<Step>, h: HelperId) returns (ss': seq<State>, steps': seq<Step>)
    requires IsRun(ss, steps)
    requires var s := ss[|steps|];
             h in s.helpers && s.helpers[h].HLock? && s.mem.waiters == [] && !s.mem.muLocked && LockFree(s.mem)
    ensures IsRun(ss', steps')
    ensures var s := ss[|steps|];
            ss'[|steps'|] == State(s.mem.(locked := true, parked := false), s.calls, s.helpers[h := HRelease])
  {
    ss', steps' := Extend(ss, steps, MoveHelper(h));
    ss', steps' := Extend(ss', steps', MoveHelper(h));
    ss', steps' := Extend(ss', steps', MoveHelper(h));
    ss', steps' := Extend(ss', steps', MoveHelper(h));
    ss', steps' := Extend(ss', steps', MoveHelper(h));
  }

  /** A run in which two helpers are alive: one still has to unlock, and its successor already waits for the lock. */
  lemma TwoHelpersMeet() returns (ss: seq<State>, steps: seq<Step>)
    ensures IsRun(ss, steps)
    ensures ss[|steps|].helpers == map[0 := HRelease, 1 := HLock]
  {
    ss, steps := [Init], [];
    ss, steps := Extend(ss, steps, NewCall(2));
    ss, steps := Extend(ss, steps, MoveCall(2, 0, 0));
    ss, steps := Extend(ss, steps, MoveCall(2, 0, 0));
    ss, steps := QueueAndSpawn(ss, steps, 0, 0);
    ss, steps := GiveUp(ss, steps, 0);
    ss, steps := Extend(ss, steps, MoveCall(2, 0, 0));
    ss, steps := FindNobody(ss, steps, 0);
    ss, steps := QueueAndSpawn(ss, steps, 1, 1);
  }

  /** The fast path is not fair: with the lock free, a call that comes in now can have it before those who queue. */
  lemma NewcomerCanBarge(ss: seq<State>, steps: seq<Step>, c: CallId) returns (ss': seq<State>, steps': seq<Step>)
    requires IsRun(ss, steps)
    requires var s := ss[|steps|]; c !in s.calls && LockFree(s.mem)
    ensures IsRun(ss', steps')
    ensures var s := ss[|steps|];
            ss'[|steps'|] == State(s.mem.(locked := true), s.calls[c := ReturnedNil], s.helpers)
  {
    ss', steps' := Extend(ss, steps, NewCall(c));
    ss', steps' := Extend(ss', steps', MoveCall(c, 2, 0));
    ss', steps' := Extend(ss', steps', MoveCall(c, 0, 0));
  }

  /**
   The helper never panics on an empty queue nor blocks on a full channel, and a handed-over call never waits for its
   token.
   */
  lemma HandoffNeverBlocks(ss: seq<State>, steps: seq<Step>, i: nat)
    requires IsRun(ss, steps) && i < |ss|
    ensures forall h :: h in ss[i].helpers && (ss[i].helpers[h].HPop? || ss[i].helpers[h].HSend?) ==>
                          Enabled(ss[i], MoveHelper(h))
    ensures forall c, alt, spawned :: c in ss[i].calls && ss[i].calls[c].Take? ==>
                          Enabled(ss[i], MoveCall(c, alt, spawned))
  {
    var w := RunsKeepInv(ss, steps, i);
    forall h | h in ss[i].helpers && (ss[i].helpers[h].HPop? || ss[i].helpers[h].HSend?)
      ensures Enabled(ss[i], MoveHelper(h))
    {
      assert InQueueSection(ss[i], HelperProc(h)) <==> w.holder == Some(HelperProc(h));
      if ss[i].helpers[h].HSend? {
        var c := ss[i].helpers[h].waiter;
        assert BeingSent(ss[i], w, c);
        assert CallStanding(ss[i], w, c, ss[i].calls[c]);
      }
    }
    forall c, alt: nat, spawned: HelperId | c in ss[i].calls && ss[i].calls[c].Take?
      ensures Enabled(ss[i], MoveCall(c, alt, spawned))
    {
      assert CallStanding(ss[i], w, c, ss[i].calls[c]);
    }
  }
}
