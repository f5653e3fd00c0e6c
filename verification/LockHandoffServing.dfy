/**
 Every waiter is served. Each step except an arrival uses up work that only
 arrivals add, and while a call is unresolved some step can be taken without
 any context ending; so without further arrivals every schedule comes to an end
 and leaves nobody waiting, the lock free and no helper behind.
 */
module LockHandoffServing {
  import opened Totals
  import opened LockHandoff
  import opened LockHandoffRuns

  // ---------------------------------------------------------------- work

  /** An upper bound on the steps one call, and the helper it may start, have left. */
  function CallWork(pc: CallPc): nat {
    match pc
    case Entry => 29
    case BlockingLock => 2
    case TryLock => 28
    case QueueLock => 27
    case Append => 26
    case ReadParked => 16
    case SetParked(_) => 15
    case QueueUnlock(_) => 14
    case Spawn => 13
    case Select => 6
    case DeregLock => 5
    case Search => 4
    case TakeUnlock => 3
    case Take => 2
    case GiveUpUnlock => 1
    case ReleaseTaken => 1
    case ReturnedNil => 1
    case Released => 0
    case ReturnedErr => 0
  }

  /** An upper bound on the steps a helper has left, but for the rounds it owes to queued waiters. */
  function HelperWork(pc: HelperPc): nat {
    match pc
    case HSend(_) => 9
    case HRecheck => 8
    case HQueueUnlockLoop => 7
    case HLock => 6
    case HQueueLock => 5
    case HCheck => 4
    case HClear => 3
    case HQueueUnlockExit => 2
    case HClearLast => 2
    case HRelease => 1
    case HPop => 1
    case HQueueUnlockLast => 1
    case HExited => 0
  }

  const RoundWork := 9

  ghost function CallsWork(calls: map<CallId, CallPc>): map<nat, nat> { map c | c in calls :: CallWork(calls[c]) }

  ghost function HelpersWork(helpers: map<HelperId, HelperPc>): map<nat, nat> {
    map h | h in helpers :: HelperWork(helpers[h])
  }

  ghost function Work(s: State): nat {
    RoundWork * |s.mem.waiters| + s.mem.readers + Total(CallsWork(s.calls)) + Total(HelpersWork(s.helpers))
  }

  predicate Arrival(st: Step) { st.NewCall? || st.ReaderLock? }

  lemma MovedCallWork(calls: map<CallId, CallPc>, c: CallId, pc: CallPc)
    requires c in calls
    ensures Total(CallsWork(calls[c := pc])) + CallWork(calls[c]) == Total(CallsWork(calls)) + CallWork(pc)
  {
    TotalUpdate(CallsWork(calls), c, CallWork(pc));
    assert CallsWork(calls[c := pc]) == CallsWork(calls)[c := CallWork(pc)];
  }

  lemma MovedHelperWork(helpers: map<HelperId, HelperPc>, h: HelperId, pc: HelperPc)
    ensures Total(HelpersWork(helpers[h := pc])) + (if h in helpers then HelperWork(helpers[h]) else 0)
            == Total(HelpersWork(helpers)) + HelperWork(pc)
  {
    TotalUpdate(HelpersWork(helpers), h, HelperWork(pc));
    assert HelpersWork(helpers[h := pc]) == HelpersWork(helpers)[h := HelperWork(pc)];
  }

  /** What a call's step does to its own work and to the queue. */
  lemma CallStepWork(m: Memory, pc: CallPc, c: CallId, alt: nat)
    requires CallReady(m, pc, c, alt)
    ensures var m' := CallMemory(m, pc, c, alt);
            && m'.readers == m.readers
            && CallWork(CallNext(m, pc, c, alt)) + RoundWork * |m'.waiters| +
               (if pc.Spawn? then HelperWork(HLock) else 0)
               < CallWork(pc) + RoundWork * |m.waiters|
  {
  }

  lemma HelperStepWork(m: Memory, pc: HelperPc)
    requires HelperReady(m, pc)
    ensures var m' := HelperMemory(m, pc);
            && m'.readers == m.readers
            && HelperWork(HelperNext(m, pc)) + RoundWork * |m'.waiters| < HelperWork(pc) + RoundWork * |m.waiters|
  {
  }

  /** Every step except an arrival uses up work. */
  lemma StepUsesWork(s: State, st: Step)
    requires Enabled(s, st) && !Arrival(st)
    ensures Work(Do(s, st)) < Work(s)
  {
    match st
    case MoveCall(c, alt, h) =>
      var pc := s.calls[c];
      CallStepWork(s.mem, pc, c, alt);
      MovedCallWork(s.calls, c, CallNext(s.mem, pc, c, alt));
      if pc.Spawn? {
        MovedHelperWork(s.helpers, h, HLock);
      }
    case MoveHelper(h) =>
      HelperStepWork(s.mem, s.helpers[h]);
      MovedHelperWork(s.helpers, h, HelperNext(s.mem, s.helpers[h]));
    case ReaderUnlock =>
    case _ =>
  }

  /** A stretch of a run without arrivals is no longer than the work it starts with: no schedule goes on for ever. */
  lemma {:induction false} StretchIsBounded(ss: seq<State>, steps: seq<Step>, i: nat, j: nat)
    requires IsRun(ss, steps) && i <= j < |ss|
    requires forall k :: i <= k < j ==> !Arrival(steps[k])
    ensures j - i + Work(ss[j]) <= Work(ss[i])
  {
    if i < j {
      StretchIsBounded(ss, steps, i, j - 1);
      assert Linked(ss, steps, j - 1);
      StepUsesWork(ss[j - 1], steps[j - 1]);
    }
  }

  // ---------------------------------------------------------------- progress

  /** A step that is no arrival and in which no waiting call's context ends. */
  predicate Patient(s: State, st: Step) {
    match st
    case MoveCall(c, alt, _) => c in s.calls && (s.calls[c].Select? ==> alt == 0)
    case MoveHelper(_) => true
    case ReaderUnlock => true
    case _ => false
  }

  ghost predicate Drained(s: State) { forall st :: Patient(s, st) ==> !Enabled(s, st) }

  predicate Resolved(pc: CallPc) { pc.Released? || pc.ReturnedErr? }

  lemma UnusedHelperId(ids: set<HelperId>) returns (h: HelperId)
    ensures h !in ids
  {
    h := 0;
    var rest := ids;
    while rest != {}
      invariant forall x :: x in ids ==> x in rest || x < h
    {
      var x :| x in rest;
      rest := rest - {x};
      h := if x < h then h else x + 1;
    }
  }

  /** Whoever is inside the queue's critical section can always move. */
  lemma HolderCanMove(s: State, w: Witness) returns (st: Step)
    requires Inv(s, w) && w.holder.Some?
    ensures Enabled(s, st) && Patient(s, st)
  {
    match w.holder.value
    case CallProc(c) =>
      assert InQueueSection(s, CallProc(c));
      st := MoveCall(c, 0, 0);
    case HelperProc(h) =>
      assert InQueueSection(s, HelperProc(h));
      st := MoveHelper(h);
      if s.helpers[h].HSend? {
        assert BeingSent(s, w, s.helpers[h].waiter);
        assert CallStanding(s, w, s.helpers[h].waiter, s.calls[s.helpers[h].waiter]);
      }
  }

  /** With the queue mutex free, the accountable owner of the lock can always move towards releasing it. */
  lemma OwnerCanMove(s: State, w: Witness) returns (st: Step)
    requires Inv(s, w) && w.holder.None? && w.owner.Some?
    ensures Enabled(s, st) && Patient(s, st)
  {
    assert Accountable(s, w.owner.value);
    match w.owner.value
    case ByCall(c) =>
      st := MoveCall(c, 0, 0);
    case ByHelper(h) =>
      assert !InQueueSection(s, HelperProc(h));
      st := MoveHelper(h);
    case ByToken(c) =>
      assert CallStanding(s, w, c, s.calls[c]);
      assert !InQueueSection(s, CallProc(c));
      var h := UnusedHelperId(s.helpers.Keys);
      st := MoveCall(c, 0, h);
  }

  /** With both locks free, whoever serves the queue can move. */
  lemma ServerCanMove(s: State, w: Witness) returns (st: Step)
    requires Inv(s, w) && w.holder.None? && LockFree(s.mem) && w.server.Some?
    ensures Enabled(s, st) && Patient(s, st)
  {
    assert Serving(s, w.server.value);
    match w.server.value
    case CallProc(d) =>
      assert !InQueueSection(s, CallProc(d));
      var h := UnusedHelperId(s.helpers.Keys);
      st := MoveCall(d, 0, h);
    case HelperProc(h) =>
      assert !InQueueSection(s, HelperProc(h));
      assert !Accountable(s, ByHelper(h));
      st := MoveHelper(h);
  }

  /** With both locks free, an unresolved call can move, or the helper that serves it can. */
  lemma CallCanMove(s: State, w: Witness, c: CallId) returns (st: Step)
    requires Inv(s, w) && w.holder.None? && LockFree(s.mem) && c in s.calls && !Resolved(s.calls[c])
    ensures Enabled(s, st) && Patient(s, st)
  {
    assert CallStanding(s, w, c, s.calls[c]);
    assert !InQueueSection(s, CallProc(c));
    assert !Accountable(s, ByCall(c)) && !Accountable(s, ByToken(c));
    if s.calls[c].Select? {
      st := ServerCanMove(s, w);
    } else {
      var h := UnusedHelperId(s.helpers.Keys);
      st := MoveCall(c, 0, h);
    }
  }

  /** While a lock is held, or a call is unresolved, some step is enabled without any context ending. */
  lemma SomethingCanMove(s: State, w: Witness) returns (st: Step)
    requires Inv(s, w)
    requires w.holder.Some? || !LockFree(s.mem) || exists c :: c in s.calls && !Resolved(s.calls[c])
    ensures Enabled(s, st) && Patient(s, st)
  {
    if w.holder.Some? {
      st := HolderCanMove(s, w);
    } else if s.mem.locked {
      st := OwnerCanMove(s, w);
    } else if s.mem.readers > 0 {
      st := ReaderUnlock;
    } else {
      var c :| c in s.calls && !Resolved(s.calls[c]);
      st := CallCanMove(s, w, c);
    }
  }

  /** When nothing can move, everything is tidied up: calls resolved, locks free, nobody queued, no helper left. */
  lemma DrainedIsClean(ss: seq<State>, steps: seq<Step>, i: nat)
    requires IsRun(ss, steps) && i < |ss| && Drained(ss[i])
    ensures forall c :: c in ss[i].calls ==> Resolved(ss[i].calls[c])
    ensures LockFree(ss[i].mem) && !ss[i].mem.muLocked && ss[i].mem.waiters == [] && !ss[i].mem.parked
    ensures forall h :: h in ss[i].helpers ==> ss[i].helpers[h].HExited?
  {
    var s := ss[i];
    var w := RunsKeepInv(ss, steps, i);
    if w.holder.Some? || !LockFree(s.mem) || exists c :: c in s.calls && !Resolved(s.calls[c]) {
      var st := SomethingCanMove(s, w);
      assert false;
    }
    if w.server.Some? {
      var st := ServerCanMove(s, w);
      assert false;
    }
    forall h | h in s.helpers
      ensures s.helpers[h].HExited?
    {
      assert !InQueueSection(s, HelperProc(h)) && !Serving(s, HelperProc(h)) && !Accountable(s, ByHelper(h));
    }
  }

  // ---------------------------------------------------------------- service

  /** The call is queued and its context has not ended, or it was served. */
  predicate OnTheWay(pc: CallPc) {
    || pc.ReadParked? || pc.SetParked? || pc.QueueUnlock? || pc.Spawn? || pc.Select?
    || pc.ReturnedNil? || pc.Released?
  }

  lemma {:induction false} StaysOnTheWay(ss: seq<State>, steps: seq<Step>, i: nat, j: nat, c: CallId)
    requires IsRun(ss, steps) && i <= j < |ss| && c in ss[i].calls && OnTheWay(ss[i].calls[c])
    requires forall k :: i <= k < j ==> Patient(ss[k], steps[k])
    ensures c in ss[j].calls && OnTheWay(ss[j].calls[c])
  {
    if i < j {
      StaysOnTheWay(ss, steps, i, j - 1, c);
      assert Linked(ss, steps, j - 1);
    }
  }

  /**
   All waiters are served. Take any run and any continuation of it without
   arrivals in which no context ends, as long as it can be made: it is no longer
   than the work at its start, and at its end every call that was queued has
   been given the lock and has released it.
   */
  lemma AllWaitersServed(ss: seq<State>, steps: seq<Step>, i: nat, j: nat, c: CallId)
    requires IsRun(ss, steps) && i <= j < |ss| && c in ss[i].calls && OnTheWay(ss[i].calls[c])
    requires (forall k :: i <= k < j ==> Patient(ss[k], steps[k])) && Drained(ss[j])
    ensures j - i <= Work(ss[i]) && c in ss[j].calls && ss[j].calls[c].Released?
  {
    StaysOnTheWay(ss, steps, i, j, c);
    DrainedIsClean(ss, steps, j);
    StretchIsBounded(ss, steps, i, j);
  }
}
