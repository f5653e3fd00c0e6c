/**
 Every committed event is delivered. Each step other than an arrival or a new
 event uses up work, and while anything is undone some such step is enabled; so
 once mutators stop producing, every schedule ends with everything delivered.
 */
module EventDispatchServing {
  import opened Totals
  import opened EventDispatch
  import opened EventDispatchRuns

  // ---------------------------------------------------------------- work

  const WakeWork := 5
  const EventWork := 11

  function ProducerWork(pc: ProducerPc): nat {
    match pc
    case PLock => 4
    case PCheck => 3
    case PInside(_) => 2
    case PMuLock(_) => 24
    case PNumber(_) => 23
    case PAppend(_) => 22
    case PCount(_) => 10
    case PMuUnlock(_) => 9
    case PWake(_) => 8
    case PUnlock => 1
    case PDone => 0
  }

  function SealerWork(pc: SealerPc): nat {
    match pc
    case SLock => 12
    case SMuLock => 11
    case SSeal => 10
    case SMuUnlock => 9
    case SUnlock => 8
    case SWake => 7
    case SJoin => 1
    case SDone => 0
  }

  function DispatcherWork(pc: DispatcherPc): nat {
    match pc
    case DUnlockDeliver(_) => 10
    case DDeliver(_) => 9
    case DClose(_) => 8
    case DCountLock => 7
    case DCount => 6
    case DCountUnlock => 5
    case DLock => 4
    case DCheck => 3
    case DCheckSealed => 2
    case DUnlockExit => 1
    case DUnlockPark => 1
    case DPop => 0
    case DPark => 0
    case DExited => 0
  }

  ghost function ProducersWork(ps: map<Id, ProducerPc>): map<nat, nat> { map p | p in ps :: ProducerWork(ps[p]) }

  ghost function SealersWork(zs: map<Id, SealerPc>): map<nat, nat> { map z | z in zs :: SealerWork(zs[z]) }

  function MemoryWork(m: Memory): nat { EventWork * |m.queue| + if m.wake then WakeWork else 0 }

  ghost function Work(s: State): nat {
    MemoryWork(s.mem) + DispatcherWork(s.disp) + Total(ProducersWork(s.producers)) + Total(SealersWork(s.sealers))
  }

  /** Something new comes in: a mutator, another event of one, or a shutdown. */
  predicate Arrival(s: State, st: Step) {
    match st
    case MoveProducer(p, more, _, _) => more && p in s.producers && s.producers[p].PInside?
    case MoveSealer(_) => false
    case MoveDispatcher => false
    case _ => true
  }

  lemma ProducerStepWork(m: Memory, pc: ProducerPc, p: Id, more: bool, payload: nat, attach: bool)
    requires ProducerReady(m, pc) && !(more && pc.PInside?)
    ensures MemoryWork(ProducerMemory(m, pc, p, payload, attach)) + ProducerWork(ProducerNext(m, pc, more, attach))
            < MemoryWork(m) + ProducerWork(pc)
  {
  }

  lemma SealerStepWork(m: Memory, pc: SealerPc)
    requires !pc.SDone?
    ensures MemoryWork(SealerMemory(m, pc)) + SealerWork(SealerNext(pc)) < MemoryWork(m) + SealerWork(pc)
  {
  }

  lemma DispatcherStepWork(m: Memory, pc: DispatcherPc)
    requires DispatcherReady(m, pc)
    ensures MemoryWork(DispatcherMemory(m, pc)) + DispatcherWork(DispatcherNext(m, pc)) <
            MemoryWork(m) + DispatcherWork(pc)
  {
  }

  /** Every step except an arrival uses up work. */
  lemma StepUsesWork(s: State, st: Step)
    requires Enabled(s, st) && !Arrival(s, st)
    ensures Work(Do(s, st)) < Work(s)
  {
    match st
    case MoveProducer(p, more, payload, attach) =>
      var pc := s.producers[p];
      var pc' := ProducerNext(s.mem, pc, more, attach);
      ProducerStepWork(s.mem, pc, p, more, payload, attach);
      TotalUpdate(ProducersWork(s.producers), p, ProducerWork(pc'));
      assert ProducersWork(s.producers[p := pc']) == ProducersWork(s.producers)[p := ProducerWork(pc')];
    case MoveSealer(z) =>
      var pc' := SealerNext(s.sealers[z]);
      SealerStepWork(s.mem, s.sealers[z]);
      TotalUpdate(SealersWork(s.sealers), z, SealerWork(pc'));
      assert SealersWork(s.sealers[z := pc']) == SealersWork(s.sealers)[z := SealerWork(pc')];
    case MoveDispatcher =>
      DispatcherStepWork(s.mem, s.disp);
    case _ =>
  }

  /** A stretch of a run without arrivals is no longer than the work it starts with. */
  lemma {:induction false} StretchIsBounded(ss: seq<State>, steps: seq<Step>, i: nat, j: nat)
    requires IsRun(ss, steps) && i <= j < |ss|
    requires forall k :: i <= k < j ==> !Arrival(ss[k], steps[k])
    ensures j - i + Work(ss[j]) <= Work(ss[i])
  {
    if i < j {
      StretchIsBounded(ss, steps, i, j - 1);
      assert Linked(ss, steps, j - 1);
      StepUsesWork(ss[j - 1], steps[j - 1]);
    }
  }

  // ---------------------------------------------------------------- progress

  /** The next step of a process, producing nothing new. */
  function Onward(p: Proc): Step {
    match p
    case Producer(q) => MoveProducer(q, false, 0, false)
    case Sealer(z) => MoveSealer(z)
    case Dispatcher => MoveDispatcher
  }

  predicate CanGoOn(s: State, p: Proc) { Enabled(s, Onward(p)) && !Arrival(s, Onward(p)) }

  /** The dispatcher has nothing left to do. */
  predicate Idle(s: State) { s.disp.DExited? || (s.disp.DPark? && !s.mem.wake && s.mem.queue == [] && !s.mem.sealed) }

  /** Whoever holds eventMu can go on. */
  lemma MuHolderCanGoOn(s: State, w: Witness) returns (p: Proc)
    requires Inv(s, w) && s.mem.muLocked
    ensures CanGoOn(s, p) && HoldsEventMu(s, p)
  {
    p := w.mu.value;
    assert HoldsEventMu(s, p);
  }

  /** With eventMu free, whoever holds the node lock can go on. */
  lemma NodeHolderCanGoOn(s: State, w: Witness) returns (p: Proc)
    requires Inv(s, w) && !s.mem.muLocked && s.mem.locked
    ensures CanGoOn(s, p) && HoldsNodeLock(s, p)
  {
    p := w.node.value;
    assert HoldsNodeLock(s, p);
  }

  /**
   Delivery is never stuck. Unless the dispatcher is idle, it can move itself,
   or the one it waits for can: the holder of eventMu when it wants the mutex,
   somebody about to post the wake token when it is parked with work to do.
   */
  lemma DeliveryNeverStuck(ss: seq<State>, steps: seq<Step>, i: nat) returns (p: Proc)
    requires IsRun(ss, steps) && i < |ss| && !Idle(ss[i])
    ensures CanGoOn(ss[i], p)
    ensures p.Dispatcher? || (ss[i].mem.muLocked && HoldsEventMu(ss[i], p)) ||
            (ss[i].disp.DPark? && AboutToWake(ss[i], p))
  {
    var w := RunsKeepInv(ss, steps, i);
    p := DispatcherOrCause(ss[i], w);
  }

  lemma WakerCanGoOn(s: State, p: Proc)
    requires AboutToWake(s, p)
    ensures CanGoOn(s, p)
  {
  }

  lemma DispatcherOrCause(s: State, w: Witness) returns (p: Proc)
    requires Inv(s, w) && !Idle(s)
    ensures CanGoOn(s, p)
    ensures p.Dispatcher? || (s.mem.muLocked && HoldsEventMu(s, p)) || (s.disp.DPark? && AboutToWake(s, p))
  {
    if DispatcherReady(s.mem, s.disp) {
      p := Dispatcher;
    } else if s.disp.DPark? {
      p :| AboutToWake(s, p);
      WakerCanGoOn(s, p);
    } else {
      p := MuHolderCanGoOn(s, w);
    }
  }

  ghost predicate Drained(s: State) { forall st :: Enabled(s, st) ==> Arrival(s, st) }

  /**
   With both locks free and the dispatcher idle, every mutator and every finishShutdown that is not done can go on.
   */
  lemma OthersCanGoOn(s: State, w: Witness, p: Proc)
    requires Inv(s, w) && !s.mem.muLocked && !s.mem.locked && Idle(s)
    requires match p
             case Producer(q) => q in s.producers && !s.producers[q].PDone?
             case Sealer(z) => z in s.sealers && !s.sealers[z].SDone?
             case Dispatcher => false
    ensures CanGoOn(s, p)
  {
    assert !HoldsNodeLock(s, p);
  }

  /**
   When nothing but an arrival is possible, every section is done and everything ever committed has been delivered.
   */
  lemma DrainedIsDelivered(ss: seq<State>, steps: seq<Step>, i: nat)
    requires IsRun(ss, steps) && i < |ss| && Drained(ss[i])
    ensures ss[i].mem.delivered == ss[i].mem.committed && ss[i].mem.pending == 0
    ensures ss[i].mem.sealed ==> ss[i].disp.DExited?
    ensures forall p :: p in ss[i].producers ==> ss[i].producers[p].PDone?
    ensures forall z :: z in ss[i].sealers ==> ss[i].sealers[z].SDone?
  {
    var s := ss[i];
    var w := RunsKeepInv(ss, steps, i);
    if s.mem.muLocked {
      var p := MuHolderCanGoOn(s, w);
      assert false;
    }
    if s.mem.locked {
      var p := NodeHolderCanGoOn(s, w);
      assert false;
    }
    if !Idle(s) {
      var p := DispatcherOrCause(s, w);
      assert false;
    }
    forall p | p in s.producers
      ensures s.producers[p].PDone?
    {
      if !s.producers[p].PDone? {
        OthersCanGoOn(s, w, Producer(p));
      }
    }
    forall z | z in s.sealers
      ensures s.sealers[z].SDone?
    {
      if !s.sealers[z].SDone? {
        OthersCanGoOn(s, w, Sealer(z));
      }
    }
  }

  // ---------------------------------------------------------------- service

  lemma {:induction false} CommittedOnlyGrows(ss: seq<State>, steps: seq<Step>, i: nat, j: nat)
    requires IsRun(ss, steps) && i <= j < |ss|
    ensures ss[i].mem.committed <= ss[j].mem.committed
  {
    if i < j {
      CommittedOnlyGrows(ss, steps, i, j - 1);
      assert Linked(ss, steps, j - 1);
    }
  }

  /**
   Everything is delivered. Take any run and any continuation of it without
   arrivals, as long as it can be made: it is no longer than the work at its
   start, and at its end every event committed so far has been delivered, in
   commit order.
   */
  lemma EverythingIsDelivered(ss: seq<State>, steps: seq<Step>, i: nat, j: nat)
    requires IsRun(ss, steps) && i <= j < |ss|
    requires (forall k :: i <= k < j ==> !Arrival(ss[k], steps[k])) && Drained(ss[j])
    ensures j - i <= Work(ss[i]) && ss[i].mem.committed <= ss[j].mem.delivered
  {
    StretchIsBounded(ss, steps, i, j);
    CommittedOnlyGrows(ss, steps, i, j);
    DrainedIsDelivered(ss, steps, j);
  }
}
