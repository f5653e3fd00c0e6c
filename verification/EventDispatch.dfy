/**
 Asynchronous event delivery: any number of mutators commit events under the
 node lock, one dispatcher delivers them holding no lock, and shutdown seals
 admission and joins the dispatcher.

 Every access to shared memory is one step of a transition system, so the
 coalescing wake token, the two mutexes, the shutdown flag and the seal
 interleave freely.
 */
module EventDispatch {

  import opened Base

  type Id = nat

  /** A committed event. `payload` stands for the kind and the node snapshot. */
  datatype Event = Event(payload: nat, seqNo: nat, receipt: Option<Id>)

  /**
   A critical section of a mutator: entered under the node lock, it may enqueue
   any number of events. It has at most one receipt, made for it alone, and
   gives it to at most one event; `spent` says that it has done so.
   */
  datatype ProducerPc =
    | PLock
    | PCheck                    // read the shutdown flag once, at entry
    | PInside(spent: bool)
    | PMuLock(spent: bool)
    | PNumber(spent: bool)      // eventMu held: eventSeq++
    | PAppend(spent: bool)      // the commit point
    | PCount(spent: bool)       // eventPending++
    | PMuUnlock(spent: bool)
    | PWake(spent: bool)
    | PUnlock
    | PDone

  /** One call of finishShutdown. */
  datatype SealerPc = SLock | SMuLock | SSeal | SMuUnlock | SUnlock | SWake | SJoin | SDone

  datatype DispatcherPc =
    | DLock
    | DCheck
    | DCheckSealed
    | DUnlockExit
    | DExited
    | DUnlockPark
    | DPark
    | DPop
    | DUnlockDeliver(ev: Event)
    | DDeliver(ev: Event)
    | DClose(ev: Event)         // callback returned: close the receipt, if any
    | DCountLock
    | DCount                    // eventPending--
    | DCountUnlock

  datatype Memory = Memory(
    locked: bool,               // nodeLock
    muLocked: bool,             // eventMu
    shutdown: bool,
    sealed: bool,
    queue: seq<Event>,          // m.events
    pending: int,               // m.eventPending
    lastSeq: nat,               // m.eventSeq
    wake: bool,                 // the one-slot eventWake channel
    committed: seq<Event>,      // log of appends, in commit order
    delivered: seq<Event>,      // log of returned callbacks
    closed: seq<Id>             // log of closed receipts
  )

  datatype State = State(mem: Memory, producers: map<Id, ProducerPc>, sealers: map<Id, SealerPc>, disp: DispatcherPc)

  const Init := State(Memory(false, false, false, false, [], 0, 0, false, [], [], []), map[], map[], DLock)

  datatype Step =
    | NewProducer(p: Id)
    | MoveProducer(p: Id, more: bool, payload: nat, attach: bool)
    | SetShutdown
    | NewSealer(z: Id)
    | MoveSealer(z: Id)
    | MoveDispatcher

  function Receipts(es: seq<Event>): seq<Id> {
    if es == [] then []
    else Receipts(es[..|es| - 1]) + ReceiptOf(es[|es| - 1])
  }

  function ReceiptOf(e: Event): seq<Id> { if e.receipt.Some? then [e.receipt.value] else [] }

  predicate ProducerReady(m: Memory, pc: ProducerPc) {
    match pc
    case PLock => !m.locked
    case PMuLock(_) => !m.muLocked
    case PDone => false
    case _ => true
  }

  predicate SealerReady(m: Memory, pc: SealerPc, d: DispatcherPc) {
    match pc
    case SLock => !m.locked
    case SMuLock => !m.muLocked
    case SJoin => d.DExited?
    case SDone => false
    case _ => true
  }

  predicate DispatcherReady(m: Memory, pc: DispatcherPc) {
    match pc
    case DLock => !m.muLocked
    case DPark => m.wake
    case DPop => m.queue != []         // indexing an empty slice would panic
    case DCountLock => !m.muLocked
    case DExited => false
    case _ => true
  }

  predicate Enabled(s: State, st: Step) {
    match st
    case NewProducer(p) => p !in s.producers
    case MoveProducer(p, _, _, _) => p in s.producers && ProducerReady(s.mem, s.producers[p])
    case SetShutdown => true
    case NewSealer(z) => z !in s.sealers && s.mem.shutdown    // finishShutdown runs after the flag is set
    case MoveSealer(z) => z in s.sealers && SealerReady(s.mem, s.sealers[z], s.disp)
    case MoveDispatcher => DispatcherReady(s.mem, s.disp)
  }

  /** The event the mutator p commits. */
  function Committed(m: Memory, pc: ProducerPc, p: Id, payload: nat, attach: bool): Event
    requires pc.PAppend?
  {
    Event(payload, m.lastSeq, if attach && !pc.spent then Some(p) else None)
  }

  function ProducerMemory(m: Memory, pc: ProducerPc, p: Id, payload: nat, attach: bool): Memory {
    match pc
    case PLock => m.(locked := true)
    case PMuLock(_) => m.(muLocked := true)
    case PNumber(_) => m.(lastSeq := m.lastSeq + 1)
    case PAppend(_) =>
      var e := Committed(m, pc, p, payload, attach);
      m.(queue := m.queue + [e], committed := m.committed + [e])
    case PCount(_) => m.(pending := m.pending + 1)
    case PMuUnlock(_) => m.(muLocked := false)
    case PWake(_) => m.(wake := true)  // a full slot drops the token
    case PUnlock => m.(locked := false)
    case _ => m
  }

  function ProducerNext(m: Memory, pc: ProducerPc, more: bool, attach: bool): ProducerPc {
    match pc
    case PLock => PCheck
    case PCheck => if m.shutdown then PUnlock else PInside(false)
    case PInside(spent) => if more then PMuLock(spent) else PUnlock
    case PMuLock(spent) => PNumber(spent)
    case PNumber(spent) => PAppend(spent)
    case PAppend(spent) => PCount(spent || attach)
    case PCount(spent) => PMuUnlock(spent)
    case PMuUnlock(spent) => PWake(spent)
    case PWake(spent) => PInside(spent)
    case PUnlock => PDone
    case PDone => PDone
  }

  function SealerMemory(m: Memory, pc: SealerPc): Memory {
    match pc
    case SLock => m.(locked := true)
    case SMuLock => m.(muLocked := true)
    case SSeal => m.(sealed := true)
    case SMuUnlock => m.(muLocked := false)
    case SUnlock => m.(locked := false)
    case SWake => m.(wake := true)
    case _ => m
  }

  function SealerNext(pc: SealerPc): SealerPc {
    match pc
    case SLock => SMuLock
    case SMuLock => SSeal
    case SSeal => SMuUnlock
    case SMuUnlock => SUnlock
    case SUnlock => SWake
    case SWake => SJoin
    case SJoin => SDone
    case SDone => SDone
  }

  function DispatcherMemory(m: Memory, pc: DispatcherPc): Memory
    requires DispatcherReady(m, pc)
  {
    match pc
    case DLock => m.(muLocked := true)
    case DUnlockExit => m.(muLocked := false)
    case DUnlockPark => m.(muLocked := false)
    case DPark => m.(wake := false)
    case DPop => m.(queue := m.queue[1..])
    case DUnlockDeliver(_) => m.(muLocked := false)
    case DDeliver(e) => m.(delivered := m.delivered + [e])
    case DClose(e) => m.(closed := m.closed + ReceiptOf(e))
    case DCountLock => m.(muLocked := true)
    case DCount => m.(pending := m.pending - 1)
    case DCountUnlock => m.(muLocked := false)
    case _ => m
  }

  function DispatcherNext(m: Memory, pc: DispatcherPc): DispatcherPc
    requires DispatcherReady(m, pc)
  {
    match pc
    case DLock => DCheck
    case DCheck => if m.queue == [] then DCheckSealed else DPop
    case DCheckSealed => if m.sealed then DUnlockExit else DUnlockPark
    case DUnlockExit => DExited
    case DUnlockPark => DPark
    case DPark => DLock
    case DPop => DUnlockDeliver(m.queue[0])
    case DUnlockDeliver(e) => DDeliver(e)
    case DDeliver(e) => DClose(e)
    case DClose(_) => DCountLock
    case DCountLock => DCount
    case DCount => DCountUnlock
    case DCountUnlock => DLock
  }

  function Do(s: State, st: Step): State
    requires Enabled(s, st)
  {
    match st
    case NewProducer(p) => s.(producers := s.producers[p := PLock])
    case MoveProducer(p, more, payload, attach) =>
      var pc := s.producers[p];
      s.(mem := ProducerMemory(s.mem, pc, p, payload, attach),
         producers := s.producers[p := ProducerNext(s.mem, pc, more, attach)])
    case SetShutdown => s.(mem := s.mem.(shutdown := true))
    case NewSealer(z) => s.(sealers := s.sealers[z := SLock])
    case MoveSealer(z) =>
      var pc := s.sealers[z];
      s.(mem := SealerMemory(s.mem, pc), sealers := s.sealers[z := SealerNext(pc)])
    case MoveDispatcher =>
      s.(mem := DispatcherMemory(s.mem, s.disp), disp := DispatcherNext(s.mem, s.disp))
  }

  ghost predicate Linked(ss: seq<State>, steps: seq<Step>, i: nat)
    requires i < |steps| < |ss|
  {
    Enabled(ss[i], steps[i]) && ss[i + 1] == Do(ss[i], steps[i])
  }

  ghost predicate IsRun(ss: seq<State>, steps: seq<Step>) {
    && |ss| == |steps| + 1
    && ss[0] == Init
    && forall i: nat :: i < |steps| ==> Linked(ss, steps, i)
  }

  // ---------------------------------------------------------------- invariant

  datatype Proc = Producer(p: Id) | Sealer(z: Id) | Dispatcher

  predicate HoldsNodeLock(s: State, p: Proc) {
    match p
    case Producer(i) => i in s.producers && !s.producers[i].PLock? && !s.producers[i].PDone?
    case Sealer(i) => i in s.sealers && SealerHoldsNodeLock(s.sealers[i])
    case Dispatcher => false
  }

  predicate SealerHoldsNodeLock(pc: SealerPc) { pc.SMuLock? || pc.SSeal? || pc.SMuUnlock? || pc.SUnlock? }

  predicate HoldsEventMu(s: State, p: Proc) {
    match p
    case Producer(i) => i in s.producers && ProducerHoldsMu(s.producers[i])
    case Sealer(i) => i in s.sealers && (s.sealers[i].SSeal? || s.sealers[i].SMuUnlock?)
    case Dispatcher => DispatcherHoldsMu(s.disp)
  }

  predicate ProducerHoldsMu(pc: ProducerPc) { pc.PNumber? || pc.PAppend? || pc.PCount? || pc.PMuUnlock? }

  predicate DispatcherHoldsMu(pc: DispatcherPc) {
    pc.DCheck? || pc.DCheckSealed? || pc.DUnlockExit? || pc.DUnlockPark? || pc.DPop? || pc.DUnlockDeliver? || pc.DCount?
    || pc.DCountUnlock?
  }

  /** Made work visible and still to post the wake token. */
  predicate AboutToWake(s: State, p: Proc) {
    match p
    case Producer(i) =>
      i in s.producers && (s.producers[i].PCount? || s.producers[i].PMuUnlock? || s.producers[i].PWake?)
    case Sealer(i) => i in s.sealers && (s.sealers[i].SMuUnlock? || s.sealers[i].SUnlock? || s.sealers[i].SWake?)
    case Dispatcher => false
  }

  /** The mutator read the flag before shutdown and is still in its section. */
  predicate Admitted(pc: ProducerPc) {
    pc.PInside? || pc.PMuLock? || pc.PNumber? || pc.PAppend? || pc.PCount? || pc.PMuUnlock? || pc.PWake?
  }

  datatype Witness = Witness(node: Option<Proc>, mu: Option<Proc>)

  ghost predicate NodeLockInv(s: State, w: Witness) {
    && (forall p :: HoldsNodeLock(s, p) <==> w.node == Some(p))
    && (s.mem.locked <==> w.node.Some?)
  }

  ghost predicate EventMuInv(s: State, w: Witness) {
    && (forall p :: HoldsEventMu(s, p) <==> w.mu == Some(p))
    && (s.mem.muLocked <==> w.mu.Some?)
  }

  /** The producer fence. */
  ghost predicate FenceInv(s: State) {
    && (s.mem.sealed ==> s.mem.shutdown)
    && (forall z :: z in s.sealers ==> s.mem.shutdown)
    && (forall z :: z in s.sealers && !s.sealers[z].SLock? && !s.sealers[z].SMuLock? && !s.sealers[z].SSeal? ==>
        s.mem.sealed)
    && (s.mem.sealed ==> forall p :: p in s.producers ==> !Admitted(s.producers[p]))
    && (forall z :: z in s.sealers && s.sealers[z].SDone? ==> s.disp.DExited?)
  }

  function InFlight(pc: DispatcherPc): seq<Event> {
    match pc
    case DUnlockDeliver(e) => [e]
    case DDeliver(e) => [e]
    case _ => []
  }

  predicate Uncounted(pc: DispatcherPc) {
    pc.DUnlockDeliver? || pc.DDeliver? || pc.DClose? || pc.DCountLock? || pc.DCount?
  }

  function MuProducer(s: State, w: Witness): Option<ProducerPc> {
    if w.mu.Some? && w.mu.value.Producer? && w.mu.value.p in s.producers then Some(s.producers[w.mu.value.p]) else None
  }

  predicate LogInv(m: Memory, d: DispatcherPc) { m.committed == m.delivered + InFlight(d) + m.queue }

  predicate CountInv(m: Memory, d: DispatcherPc, mp: Option<ProducerPc>) {
    && m.pending == |m.queue| + (if Uncounted(d) then 1 else 0) - (if mp.Some? && mp.value.PCount? then 1 else 0)
    && m.lastSeq == |m.committed| + (if mp.Some? && mp.value.PAppend? then 1 else 0)
  }

  predicate NumberedInv(m: Memory) { forall i :: 0 <= i < |m.committed| ==> m.committed[i].seqNo == i + 1 }

  predicate DispatcherKnows(m: Memory, d: DispatcherPc) {
    && (d.DCheckSealed? || d.DUnlockPark? || d.DUnlockExit? ==> m.queue == [])
    && (d.DUnlockPark? ==> !m.sealed)
    && (d.DPop? ==> m.queue != [])
    && (d.DUnlockExit? || d.DExited? ==> m.sealed && m.queue == [])
  }

  ghost predicate WakeInv(s: State) {
    s.disp.DPark? && (s.mem.queue != [] || s.mem.sealed) ==> s.mem.wake || exists p :: AboutToWake(s, p)
  }

  predicate NoDup(q: seq<Id>) { forall i, j :: 0 <= i < j < |q| ==> q[i] != q[j] }

  /** The section may have given its receipt to an event. */
  predicate MayHaveAttached(pc: ProducerPc) { pc.PUnlock? || pc.PDone? || (Admitted(pc) && pc.spent) }

  /** Receipts are attached once, each by the section it was made for. */
  ghost predicate AttachedInv(m: Memory, producers: map<Id, ProducerPc>) {
    && NoDup(Receipts(m.committed))
    && forall r :: r in Receipts(m.committed) ==> r in producers && MayHaveAttached(producers[r])
  }

  /** The closed receipts are those of the delivered events, but for the one about to be closed. */
  predicate ReceiptInv(m: Memory, d: DispatcherPc) {
    m.closed + (if d.DClose? then ReceiptOf(d.ev) else []) == Receipts(m.delivered)
  }

  ghost predicate Inv(s: State, w: Witness) {
    && NodeLockInv(s, w) && EventMuInv(s, w) && FenceInv(s)
    && LogInv(s.mem, s.disp) && CountInv(s.mem, s.disp, MuProducer(s, w)) && NumberedInv(s.mem)
    && DispatcherKnows(s.mem, s.disp) && WakeInv(s) && ReceiptInv(s.mem, s.disp) && AttachedInv(s.mem, s.producers)
  }

  function NextWitness(s: State, w: Witness, st: Step): Witness
    requires Enabled(s, st)
  {
    match st
    case MoveProducer(p, _, _, _) =>
      (match s.producers[p]
       case PLock => w.(node := Some(Producer(p)))
       case PMuLock(_) => w.(mu := Some(Producer(p)))
       case PMuUnlock(_) => w.(mu := None)
       case PUnlock => w.(node := None)
       case _ => w)
    case MoveSealer(z) =>
      (match s.sealers[z]
       case SLock => w.(node := Some(Sealer(z)))
       case SMuLock => w.(mu := Some(Sealer(z)))
       case SMuUnlock => w.(mu := None)
       case SUnlock => w.(node := None)
       case _ => w)
    case MoveDispatcher =>
      if s.disp.DLock? || s.disp.DCountLock? then w.(mu := Some(Dispatcher))
      else if s.disp.DUnlockExit? || s.disp.DUnlockPark? || s.disp.DUnlockDeliver? || s.disp.DCountUnlock?
      then w.(mu := None)
      else w
    case _ => w
  }

  lemma ProducerKeepsNodeLock(s: State, w: Witness, st: Step)
    requires NodeLockInv(s, w) && Enabled(s, st) && st.MoveProducer?
    ensures NodeLockInv(Do(s, st), NextWitness(s, w, st))
  {
    assert HoldsNodeLock(s, Producer(st.p)) <==> w.node == Some(Producer(st.p));
  }

  lemma SealerKeepsNodeLock(s: State, w: Witness, st: Step)
    requires NodeLockInv(s, w) && Enabled(s, st) && st.MoveSealer?
    ensures NodeLockInv(Do(s, st), NextWitness(s, w, st))
  {
    assert HoldsNodeLock(s, Sealer(st.z)) <==> w.node == Some(Sealer(st.z));
  }

  lemma OthersKeepNodeLock(s: State, w: Witness, st: Step)
    requires NodeLockInv(s, w) && Enabled(s, st) && !st.MoveProducer? && !st.MoveSealer?
    ensures NodeLockInv(Do(s, st), NextWitness(s, w, st))
  {
  }

  lemma StepKeepsNodeLock(s: State, w: Witness, st: Step)
    requires NodeLockInv(s, w) && Enabled(s, st)
    ensures NodeLockInv(Do(s, st), NextWitness(s, w, st))
  {
    if st.MoveProducer? {
      ProducerKeepsNodeLock(s, w, st);
    } else if st.MoveSealer? {
      SealerKeepsNodeLock(s, w, st);
    } else {
      OthersKeepNodeLock(s, w, st);
    }
  }

  lemma ProducerKeepsEventMu(s: State, w: Witness, st: Step)
    requires EventMuInv(s, w) && Enabled(s, st) && (st.MoveProducer? || st.NewProducer?)
    ensures EventMuInv(Do(s, st), NextWitness(s, w, st))
  {
    assert HoldsEventMu(s, Producer(st.p)) <==> w.mu == Some(Producer(st.p));
  }

  lemma OthersKeepEventMu(s: State, w: Witness, st: Step)
    requires EventMuInv(s, w) && Enabled(s, st) && !st.MoveProducer? && !st.NewProducer?
    ensures EventMuInv(Do(s, st), NextWitness(s, w, st))
  {
    assert HoldsEventMu(s, Dispatcher) <==> w.mu == Some(Dispatcher);
    if st.MoveSealer? || st.NewSealer? {
      assert HoldsEventMu(s, Sealer(st.z)) <==> w.mu == Some(Sealer(st.z));
    }
  }

  /** The fence: only a sealer holding the node lock seals, and nobody admitted holds it then. */
  lemma StepKeepsFence(s: State, w: Witness, st: Step)
    requires NodeLockInv(s, w) && FenceInv(s) && Enabled(s, st)
    ensures FenceInv(Do(s, st))
  {
    if st.MoveProducer? {
      assert HoldsNodeLock(s, Producer(st.p)) <==> w.node == Some(Producer(st.p));
    } else if st.MoveSealer? {
      assert HoldsNodeLock(s, Sealer(st.z)) <==> w.node == Some(Sealer(st.z));
      forall p | p in s.producers && s.sealers[st.z].SSeal?
        ensures !Admitted(s.producers[p])
      {
        assert HoldsNodeLock(s, Producer(p)) <==> w.node == Some(Producer(p));
      }
    }
  }

  lemma ProducerKeepsLog(m: Memory, d: DispatcherPc, pc: ProducerPc, p: Id, payload: nat, attach: bool)
    requires LogInv(m, d)
    ensures LogInv(ProducerMemory(m, pc, p, payload, attach), d)
  {
  }

  lemma DispatcherKeepsLog(m: Memory, d: DispatcherPc)
    requires LogInv(m, d) && DispatcherReady(m, d)
    ensures LogInv(DispatcherMemory(m, d), DispatcherNext(m, d))
  {
  }

  lemma StepKeepsLog(s: State, st: Step)
    requires LogInv(s.mem, s.disp) && Enabled(s, st)
    ensures LogInv(Do(s, st).mem, Do(s, st).disp)
  {
    if st.MoveProducer? {
      ProducerKeepsLog(s.mem, s.disp, s.producers[st.p], st.p, st.payload, st.attach);
    } else if st.MoveDispatcher? {
      DispatcherKeepsLog(s.mem, s.disp);
    }
  }

  /** Only the mutator that holds eventMu is inside the numbering, append or count steps. */
  lemma MuProducerIs(s: State, w: Witness, p: Id)
    requires EventMuInv(s, w) && p in s.producers && ProducerHoldsMu(s.producers[p])
    ensures MuProducer(s, w) == Some(s.producers[p])
  {
    assert HoldsEventMu(s, Producer(p));
  }

  /** The mutator inside eventMu once one at pc has moved to next. */
  function NextMuProducer(mp: Option<ProducerPc>, pc: ProducerPc, next: ProducerPc): Option<ProducerPc> {
    if pc.PMuUnlock? then None else if pc.PMuLock? || ProducerHoldsMu(pc) then Some(next) else mp
  }

  lemma MuProducerMoves(s: State, w: Witness, st: Step)
    requires st.MoveProducer? && EventMuInv(s, w) && Enabled(s, st)
    ensures MuProducer(Do(s, st), NextWitness(s, w, st)) ==
            NextMuProducer(MuProducer(s, w), s.producers[st.p], Do(s, st).producers[st.p])
  {
    assert HoldsEventMu(s, Producer(st.p)) <==> w.mu == Some(Producer(st.p));
  }

  lemma ProducerCounts(m: Memory, d: DispatcherPc, mp: Option<ProducerPc>, pc: ProducerPc, st: Step)
    requires st.MoveProducer? && CountInv(m, d, mp)
    requires (ProducerHoldsMu(pc) ==> mp == Some(pc)) && (pc.PMuLock? ==> mp.None?)
    ensures CountInv(ProducerMemory(m, pc, st.p, st.payload, st.attach), d,
                     NextMuProducer(mp, pc, ProducerNext(m, pc, st.more, st.attach)))
  {
  }

  lemma ProducerKeepsCount(s: State, w: Witness, st: Step)
    requires st.MoveProducer? && EventMuInv(s, w) && Enabled(s, st)
    requires CountInv(s.mem, s.disp, MuProducer(s, w))
    ensures CountInv(Do(s, st).mem, s.disp, MuProducer(Do(s, st), NextWitness(s, w, st)))
  {
    var pc := s.producers[st.p];
    if ProducerHoldsMu(pc) {
      MuProducerIs(s, w, st.p);
    }
    ProducerCounts(s.mem, s.disp, MuProducer(s, w), pc, st);
    MuProducerMoves(s, w, st);
  }

  lemma DispatcherCounts(m: Memory, d: DispatcherPc, mp: Option<ProducerPc>)
    requires DispatcherReady(m, d) && CountInv(m, d, mp)
    ensures CountInv(DispatcherMemory(m, d), DispatcherNext(m, d), mp)
  {
  }

  lemma DispatcherKeepsCount(s: State, w: Witness)
    requires EventMuInv(s, w) && Enabled(s, MoveDispatcher)
    requires CountInv(s.mem, s.disp, MuProducer(s, w))
    ensures CountInv(Do(s, MoveDispatcher).mem, Do(s, MoveDispatcher).disp,
                     MuProducer(Do(s, MoveDispatcher), NextWitness(s, w, MoveDispatcher)))
  {
    assert HoldsEventMu(s, Dispatcher) <==> w.mu == Some(Dispatcher);
    DispatcherCounts(s.mem, s.disp, MuProducer(s, w));
    assert MuProducer(Do(s, MoveDispatcher), NextWitness(s, w, MoveDispatcher)) == MuProducer(s, w);
  }

  lemma OthersKeepCount(s: State, w: Witness, st: Step)
    requires !st.MoveProducer? && !st.MoveDispatcher? && EventMuInv(s, w) && Enabled(s, st)
    requires CountInv(s.mem, s.disp, MuProducer(s, w))
    ensures CountInv(Do(s, st).mem, s.disp, MuProducer(Do(s, st), NextWitness(s, w, st)))
  {
    if st.MoveSealer? {
      assert HoldsEventMu(s, Sealer(st.z)) <==> w.mu == Some(Sealer(st.z));
    } else if st.NewProducer? {
      assert HoldsEventMu(s, Producer(st.p)) <==> w.mu == Some(Producer(st.p));
    }
  }

  lemma ProducerKeepsNumbers(m: Memory, pc: ProducerPc, p: Id, payload: nat, attach: bool)
    requires NumberedInv(m) && (pc.PAppend? ==> m.lastSeq == |m.committed| + 1)
    ensures NumberedInv(ProducerMemory(m, pc, p, payload, attach))
  {
  }

  lemma StepKeepsNumbers(s: State, w: Witness, st: Step)
    requires EventMuInv(s, w) && NumberedInv(s.mem) && CountInv(s.mem, s.disp, MuProducer(s, w)) && Enabled(s, st)
    ensures NumberedInv(Do(s, st).mem)
  {
    if st.MoveProducer? {
      if s.producers[st.p].PAppend? {
        MuProducerIs(s, w, st.p);
      }
      ProducerKeepsNumbers(s.mem, s.producers[st.p], st.p, st.payload, st.attach);
    } else {
      assert Do(s, st).mem.committed == s.mem.committed;
    }
  }

  lemma StepKeepsKnowledge(s: State, w: Witness, st: Step)
    requires EventMuInv(s, w) && FenceInv(s) && DispatcherKnows(s.mem, s.disp) && Enabled(s, st)
    ensures DispatcherKnows(Do(s, st).mem, Do(s, st).disp)
  {
    assert HoldsEventMu(s, Dispatcher) <==> w.mu == Some(Dispatcher);
    if st.MoveProducer? {
      assert HoldsEventMu(s, Producer(st.p)) <==> w.mu == Some(Producer(st.p));
    } else if st.MoveSealer? {
      assert HoldsEventMu(s, Sealer(st.z)) <==> w.mu == Some(Sealer(st.z));
    }
  }

  lemma StepKeepsWake(s: State, w: Witness, st: Step)
    requires DispatcherKnows(s.mem, s.disp) && WakeInv(s) && Enabled(s, st)
    ensures WakeInv(Do(s, st))
  {
    var s' := Do(s, st);
    if s'.disp.DPark? && (s'.mem.queue != [] || s'.mem.sealed) && !s'.mem.wake {
      if st.MoveProducer? && s.producers[st.p].PAppend? {
        assert AboutToWake(s', Producer(st.p));
      } else if st.MoveSealer? && s.sealers[st.z].SSeal? {
        assert AboutToWake(s', Sealer(st.z));
      } else {
        assert s.disp.DPark?;
        var p :| AboutToWake(s, p);
        assert AboutToWake(s', p);
      }
    }
  }

  lemma ReceiptsAppend(es: seq<Event>, e: Event)
    ensures Receipts(es + [e]) == Receipts(es) + ReceiptOf(e)
  {
    assert (es + [e])[..|es|] == es;
  }

  lemma DispatcherKeepsReceipts(m: Memory, d: DispatcherPc)
    requires ReceiptInv(m, d) && DispatcherReady(m, d)
    ensures ReceiptInv(DispatcherMemory(m, d), DispatcherNext(m, d))
  {
    if d.DDeliver? {
      ReceiptsAppend(m.delivered, d.ev);
    }
  }

  lemma StepKeepsReceipts(s: State, st: Step)
    requires ReceiptInv(s.mem, s.disp) && Enabled(s, st)
    ensures ReceiptInv(Do(s, st).mem, Do(s, st).disp)
  {
    if st.MoveDispatcher? {
      DispatcherKeepsReceipts(s.mem, s.disp);
    } else {
      LogUntouched(s, st);
    }
  }

  /** Attaching an unspent receipt: it is nowhere in the log yet. */
  lemma AppendKeepsAttached(m: Memory, producers: map<Id, ProducerPc>, p: Id, payload: nat, attach: bool)
    requires AttachedInv(m, producers) && p in producers && producers[p].PAppend?
    ensures var e := Committed(m, producers[p], p, payload, attach);
            AttachedInv(m.(queue := m.queue + [e], committed := m.committed + [e]),
                        producers[p := PCount(producers[p].spent || attach)])
  {
    var e := Committed(m, producers[p], p, payload, attach);
    ReceiptsAppend(m.committed, e);
  }

  /** A move without an append leaves the log alone, and a section that attached its receipt does not forget it. */
  lemma MoveKeepsAttached(m: Memory, producers: map<Id, ProducerPc>, p: Id, next: ProducerPc)
    requires AttachedInv(m, producers) && (p in producers && MayHaveAttached(producers[p]) ==> MayHaveAttached(next))
    ensures AttachedInv(m, producers[p := next])
  {
  }

  lemma SectionRemembers(m: Memory, pc: ProducerPc, more: bool, attach: bool)
    requires MayHaveAttached(pc)
    ensures MayHaveAttached(ProducerNext(m, pc, more, attach))
  {
  }

  lemma ProducerTouches(m: Memory, pc: ProducerPc, p: Id, payload: nat, attach: bool)
    ensures var m' := ProducerMemory(m, pc, p, payload, attach);
            m'.delivered == m.delivered && m'.closed == m.closed && (!pc.PAppend? ==> m'.committed == m.committed)
  {
  }

  lemma SealerTouches(m: Memory, pc: SealerPc)
    ensures var m' := SealerMemory(m, pc);
            m'.delivered == m.delivered && m'.closed == m.closed && m'.committed == m.committed
  {
  }

  lemma DispatcherTouches(m: Memory, pc: DispatcherPc)
    requires DispatcherReady(m, pc)
    ensures DispatcherMemory(m, pc).committed == m.committed
  {
  }

  lemma LogUntouched(s: State, st: Step)
    requires Enabled(s, st)
    ensures !(st.MoveProducer? && s.producers[st.p].PAppend?) ==> Do(s, st).mem.committed == s.mem.committed
    ensures !st.MoveDispatcher? ==> Do(s, st).mem.delivered == s.mem.delivered && Do(s, st).mem.closed == s.mem.closed
  {
    match st
    case MoveProducer(p, _, payload, attach) => ProducerTouches(s.mem, s.producers[p], p, payload, attach);
    case MoveSealer(z) => SealerTouches(s.mem, s.sealers[z]);
    case MoveDispatcher => DispatcherTouches(s.mem, s.disp);
    case _ =>
  }

  lemma StepKeepsAttached(s: State, st: Step)
    requires AttachedInv(s.mem, s.producers) && Enabled(s, st)
    ensures AttachedInv(Do(s, st).mem, Do(s, st).producers)
  {
    if st.MoveProducer? && s.producers[st.p].PAppend? {
      AppendKeepsAttached(s.mem, s.producers, st.p, st.payload, st.attach);
    } else {
      LogUntouched(s, st);
      if st.MoveProducer? {
        var pc := s.producers[st.p];
        if MayHaveAttached(pc) {
          SectionRemembers(s.mem, pc, st.more, st.attach);
        }
        MoveKeepsAttached(s.mem, s.producers, st.p, ProducerNext(s.mem, pc, st.more, st.attach));
      } else if st.NewProducer? {
        MoveKeepsAttached(s.mem, s.producers, st.p, PLock);
      }
    }
  }

  /** Every step keeps the whole invariant. */
  lemma StepKeepsInv(s: State, w: Witness, st: Step)
    requires Inv(s, w) && Enabled(s, st)
    ensures Inv(Do(s, st), NextWitness(s, w, st))
  {
    StepKeepsNodeLock(s, w, st);
    if st.MoveProducer? || st.NewProducer? {
      ProducerKeepsEventMu(s, w, st);
    } else {
      OthersKeepEventMu(s, w, st);
    }
    StepKeepsFence(s, w, st);
    StepKeepsLog(s, st);
    if st.MoveProducer? {
      ProducerKeepsCount(s, w, st);
    } else if st.MoveDispatcher? {
      DispatcherKeepsCount(s, w);
    } else {
      OthersKeepCount(s, w, st);
    }
    StepKeepsNumbers(s, w, st);
    StepKeepsKnowledge(s, w, st);
    StepKeepsWake(s, w, st);
    StepKeepsReceipts(s, st);
    StepKeepsAttached(s, st);
  }
}
