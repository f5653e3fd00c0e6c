/**
 The context-bounded acquisition of the node lock.

 `lockNodes` lets any number of callers give up on the write lock when their
 context ends, while at most one helper goroutine waits on the mutex for all of
 them and hands ownership over through one-slot channels. The protocol is
 modelled as a transition system: every access to shared memory (the lock, the
 queue's own mutex, the waiter list, the parked flag, a channel) is one step, and
 any number of calls and helpers interleave freely.
 */
module LockHandoff {

  import opened Base

  type CallId = nat
  type HelperId = nat

  /** Where one `lockNodes` call stands. */
  datatype CallPc =
    | Entry
    | BlockingLock              // a context that never ends: plain Lock
    | TryLock
    | QueueLock                 // about to take the queue mutex
    | Append                    // queue mutex held: append own channel
    | ReadParked
    | SetParked(spawn: bool)
    | QueueUnlock(spawn: bool)
    | Spawn                     // about to start the helper goroutine
    | Select                    // waiting for the token or the context
    | DeregLock
    | Search                    // queue mutex held: look for own channel
    | GiveUpUnlock
    | TakeUnlock
    | Take                      // ownership was handed over: receive the token
    | ReleaseTaken
    | ReturnedNil
    | Released                  // the caller has unlocked after a nil return
    | ReturnedErr

  /** Where one `lockNodesHelper` goroutine stands. */
  datatype HelperPc =
    | HLock
    | HQueueLock
    | HCheck
    | HClear                    // nobody is waiting: clear the parked flag
    | HQueueUnlockExit
    | HRelease
    | HPop
    | HSend(waiter: CallId)
    | HRecheck
    | HClearLast
    | HQueueUnlockLast
    | HQueueUnlockLoop
    | HExited

  /** Shared memory. `departed` logs the removals from `waiters`. */
  datatype Memory = Memory(
    locked: bool,                      // nodeLock held for writing
    readers: nat,                      // nodeLock held for reading
    muLocked: bool,                    // lockNodesQueue.mu
    waiters: seq<CallId>,
    parked: bool,
    tokens: set<CallId>,               // channels whose one slot is full
    departed: seq<CallId>
  )

  datatype State = State(mem: Memory, calls: map<CallId, CallPc>, helpers: map<HelperId, HelperPc>)

  const Init := State(Memory(false, 0, false, [], false, {}, []), map[], map[])

  /** A scheduling decision. `alt` resolves the choices a call leaves open. */
  datatype Step =
    | NewCall(c: CallId)
    | MoveCall(c: CallId, alt: nat, spawned: HelperId)
    | MoveHelper(h: HelperId)
    | ReaderLock
    | ReaderUnlock

  predicate LockFree(m: Memory) { !m.locked && m.readers == 0 }

  predicate CallReady(m: Memory, pc: CallPc, c: CallId, alt: nat) {
    match pc
    case BlockingLock => LockFree(m)
    case TryLock => alt == 0 ==> LockFree(m)
    case QueueLock => !m.muLocked
    case Select => alt == 0 ==> c in m.tokens
    case DeregLock => !m.muLocked
    case Take => c in m.tokens
    case Released => false
    case ReturnedErr => false
    case _ => true
  }

  predicate HelperReady(m: Memory, pc: HelperPc) {
    match pc
    case HLock => LockFree(m)
    case HQueueLock => !m.muLocked
    case HPop => m.waiters != []       // indexing an empty list would panic
    case HSend(w) => w !in m.tokens    // a full channel would block the helper
    case HExited => false
    case _ => true
  }

  predicate Enabled(s: State, st: Step) {
    match st
    case NewCall(c) => c !in s.calls
    case MoveCall(c, alt, spawned) =>
      c in s.calls && CallReady(s.mem, s.calls[c], c, alt) && (s.calls[c].Spawn? ==> spawned !in s.helpers)
    case MoveHelper(h) => h in s.helpers && HelperReady(s.mem, s.helpers[h])
    case ReaderLock => !s.mem.locked
    case ReaderUnlock => s.mem.readers > 0
  }

  predicate NoDup(q: seq<CallId>) { forall i, j :: 0 <= i < j < |q| ==> q[i] != q[j] }

  function Without(q: seq<CallId>, c: CallId): (r: seq<CallId>)
    ensures forall x :: x in r <==> x in q && x != c
    ensures NoDup(q) ==> NoDup(r)
    ensures |r| <= |q|
  {
    if q == [] then []
    else
      var rest := Without(q[1..], c);
      assert NoDup(q) ==> NoDup(q[1..]) && q[0] !in q[1..];
      if q[0] == c then rest else [q[0]] + rest
  }

  function CallMemory(m: Memory, pc: CallPc, c: CallId, alt: nat): Memory {
    match pc
    case BlockingLock => m.(locked := true)
    case TryLock => if alt == 0 then m.(locked := true) else m
    case QueueLock => m.(muLocked := true)
    case Append => m.(waiters := m.waiters + [c])
    case SetParked(_) => m.(parked := true)
    case QueueUnlock(_) => m.(muLocked := false)
    case Select => if alt == 0 then m.(tokens := m.tokens - {c}) else m
    case DeregLock => m.(muLocked := true)
    case Search =>
      if c in m.waiters then m.(waiters := Without(m.waiters, c), departed := m.departed + [c]) else m
    case GiveUpUnlock => m.(muLocked := false)
    case TakeUnlock => m.(muLocked := false)
    case Take => m.(tokens := m.tokens - {c})
    case ReleaseTaken => m.(locked := false)
    case ReturnedNil => m.(locked := false)
    case _ => m
  }

  function CallNext(m: Memory, pc: CallPc, c: CallId, alt: nat): CallPc {
    match pc
    case Entry => if alt == 0 then BlockingLock else if alt == 1 then ReturnedErr else TryLock
    case BlockingLock => ReturnedNil
    case TryLock => if alt == 0 then ReturnedNil else QueueLock
    case QueueLock => Append
    case Append => ReadParked
    case ReadParked => SetParked(!m.parked)
    case SetParked(spawn) => QueueUnlock(spawn)
    case QueueUnlock(spawn) => if spawn then Spawn else Select
    case Spawn => Select
    case Select => if alt == 0 then ReturnedNil else DeregLock
    case DeregLock => Search
    case Search => if c in m.waiters then GiveUpUnlock else TakeUnlock
    case GiveUpUnlock => ReturnedErr
    case TakeUnlock => Take
    case Take => ReleaseTaken
    case ReleaseTaken => ReturnedErr
    case ReturnedNil => Released
    case _ => pc
  }

  function HelperMemory(m: Memory, pc: HelperPc): Memory
    requires HelperReady(m, pc)
  {
    match pc
    case HLock => m.(locked := true)
    case HQueueLock => m.(muLocked := true)
    case HClear => m.(parked := false)
    case HQueueUnlockExit => m.(muLocked := false)
    case HRelease => m.(locked := false)
    case HPop => m.(waiters := m.waiters[1..], departed := m.departed + [m.waiters[0]])
    case HSend(w) => m.(tokens := m.tokens + {w})
    case HClearLast => m.(parked := false)
    case HQueueUnlockLast => m.(muLocked := false)
    case HQueueUnlockLoop => m.(muLocked := false)
    case _ => m
  }

  function HelperNext(m: Memory, pc: HelperPc): HelperPc
    requires HelperReady(m, pc)
  {
    match pc
    case HLock => HQueueLock
    case HQueueLock => HCheck
    case HCheck => if m.waiters == [] then HClear else HPop
    case HClear => HQueueUnlockExit
    case HQueueUnlockExit => HRelease
    case HRelease => HExited
    case HPop => HSend(m.waiters[0])
    case HSend(_) => HRecheck
    case HRecheck => if m.waiters == [] then HClearLast else HQueueUnlockLoop
    case HClearLast => HQueueUnlockLast
    case HQueueUnlockLast => HExited
    case HQueueUnlockLoop => HLock
  }

  function Do(s: State, st: Step): State
    requires Enabled(s, st)
  {
    match st
    case NewCall(c) => s.(calls := s.calls[c := Entry])
    case MoveCall(c, alt, spawned) =>
      var pc := s.calls[c];
      State(CallMemory(s.mem, pc, c, alt), s.calls[c := CallNext(s.mem, pc, c, alt)],
            if pc.Spawn? then s.helpers[spawned := HLock] else s.helpers)
    case MoveHelper(h) =>
      var pc := s.helpers[h];
      State(HelperMemory(s.mem, pc), s.calls, s.helpers[h := HelperNext(s.mem, pc)])
    case ReaderLock => s.(mem := s.mem.(readers := s.mem.readers + 1))
    case ReaderUnlock => s.(mem := s.mem.(readers := s.mem.readers - 1))
  }

  ghost predicate Linked(ss: seq<State>, steps: seq<Step>, i: nat)
    requires i < |steps| < |ss|
  {
    Enabled(ss[i], steps[i]) && ss[i + 1] == Do(ss[i], steps[i])
  }

  /** A run: states linked by enabled steps, from the fresh instance. */
  ghost predicate IsRun(ss: seq<State>, steps: seq<Step>) {
    && |ss| == |steps| + 1
    && ss[0] == Init
    && forall i: nat :: i < |steps| ==> Linked(ss, steps, i)
  }

  // ---------------------------------------------------------------- accounting

  /** Who may be answerable for the write lock: a call, a helper, or a token in flight. */
  datatype Party = ByCall(c: CallId) | ByHelper(h: HelperId) | ByToken(c: CallId)

  predicate Accountable(s: State, p: Party) {
    match p
    case ByCall(c) => c in s.calls && CallOwns(s.calls[c])
    case ByHelper(h) => h in s.helpers && HelperOwns(s.helpers[h])
    case ByToken(c) => c in s.mem.tokens
  }

  predicate CallOwns(pc: CallPc) { pc.ReturnedNil? || pc.ReleaseTaken? }

  predicate HelperOwns(pc: HelperPc) {
    pc.HQueueLock? || pc.HCheck? || pc.HClear? || pc.HQueueUnlockExit? || pc.HRelease? || pc.HPop? || pc.HSend?
  }

  datatype Proc = CallProc(c: CallId) | HelperProc(h: HelperId)

  predicate InQueueSection(s: State, p: Proc) {
    match p
    case CallProc(c) => c in s.calls && CallInSection(s.calls[c])
    case HelperProc(h) => h in s.helpers && HelperInSection(s.helpers[h])
  }

  predicate CallInSection(pc: CallPc) {
    pc.Append? || pc.ReadParked? || pc.SetParked? || pc.QueueUnlock? || pc.Search? || pc.GiveUpUnlock? || pc.TakeUnlock?
  }

  predicate HelperInSection(pc: HelperPc) {
    pc.HCheck? || pc.HClear? || pc.HQueueUnlockExit? || pc.HPop? || pc.HSend? || pc.HRecheck? || pc.HClearLast?
    || pc.HQueueUnlockLast? || pc.HQueueUnlockLoop?
  }

  /** A helper that will still look at the queue, or a call about to start one. */
  predicate Serving(s: State, p: Proc) {
    match p
    case CallProc(c) => c in s.calls && CallServes(s.calls[c])
    case HelperProc(h) => h in s.helpers && HelperServes(s.helpers[h])
  }

  predicate CallServes(pc: CallPc) { pc == QueueUnlock(true) || pc.Spawn? }

  predicate HelperServes(pc: HelperPc) {
    pc.HLock? || pc.HQueueLock? || pc.HCheck? || pc.HClear? || pc.HPop? || pc.HSend? || pc.HRecheck? || pc.HClearLast?
    || pc.HQueueUnlockLoop?
  }

  /** The helper has handed the lock over and is still inside the queue section. */
  predicate PastSend(pc: HelperPc) { pc.HRecheck? || pc.HClearLast? || pc.HQueueUnlockLast? || pc.HQueueUnlockLoop? }

  /** While one helper is about to release the lock, no other is past a handoff. */
  ghost predicate ReleaseInv(s: State) {
    forall g, h :: g in s.helpers && h in s.helpers && s.helpers[g].HRelease? ==> !PastSend(s.helpers[h])
  }

  /** The call has put its channel in the queue and has not yet learnt its outcome. */
  predicate Enrolled(pc: CallPc) {
    pc.ReadParked? || pc.SetParked? || pc.QueueUnlock? || pc.Spawn? || pc.Select? || pc.DeregLock? || pc.Search?
  }

  predicate BeforeQueue(pc: CallPc) {
    pc.Entry? || pc.BlockingLock? || pc.TryLock? || pc.QueueLock? || pc.Append?
  }

  /** The parties the invariant names; they are unique, so nothing is chosen. */
  datatype Witness = Witness(owner: Option<Party>, holder: Option<Proc>, server: Option<Proc>)

  ghost predicate OwnerInv(s: State, w: Witness) {
    && (forall p :: Accountable(s, p) <==> w.owner == Some(p))
    && (s.mem.locked <==> w.owner.Some?)
    && (s.mem.locked ==> s.mem.readers == 0)
  }

  ghost predicate MutexInv(s: State, w: Witness) {
    && (forall p :: InQueueSection(s, p) <==> w.holder == Some(p))
    && (s.mem.muLocked <==> w.holder.Some?)
  }

  ghost predicate ServerInv(s: State, w: Witness) {
    && (forall p :: Serving(s, p) <==> w.server == Some(p))
    && (s.mem.parked <==> w.server.Some?)
  }

  /** What the process inside the queue's critical section has just learnt. */
  predicate SectionInv(s: State, w: Witness) {
    && (s.mem.waiters != [] && !s.mem.parked ==>
          w.holder.Some? && w.holder.value.CallProc? && w.holder.value.c in s.calls
          && (s.calls[w.holder.value.c].ReadParked? || s.calls[w.holder.value.c].SetParked?))
    && (w.holder.Some? && w.holder.value.CallProc? && w.holder.value.c in s.calls ==>
          CallKnows(s.mem, s.calls[w.holder.value.c]))
    && (w.holder.Some? && w.holder.value.HelperProc? && w.holder.value.h in s.helpers ==>
          HelperKnows(s.mem, s.helpers[w.holder.value.h]))
  }

  predicate CallKnows(m: Memory, pc: CallPc) { pc.SetParked? ==> pc.spawn == !m.parked }

  predicate HelperKnows(m: Memory, pc: HelperPc) {
    && (pc.HClear? || pc.HClearLast? ==> m.waiters == [])
    && (pc.HPop? ==> m.waiters != [])
    && (pc.HQueueUnlockExit? || pc.HQueueUnlockLast? ==> !m.parked)
  }

  /** The helper is about to send `c` its token. */
  predicate BeingSent(s: State, w: Witness, c: CallId) {
    && w.holder.Some? && w.holder.value.HelperProc? && w.holder.value.h in s.helpers
    && s.helpers[w.holder.value.h] == HSend(c)
  }

  /** The standing of one call with the queue, the log and its channel. */
  predicate CallStanding(s: State, w: Witness, c: CallId, pc: CallPc) {
    && (BeforeQueue(pc) ==> c !in s.mem.waiters && c !in s.mem.departed)
    && (c in s.mem.waiters ==> Enrolled(pc) && c !in s.mem.departed)
    && (Enrolled(pc) && c !in s.mem.waiters ==> c in s.mem.departed && (c in s.mem.tokens || BeingSent(s, w, c)))
    && (pc.TakeUnlock? || pc.Take? ==> c in s.mem.tokens)
    && (c in s.mem.tokens ==> (Enrolled(pc) && c !in s.mem.waiters) || pc.TakeUnlock? || pc.Take?)
    && (BeingSent(s, w, c) ==> Enrolled(pc) && c !in s.mem.waiters && c !in s.mem.tokens)
  }

  ghost predicate QueueInv(s: State, w: Witness) {
    && NoDup(s.mem.waiters)
    && NoDup(s.mem.departed)
    && (forall c :: c in s.mem.waiters || c in s.mem.departed || c in s.mem.tokens || BeingSent(s, w, c) ==>
        c in s.calls)
    && (forall c :: c in s.calls ==> CallStanding(s, w, c, s.calls[c]))
  }

  ghost predicate Inv(s: State, w: Witness) {
    OwnerInv(s, w) && MutexInv(s, w) && ServerInv(s, w) && SectionInv(s, w) && QueueInv(s, w) && ReleaseInv(s)
  }

  /** How the answerable parties change with one step. */
  function NextWitness(s: State, w: Witness, st: Step): Witness
    requires Enabled(s, st)
  {
    match st
    case MoveCall(c, alt, spawned) => NextCallWitness(s.calls[c], w, c, alt, spawned)
    case MoveHelper(h) => NextHelperWitness(s.helpers[h], w, h)
    case _ => w
  }

  function NextCallWitness(pc: CallPc, w: Witness, c: CallId, alt: nat, spawned: HelperId): Witness {
    match pc
    case BlockingLock => w.(owner := Some(ByCall(c)))
    case TryLock => if alt == 0 then w.(owner := Some(ByCall(c))) else w
    case QueueLock => w.(holder := Some(CallProc(c)))
    case SetParked(spawn) => if spawn then w.(server := Some(CallProc(c))) else w
    case QueueUnlock(_) => w.(holder := None)
    case Spawn => w.(server := Some(HelperProc(spawned)))
    case Select => if alt == 0 then w.(owner := Some(ByCall(c))) else w
    case DeregLock => w.(holder := Some(CallProc(c)))
    case GiveUpUnlock => w.(holder := None)
    case TakeUnlock => w.(holder := None)
    case Take => w.(owner := Some(ByCall(c)))
    case ReleaseTaken => w.(owner := None)
    case ReturnedNil => w.(owner := None)
    case _ => w
  }

  function NextHelperWitness(pc: HelperPc, w: Witness, h: HelperId): Witness {
    match pc
    case HLock => w.(owner := Some(ByHelper(h)))
    case HQueueLock => w.(holder := Some(HelperProc(h)))
    case HClear => w.(server := None)
    case HQueueUnlockExit => w.(holder := None)
    case HRelease => w.(owner := None)
    case HSend(c) => w.(owner := Some(ByToken(c)))
    case HClearLast => w.(server := None)
    case HQueueUnlockLast => w.(holder := None)
    case HQueueUnlockLoop => w.(holder := None)
    case _ => w
  }

  lemma CallKeepsOwner(s: State, w: Witness, st: Step)
    requires st.MoveCall? && OwnerInv(s, w) && Enabled(s, st)
    ensures OwnerInv(Do(s, st), NextWitness(s, w, st))
  {
    assert Accountable(s, ByCall(st.c)) <==> w.owner == Some(ByCall(st.c));
    assert Accountable(s, ByToken(st.c)) <==> w.owner == Some(ByToken(st.c));
  }

  lemma CallKeepsMutex(s: State, w: Witness, st: Step)
    requires st.MoveCall? && MutexInv(s, w) && Enabled(s, st)
    ensures MutexInv(Do(s, st), NextWitness(s, w, st))
  {
    assert InQueueSection(s, CallProc(st.c)) <==> w.holder == Some(CallProc(st.c));
  }

  lemma CallKeepsServer(s: State, w: Witness, st: Step)
    requires st.MoveCall? && ServerInv(s, w) && MutexInv(s, w) && SectionInv(s, w) && Enabled(s, st)
    ensures ServerInv(Do(s, st), NextWitness(s, w, st))
  {
    assert InQueueSection(s, CallProc(st.c)) <==> w.holder == Some(CallProc(st.c));
    assert Serving(s, CallProc(st.c)) <==> w.server == Some(CallProc(st.c));
  }

  lemma HelperKeepsOwner(s: State, w: Witness, st: Step)
    requires st.MoveHelper? && OwnerInv(s, w) && Enabled(s, st)
    ensures OwnerInv(Do(s, st), NextWitness(s, w, st))
  {
    assert Accountable(s, ByHelper(st.h)) <==> w.owner == Some(ByHelper(st.h));
  }

  lemma HelperKeepsMutex(s: State, w: Witness, st: Step)
    requires st.MoveHelper? && MutexInv(s, w) && Enabled(s, st)
    ensures MutexInv(Do(s, st), NextWitness(s, w, st))
  {
    assert InQueueSection(s, HelperProc(st.h)) <==> w.holder == Some(HelperProc(st.h));
  }

  lemma HelperKeepsServer(s: State, w: Witness, st: Step)
    requires st.MoveHelper? && ServerInv(s, w) && Enabled(s, st)
    ensures ServerInv(Do(s, st), NextWitness(s, w, st))
  {
    assert Serving(s, HelperProc(st.h)) <==> w.server == Some(HelperProc(st.h));
  }

  lemma HelperKeepsRelease(s: State, w: Witness, st: Step)
    requires st.MoveHelper? && OwnerInv(s, w) && MutexInv(s, w) && ReleaseInv(s) && Enabled(s, st)
    ensures ReleaseInv(Do(s, st))
  {
    var s' := Do(s, st);
    forall g, h | g in s'.helpers && h in s'.helpers && s'.helpers[g].HRelease?
      ensures !PastSend(s'.helpers[h])
    {
      assert Accountable(s, ByHelper(g)) <==> w.owner == Some(ByHelper(g));
      assert Accountable(s, ByHelper(h)) <==> w.owner == Some(ByHelper(h));
      assert InQueueSection(s, HelperProc(g)) <==> w.holder == Some(HelperProc(g));
      assert InQueueSection(s, HelperProc(h)) <==> w.holder == Some(HelperProc(h));
    }
  }

  lemma CallKeepsSection(s: State, w: Witness, st: Step)
    requires st.MoveCall? && MutexInv(s, w) && SectionInv(s, w) && Enabled(s, st)
    ensures SectionInv(Do(s, st), NextWitness(s, w, st))
  {
    assert InQueueSection(s, CallProc(st.c)) <==> w.holder == Some(CallProc(st.c));
  }

  lemma HelperKeepsSection(s: State, w: Witness, st: Step)
    requires st.MoveHelper? && MutexInv(s, w) && ServerInv(s, w) && SectionInv(s, w) && Enabled(s, st)
    ensures SectionInv(Do(s, st), NextWitness(s, w, st))
  {
    assert InQueueSection(s, HelperProc(st.h)) <==> w.holder == Some(HelperProc(st.h));
  }

  /** What the moving call's own standing rests on. */
  ghost predicate OwnStanding(s: State, w: Witness, c: CallId) {
    && c in s.calls && CallStanding(s, w, c, s.calls[c])
    && (InQueueSection(s, CallProc(c)) <==> w.holder == Some(CallProc(c)))
    && (s.mem.muLocked <==> w.holder.Some?)
  }

  lemma EnrollingKeepsStanding(s: State, w: Witness, st: Step)
    requires st.MoveCall? && Enabled(s, st) && OwnStanding(s, w, st.c)
    requires BeforeQueue(s.calls[st.c]) || s.calls[st.c].ReadParked? || s.calls[st.c].SetParked? ||
             s.calls[st.c].QueueUnlock?
    ensures CallStanding(Do(s, st), NextWitness(s, w, st), st.c, Do(s, st).calls[st.c])
  {
  }

  lemma ResolvingKeepsStanding(s: State, w: Witness, st: Step)
    requires st.MoveCall? && Enabled(s, st) && OwnStanding(s, w, st.c)
    requires !BeforeQueue(s.calls[st.c]) && !s.calls[st.c].ReadParked? && !s.calls[st.c].SetParked? &&
             !s.calls[st.c].QueueUnlock?
    ensures CallStanding(Do(s, st), NextWitness(s, w, st), st.c, Do(s, st).calls[st.c])
  {
  }

  /** The moving call's own standing. */
  lemma CallKeepsOwnStanding(s: State, w: Witness, st: Step)
    requires st.MoveCall? && Enabled(s, st) && OwnStanding(s, w, st.c)
    ensures CallStanding(Do(s, st), NextWitness(s, w, st), st.c, Do(s, st).calls[st.c])
  {
    var pc := s.calls[st.c];
    if BeforeQueue(pc) || pc.ReadParked? || pc.SetParked? || pc.QueueUnlock? {
      EnrollingKeepsStanding(s, w, st);
    } else {
      ResolvingKeepsStanding(s, w, st);
    }
  }

  /** What a call's step leaves alone for every other call. */
  lemma CallMemoryFrame(m: Memory, pc: CallPc, c: CallId, alt: nat, d: CallId)
    requires d != c
    ensures var m' := CallMemory(m, pc, c, alt);
            && (d in m'.waiters <==> d in m.waiters)
            && (d in m'.departed <==> d in m.departed)
            && (d in m'.tokens <==> d in m.tokens)
  {
  }

  lemma CallKeepsOtherStanding(s: State, w: Witness, st: Step, d: CallId)
    requires st.MoveCall? && MutexInv(s, w) && QueueInv(s, w) && Enabled(s, st) && d in s.calls && d != st.c
    ensures CallStanding(Do(s, st), NextWitness(s, w, st), d, s.calls[d])
  {
    assert InQueueSection(s, CallProc(st.c)) <==> w.holder == Some(CallProc(st.c));
    assert CallStanding(s, w, d, s.calls[d]);
    CallMemoryFrame(s.mem, s.calls[st.c], st.c, st.alt, d);
    CallSendFrame(s, w, st, d);
  }

  /** A call's step neither starts nor ends a send by the helper. */
  lemma CallSendFrame(s: State, w: Witness, st: Step, d: CallId)
    requires st.MoveCall? && MutexInv(s, w) && Enabled(s, st)
    ensures BeingSent(Do(s, st), NextWitness(s, w, st), d) <==> BeingSent(s, w, d)
  {
    assert InQueueSection(s, CallProc(st.c)) <==> w.holder == Some(CallProc(st.c));
  }

  lemma AppendNoDup(q: seq<CallId>, c: CallId)
    requires NoDup(q) && c !in q
    ensures NoDup(q + [c])
  {
  }

  lemma CallKeepsLists(s: State, w: Witness, st: Step)
    requires st.MoveCall? && QueueInv(s, w) && Enabled(s, st)
    ensures NoDup(Do(s, st).mem.waiters) && NoDup(Do(s, st).mem.departed)
  {
    var c := st.c;
    assert CallStanding(s, w, c, s.calls[c]);
    if s.calls[c].Append? {
      AppendNoDup(s.mem.waiters, c);
    } else if s.calls[c].Search? && c in s.mem.waiters {
      AppendNoDup(s.mem.departed, c);
    }
  }

  lemma CallKeepsQueue(s: State, w: Witness, st: Step)
    requires st.MoveCall? && MutexInv(s, w) && QueueInv(s, w) && Enabled(s, st)
    ensures QueueInv(Do(s, st), NextWitness(s, w, st))
  {
    var s', w' := Do(s, st), NextWitness(s, w, st);
    CallKeepsLists(s, w, st);
    forall c | c in s'.mem.waiters || c in s'.mem.departed || c in s'.mem.tokens || BeingSent(s', w', c)
      ensures c in s'.calls
    {
      if c != st.c {
        CallMemoryFrame(s.mem, s.calls[st.c], st.c, st.alt, c);
        CallSendFrame(s, w, st, c);
      }
    }
    forall c | c in s'.calls
      ensures CallStanding(s', w', c, s'.calls[c])
    {
      if c == st.c {
        CallKeepsOwnStanding(s, w, st);
      } else {
        CallKeepsOtherStanding(s, w, st, c);
      }
    }
  }

  lemma HelperKeepsLists(s: State, w: Witness, st: Step)
    requires st.MoveHelper? && QueueInv(s, w) && Enabled(s, st)
    ensures NoDup(Do(s, st).mem.waiters) && NoDup(Do(s, st).mem.departed)
  {
    if s.helpers[st.h].HPop? {
      var c := s.mem.waiters[0];
      assert c in s.mem.waiters;
      assert CallStanding(s, w, c, s.calls[c]);
      AppendNoDup(s.mem.departed, c);
    }
  }

  /** The helper takes the first waiter, and is then about to send it its token. */
  lemma PopKeepsStanding(s: State, w: Witness, st: Step, c: CallId)
    requires st.MoveHelper? && Enabled(s, st) && s.helpers[st.h].HPop? && w.holder == Some(HelperProc(st.h))
    requires c in s.calls && CallStanding(s, w, c, s.calls[c]) && NoDup(s.mem.waiters)
    ensures CallStanding(Do(s, st), NextWitness(s, w, st), c, s.calls[c])
  {
    var q := s.mem.waiters;
    assert q == [q[0]] + q[1..];
    assert c in q <==> c == q[0] || c in q[1..];
    assert q[0] !in q[1..];
  }

  lemma OtherHelperStepKeepsStanding(s: State, w: Witness, st: Step, c: CallId)
    requires st.MoveHelper? && Enabled(s, st) && !s.helpers[st.h].HPop?
    requires InQueueSection(s, HelperProc(st.h)) <==> w.holder == Some(HelperProc(st.h))
    requires c in s.calls && CallStanding(s, w, c, s.calls[c]) && (s.mem.muLocked <==> w.holder.Some?)
    ensures CallStanding(Do(s, st), NextWitness(s, w, st), c, s.calls[c])
  {
  }

  lemma HelperKeepsStanding(s: State, w: Witness, st: Step, c: CallId)
    requires st.MoveHelper? && MutexInv(s, w) && QueueInv(s, w) && Enabled(s, st) && c in s.calls
    ensures CallStanding(Do(s, st), NextWitness(s, w, st), c, s.calls[c])
  {
    assert InQueueSection(s, HelperProc(st.h)) <==> w.holder == Some(HelperProc(st.h));
    assert CallStanding(s, w, c, s.calls[c]);
    if s.helpers[st.h].HPop? {
      PopKeepsStanding(s, w, st, c);
    } else {
      OtherHelperStepKeepsStanding(s, w, st, c);
    }
  }

  lemma HelperKeepsQueue(s: State, w: Witness, st: Step)
    requires st.MoveHelper? && MutexInv(s, w) && QueueInv(s, w) && Enabled(s, st)
    ensures QueueInv(Do(s, st), NextWitness(s, w, st))
  {
    var s', w' := Do(s, st), NextWitness(s, w, st);
    HelperKeepsLists(s, w, st);
    assert InQueueSection(s, HelperProc(st.h)) <==> w.holder == Some(HelperProc(st.h));
    forall c | c in s'.calls
      ensures CallStanding(s', w', c, s'.calls[c])
    {
      HelperKeepsStanding(s, w, st, c);
    }
  }

  /** Every step keeps the whole invariant. */
  lemma StepKeepsInv(s: State, w: Witness, st: Step)
    requires Inv(s, w) && Enabled(s, st)
    ensures Inv(Do(s, st), NextWitness(s, w, st))
  {
    match st
    case MoveCall(_, _, _) =>
      CallKeepsOwner(s, w, st);
      CallKeepsMutex(s, w, st);
      CallKeepsServer(s, w, st);
      CallKeepsSection(s, w, st);
      CallKeepsQueue(s, w, st);
    case MoveHelper(_) =>
      HelperKeepsOwner(s, w, st);
      HelperKeepsMutex(s, w, st);
      HelperKeepsServer(s, w, st);
      HelperKeepsRelease(s, w, st);
      HelperKeepsSection(s, w, st);
      HelperKeepsQueue(s, w, st);
    case NewCall(c) =>
      NewCallKeepsInv(s, w, c);
    case ReaderLock =>
      ReaderKeepsInv(s, w, s.mem.readers + 1);
    case ReaderUnlock =>
      ReaderKeepsInv(s, w, s.mem.readers - 1);
  }

  lemma NewCallKeepsInv(s: State, w: Witness, c: CallId)
    requires Inv(s, w) && c !in s.calls
    ensures Inv(s.(calls := s.calls[c := Entry]), w)
  {
    var s' := s.(calls := s.calls[c := Entry]);
    assert forall p :: Accountable(s', p) <==> Accountable(s, p);
    assert forall p :: InQueueSection(s', p) <==> InQueueSection(s, p);
    assert forall p :: Serving(s', p) <==> Serving(s, p);
    forall d | d in s'.calls
      ensures CallStanding(s', w, d, s'.calls[d])
    {
      if d != c {
        assert CallStanding(s, w, d, s.calls[d]);
      }
    }
  }

  lemma ReaderKeepsInv(s: State, w: Witness, n: nat)
    requires Inv(s, w) && !s.mem.locked
    ensures Inv(s.(mem := s.mem.(readers := n)), w)
  {
    var s' := s.(mem := s.mem.(readers := n));
    assert forall p :: Accountable(s', p) <==> Accountable(s, p);
    assert forall p :: InQueueSection(s', p) <==> InQueueSection(s, p);
    assert forall p :: Serving(s', p) <==> Serving(s, p);
    forall d | d in s'.calls
      ensures CallStanding(s', w, d, s'.calls[d])
    {
      assert CallStanding(s, w, d, s.calls[d]);
    }
  }
}
