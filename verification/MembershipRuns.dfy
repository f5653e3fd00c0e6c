/** What every step of the membership machine keeps, and what whole runs guarantee. */
module MembershipRuns {
  import opened Base
  import opened Membership

  // ---------------------------------------------------------------- slots and commits

  lemma CommitSlot(m: Model, n: Name, e: Effect, x: Name)
    ensures SlotOf(Commit(m, n, e), x) == if x == n then e.slot else SlotOf(m, x)
  {
  }

  lemma CommitNothing(m: Model, n: Name)
    ensures Commit(m, n, Nothing(SlotOf(m, n), m.counter)) == m
  {
  }

  // ---------------------------------------------------------------- invariant

  /** A name has a suspicion timer exactly when its record is suspect, since the moment the timer captured. */
  predicate TimerOK(s: Slot) {
    && (s.timer.Some? <==> s.rec.Some? && s.rec.value.node.state.Suspect?)
    && (s.timer.Some? ==> s.timer.value.change == s.rec.value.change)
  }

  /**
   Until it leaves, the local node is in the table, alive, at the counter's incarnation; afterwards it is gone or
   left.
   */
  predicate LocalOK(c: Config, left: bool, s: Slot, counter: u32) {
    if left then s.rec.Some? ==> DeadOrLeft(s.rec.value)
    else
      && s.rec.Some?
      && s.rec.value.node.state.Alive?
      && s.rec.value.inc == counter
      && s.rec.value.node.vsn == c.vsn
  }

  /** The members and their metadata, as `Members` reports them. */
  function MembersMeta(table: map<Name, Rec>): map<Name, Bytes> {
    map n | n in table && !DeadOrLeft(table[n]) :: table[n].node.meta
  }

  /**
   Fold the committed events. A join of a present member, or an update or leave
   of an absent one, has no meaning: so a log with a meaning is, for every name,
   cycles of join, updates, leave.
   */
  function Replay(es: seq<Event>): Option<map<Name, Bytes>> {
    if es == [] then Some(map[])
    else
      var before := Replay(es[..|es| - 1]);
      if before.None? then None else ReplayOne(before.value, es[|es| - 1])
  }

  function ReplayOne(ms: map<Name, Bytes>, e: Event): Option<map<Name, Bytes>> {
    match e
    case Join(n, node) => if n in ms then None else Some(ms[n := node.meta])
    case Update(n, node) => if n in ms then Some(ms[n := node.meta]) else None
    case Leave(n, _) => if n in ms then Some(ms - {n}) else None
    case Conflict(_, _, _) => Some(ms)
  }

  ghost predicate Inv(c: Config, m: Model) {
    && (!m.shutdown ==> forall n :: TimerOK(SlotOf(m, n)))
    && LocalOK(c, m.left, SlotOf(m, c.name), m.counter)
    && (c.hasEvents ==> Replay(m.events) == Some(MembersMeta(m.table)))
  }

  // ---------------------------------------------------------------- runs

  /**
   What the listeners may have learnt before setAlive: peers, timers and events,
   but nothing under the local name.
   */
  ghost predicate BeforeStart(c: Config, m: Model) {
    && !m.left && !m.shutdown && c.name !in m.table
    && (forall n :: TimerOK(SlotOf(m, n)))
    && (c.hasEvents ==> Replay(m.events) == Some(MembersMeta(m.table)))
  }

  ghost predicate IsStart(c: Config, m: Model) {
    exists m0, addr, port, meta, env: Env ::
      BeforeStart(c, m0) && env.ipAllowed(addr) && m == SetAlive(c, m0, addr, port, meta, env)
  }

  ghost predicate Linked(c: Config, ms: seq<Model>, steps: seq<Step>, i: nat)
    requires i < |steps| < |ms|
  {
    CounterRoom(ms[i], steps[i]) && ms[i + 1] == Next(c, ms[i], steps[i])
  }

  /** A run from a successful setAlive, in which UpdateNode never wraps the counter. */
  ghost predicate IsRun(c: Config, ms: seq<Model>, steps: seq<Step>) {
    && ProperVersions(c.vsn)
    && |ms| == |steps| + 1
    && IsStart(c, ms[0])
    && forall i: nat :: i < |steps| ==> Linked(c, ms, steps, i)
  }

  // ---------------------------------------------------------------- effects

  function MetaOf(r: Option<Rec>): Option<Bytes> {
    if r.Some? && !DeadOrLeft(r.value) then Some(r.value.node.meta) else None
  }

  /** The events account for the change of membership of one name. */
  predicate Explains(n: Name, before: Option<Bytes>, es: seq<Event>, after: Option<Bytes>) {
    if es == [] then before == after
    else
      |es| == 1 &&
      match es[0]
      case Join(x, node) => x == n && before.None? && after == Some(node.meta)
      case Update(x, node) => x == n && before.Some? && after == Some(node.meta)
      case Leave(x, _) => x == n && before.Some? && after.None?
      case Conflict(_, _, _) => before == after
  }

  /** What an effect on one slot keeps. */
  ghost predicate Keeps(c: Config, left: bool, n: Name, slot: Slot, counter: u32, e: Effect) {
    && TimerOK(e.slot)
    && (n == c.name ==> LocalOK(c, left, e.slot, e.counter))
    && (n != c.name ==> e.counter == counter)
    && (c.hasEvents ==> Explains(n, MetaOf(slot.rec), e.events, MetaOf(e.slot.rec)))
  }

  lemma AliveCommitKeeps(c: Config, left: bool, slot: Slot, counter: u32, a: AliveMsg, takeover: bool, now: Time)
    requires slot.rec.Some? && ParseVsn(a.vsn).Some? && TimerOK(slot)
    requires a.node == c.name ==> !left && LocalOK(c, left, slot, counter)
    ensures Keeps(c, left, a.node, slot, counter, AliveCommit(c, slot, counter, a, false, takeover, now))
  {
  }

  lemma AliveKeeps(c: Config, left: bool, slot: Slot, counter: u32, a: AliveMsg, env: Env)
    requires TimerOK(slot)
    requires a.node == c.name ==> LocalOK(c, left, slot, counter)
    ensures Keeps(c, left, a.node, slot, counter, AliveEffect(c, left, slot, counter, a, false, env))
  {
    if ParseVsn(a.vsn).Some? && !(left && a.node == c.name) {
      if slot.rec.None? {
        var s := slot.(rec := Some(FirstRec(a)));
        AliveCommitKeeps(c, left, s, counter, a, false, env.now);
      } else {
        AliveCommitKeeps(c, left, slot, counter, a, false, env.now);
        AliveCommitKeeps(c, left, slot, counter, a, true, env.now);
      }
    }
  }

  lemma SuspectKeeps(c: Config, left: bool, size: nat, slot: Slot, counter: u32, s: SuspectMsg, now: Time)
    requires TimerOK(slot)
    requires s.node == c.name ==> LocalOK(c, left, slot, counter)
    ensures Keeps(c, left, s.node, slot, counter, SuspectEffect(c, size, slot, counter, s, now))
  {
  }

  lemma DeadKeeps(c: Config, left: bool, slot: Slot, counter: u32, d: DeadMsg, now: Time)
    requires TimerOK(slot)
    requires d.node == c.name ==> LocalOK(c, left, slot, counter)
    ensures Keeps(c, left, d.node, slot, counter, DeadEffect(c, left, slot, counter, d, now))
  {
  }

  // ---------------------------------------------------------------- steps

  lemma ReplaySnoc(es: seq<Event>, e: Event)
    ensures Replay(es + [e]) == (if Replay(es).None? then None else ReplayOne(Replay(es).value, e))
  {
  }

  lemma MembersMetaStored(table: map<Name, Rec>, n: Name, rec: Option<Rec>)
    ensures MembersMeta(Store(table, n, rec)) == Store(MembersMeta(table), n, MetaOf(rec))
  {
  }

  /** An event that explains a change of one name's metadata replays to that change. */
  lemma ReplayExplained(ms: map<Name, Bytes>, n: Name, e: Event, after: Option<Bytes>)
    requires Explains(n, Lookup(ms, n), [e], after)
    ensures ReplayOne(ms, e) == Some(Store(ms, n, after))
  {
    assert Store(ms, n, Lookup(ms, n)) == ms;
  }

  lemma MetaLookup(table: map<Name, Rec>, n: Name)
    ensures Lookup(MembersMeta(table), n) == MetaOf(Lookup(table, n))
  {
  }

  lemma CommitKeepsLog(c: Config, m: Model, n: Name, e: Effect)
    requires Replay(m.events) == Some(MembersMeta(m.table))
    requires Explains(n, MetaOf(Lookup(m.table, n)), e.events, MetaOf(e.slot.rec))
    ensures Replay(Commit(m, n, e).events) == Some(MembersMeta(Commit(m, n, e).table))
  {
    var ms := MembersMeta(m.table);
    MembersMetaStored(m.table, n, e.slot.rec);
    MetaLookup(m.table, n);
    if e.events == [] {
      assert m.events + e.events == m.events;
      assert Store(ms, n, Lookup(ms, n)) == ms;
    } else {
      assert e.events == [e.events[0]];
      ReplaySnoc(m.events, e.events[0]);
      ReplayExplained(ms, n, e.events[0], MetaOf(e.slot.rec));
    }
  }

  lemma CommitKeepsInv(c: Config, m: Model, n: Name, e: Effect)
    requires Inv(c, m) && Keeps(c, m.left, n, SlotOf(m, n), m.counter, e)
    ensures Inv(c, Commit(m, n, e))
  {
    forall x ensures SlotOf(Commit(m, n, e), x) == if x == n then e.slot else SlotOf(m, x) {
      CommitSlot(m, n, e, x);
    }
    if c.hasEvents {
      CommitKeepsLog(c, m, n, e);
    }
  }

  lemma ExpireKeepsInv(c: Config, m: Model, n: Name, change: Time, env: Env)
    requires Inv(c, m)
    ensures Inv(c, Expire(c, m, n, change, env))
  {
    if !m.shutdown {
      var slot := SlotOf(m, n);
      if slot.rec.Some? {
        DeadKeeps(c, m.left, slot, m.counter, DeadMsg(slot.rec.value.inc, n, c.name), env.now);
      }
      CommitKeepsInv(c, m, n, ExpireEffect(c, m.left, slot, m.counter, n, change, env.now));
    }
  }

  lemma ReapKeepsInv(c: Config, m: Model, now: Time)
    requires Inv(c, m)
    ensures Inv(c, Reap(c, m, now))
  {
    var m' := Reap(c, m, now);
    forall n ensures m.shutdown || TimerOK(SlotOf(m', n)) {
      assert m.shutdown || TimerOK(SlotOf(m, n));
    }
    assert MembersMeta(m'.table) == MembersMeta(m.table);
  }

  lemma LeaveKeepsInv(c: Config, m: Model, env: Env)
    requires Inv(c, m)
    ensures Inv(c, LeaveCluster(c, m, env))
    ensures !m.shutdown && !m.left ==> LeaveCluster(c, m, env).left && DeadOrLeft(LeaveCluster(c, m, env).table[c.name])
  {
    if !m.shutdown && !m.left {
      var d := DeadMsg(m.table[c.name].inc, c.name, c.name);
      var e := DeadEffect(c, true, SlotOf(m, c.name), m.counter, d, env.now);
      var m1 := m.(left := true);
      assert SlotOf(m1, c.name) == SlotOf(m, c.name);
      assert TimerOK(SlotOf(m, c.name));
      forall x ensures SlotOf(Commit(m1, c.name, e), x) == if x == c.name then e.slot else SlotOf(m, x) {
        CommitSlot(m1, c.name, e, x);
      }
      if c.hasEvents {
        CommitKeepsLog(c, m1, c.name, e);
      }
    }
  }

  lemma UpdateKeepsInv(c: Config, m: Model, meta: Bytes, env: Env)
    requires Inv(c, m) && ProperVersions(c.vsn) && m.counter < MaxUint32
    ensures Inv(c, UpdateLocal(c, m, meta, env))
  {
    if !m.shutdown && !m.left {
      var me := m.table[c.name];
      var a := AliveMsg(m.counter + 1, c.name, me.node.addr, me.node.port, meta, VsnBytes(c.vsn));
      IPEqualIsEquivalence(a.addr, a.addr, a.addr);
      var m1 := m.(counter := m.counter + 1);
      var slot := SlotOf(m, c.name);
      assert SlotOf(m1, c.name) == slot && TimerOK(slot);
      var e := AliveCommit(c, slot, m1.counter, a, true, false, env.now);
      assert e == AliveEffect(c, false, slot, m1.counter, a, true, env);
      forall x ensures SlotOf(Commit(m1, c.name, e), x) == if x == c.name then e.slot else SlotOf(m, x) {
        CommitSlot(m1, c.name, e, x);
      }
      if c.hasEvents {
        CommitKeepsLog(c, m1, c.name, e);
      }
    }
  }

  /** At most one event was committed. */
  predicate OneMoreAtMost(m: Model, m': Model) { m.events <= m'.events && |m'.events| <= |m.events| + 1 }

  lemma CommitAddsAtMostOne(m: Model, n: Name, e: Effect)
    requires |e.events| <= 1
    ensures OneMoreAtMost(m, Commit(m, n, e))
  {
  }

  lemma AliveCommitsAtMostOne(c: Config, m: Model, a: AliveMsg, bootstrap: bool, env: Env)
    ensures OneMoreAtMost(m, AliveLocked(c, m, a, bootstrap, env))
  {
    CommitAddsAtMostOne(m, a.node, AliveEffect(c, m.left, SlotOf(m, a.node), m.counter, a, bootstrap, env));
  }

  lemma DeadCommitsAtMostOne(c: Config, m: Model, d: DeadMsg, env: Env)
    ensures OneMoreAtMost(m, DeadLocked(c, m, d, env))
  {
    CommitAddsAtMostOne(m, d.node, DeadEffect(c, m.left, SlotOf(m, d.node), m.counter, d, env.now));
  }

  lemma ExpireCommitsAtMostOne(c: Config, m: Model, n: Name, change: Time, env: Env)
    ensures OneMoreAtMost(m, Expire(c, m, n, change, env))
  {
    CommitAddsAtMostOne(m, n, ExpireEffect(c, m.left, SlotOf(m, n), m.counter, n, change, env.now));
  }

  lemma SuspectCommitsAtMostOne(c: Config, m: Model, s: SuspectMsg, env: Env)
    ensures OneMoreAtMost(m, SuspectNode(c, m, s, env))
  {
    CommitAddsAtMostOne(m, s.node, SuspectEffect(c, |m.table|, SlotOf(m, s.node), m.counter, s, env.now));
  }

  /** No critical section commits more than one event: so the receipt made for one is attached at most once. */
  lemma StepCommitsAtMostOne(c: Config, m: Model, st: Step)
    ensures OneMoreAtMost(m, Next(c, m, st))
  {
    match st
    case AliveStep(a, env) => AliveCommitsAtMostOne(c, m, a, false, env);
    case SuspectStep(s, env) => SuspectCommitsAtMostOne(c, m, s, env);
    case DeadStep(d, env) => DeadCommitsAtMostOne(c, m, d, env);
    case ExpireStep(n, change, env) => ExpireCommitsAtMostOne(c, m, n, change, env);
    case ReapStep(_) =>
    case LeaveStep(env) =>
      if c.name in m.table {
        DeadCommitsAtMostOne(c, m.(left := true), DeadMsg(m.table[c.name].inc, c.name, c.name), env);
      }
    case UpdateStep(meta, env) =>
      if c.name in m.table {
        var inc, me := Add32(m.counter, 1), m.table[c.name].node;
        var a := AliveMsg(inc, c.name, me.addr, me.port, meta, VsnBytes(c.vsn));
        AliveCommitsAtMostOne(c, m.(counter := inc), a, true, env);
      }
    case ShutdownStep =>
  }

  /** Every critical section keeps the invariant. */
  lemma StepKeepsInv(c: Config, m: Model, st: Step)
    requires Inv(c, m) && ProperVersions(c.vsn) && CounterRoom(m, st)
    ensures Inv(c, Next(c, m, st))
  {
    match st
    case AliveStep(a, env) =>
      if !m.shutdown {
        assert TimerOK(SlotOf(m, a.node));
        AliveKeeps(c, m.left, SlotOf(m, a.node), m.counter, a, env);
        CommitKeepsInv(c, m, a.node, AliveEffect(c, m.left, SlotOf(m, a.node), m.counter, a, false, env));
      }
    case SuspectStep(s, env) =>
      if !m.shutdown {
        assert TimerOK(SlotOf(m, s.node));
        SuspectKeeps(c, m.left, |m.table|, SlotOf(m, s.node), m.counter, s, env.now);
        CommitKeepsInv(c, m, s.node, SuspectEffect(c, |m.table|, SlotOf(m, s.node), m.counter, s, env.now));
      }
    case DeadStep(d, env) =>
      if !m.shutdown {
        assert TimerOK(SlotOf(m, d.node));
        DeadKeeps(c, m.left, SlotOf(m, d.node), m.counter, d, env.now);
        CommitKeepsInv(c, m, d.node, DeadEffect(c, m.left, SlotOf(m, d.node), m.counter, d, env.now));
      }
    case ExpireStep(n, change, env) => ExpireKeepsInv(c, m, n, change, env);
    case ReapStep(env) => ReapKeepsInv(c, m, env.now);
    case LeaveStep(env) => LeaveKeepsInv(c, m, env);
    case UpdateStep(meta, env) => UpdateKeepsInv(c, m, meta, env);
    case ShutdownStep =>
  }

  lemma StartHasInv(c: Config, m: Model)
    requires IsStart(c, m) && ProperVersions(c.vsn)
    ensures Inv(c, m)
  {
    var m0, addr, port, meta, env: Env :|
      BeforeStart(c, m0) && env.ipAllowed(addr) && m == SetAlive(c, m0, addr, port, meta, env);
    SetAliveHasInv(c, m0, addr, port, meta, env);
  }

  lemma SetAliveHasInv(c: Config, m0: Model, addr: IP, port: u16, meta: Bytes, env: Env)
    requires BeforeStart(c, m0) && env.ipAllowed(addr) && ProperVersions(c.vsn)
    ensures Inv(c, SetAlive(c, m0, addr, port, meta, env))
  {
    var inc := Add32(m0.counter, 1);
    var m1 := m0.(counter := inc);
    var a := AliveMsg(inc, c.name, addr, port, meta, VsnBytes(c.vsn));
    var e := AliveEffect(c, false, SlotOf(m1, c.name), inc, a, true, env);
    assert SlotOf(m1, c.name) == SlotOf(m0, c.name) && TimerOK(SlotOf(m0, c.name));
    forall x ensures SlotOf(Commit(m1, c.name, e), x) == if x == c.name then e.slot else SlotOf(m0, x) {
      CommitSlot(m1, c.name, e, x);
    }
    if c.hasEvents {
      CommitKeepsLog(c, m1, c.name, e);
    }
  }

  /** A step of the listeners and timers about somebody else. */
  predicate Foreign(c: Config, st: Step) {
    match st
    case AliveStep(a, _) => a.node != c.name
    case SuspectStep(s, _) => s.node != c.name
    case DeadStep(d, _) => d.node != c.name
    case ExpireStep(n, _, _) => n != c.name
    case ReapStep(_) => true
    case _ => false
  }

  lemma EmptyIsBeforeStart(c: Config)
    ensures BeforeStart(c, Empty)
  {
    assert MembersMeta(Empty.table) == map[];
  }

  lemma CommitKeepsBeforeStart(c: Config, m: Model, n: Name, e: Effect)
    requires BeforeStart(c, m) && n != c.name && Keeps(c, false, n, SlotOf(m, n), m.counter, e)
    ensures BeforeStart(c, Commit(m, n, e))
  {
    forall x ensures SlotOf(Commit(m, n, e), x) == if x == n then e.slot else SlotOf(m, x) {
      CommitSlot(m, n, e, x);
    }
    assert SlotOf(Commit(m, n, e), c.name) == SlotOf(m, c.name);
    if c.hasEvents {
      CommitKeepsLog(c, m, n, e);
    }
  }

  /** Whatever the listeners take in about other nodes, setAlive still finds what a run may start from. */
  lemma ForeignKeepsBeforeStart(c: Config, m: Model, st: Step)
    requires BeforeStart(c, m) && Foreign(c, st)
    ensures BeforeStart(c, Next(c, m, st))
  {
    match st
    case AliveStep(a, env) =>
      assert TimerOK(SlotOf(m, a.node));
      AliveKeeps(c, false, SlotOf(m, a.node), m.counter, a, env);
      CommitKeepsBeforeStart(c, m, a.node, AliveEffect(c, false, SlotOf(m, a.node), m.counter, a, false, env));
    case SuspectStep(s, env) =>
      assert TimerOK(SlotOf(m, s.node));
      SuspectKeeps(c, false, |m.table|, SlotOf(m, s.node), m.counter, s, env.now);
      CommitKeepsBeforeStart(c, m, s.node, SuspectEffect(c, |m.table|, SlotOf(m, s.node), m.counter, s, env.now));
    case DeadStep(d, env) =>
      assert TimerOK(SlotOf(m, d.node));
      DeadKeeps(c, false, SlotOf(m, d.node), m.counter, d, env.now);
      CommitKeepsBeforeStart(c, m, d.node, DeadEffect(c, false, SlotOf(m, d.node), m.counter, d, env.now));
    case ExpireStep(n, change, env) =>
      var slot := SlotOf(m, n);
      assert TimerOK(slot);
      if slot.rec.Some? {
        DeadKeeps(c, false, slot, m.counter, DeadMsg(slot.rec.value.inc, n, c.name), env.now);
      }
      CommitKeepsBeforeStart(c, m, n, ExpireEffect(c, false, slot, m.counter, n, change, env.now));
    case ReapStep(env) => ReapKeepsBeforeStart(c, m, env.now);
    case _ =>
  }

  lemma ReapKeepsBeforeStart(c: Config, m: Model, now: Time)
    requires BeforeStart(c, m)
    ensures BeforeStart(c, Reap(c, m, now))
  {
    var m' := Reap(c, m, now);
    forall n ensures TimerOK(SlotOf(m', n)) {
      assert TimerOK(SlotOf(m, n));
    }
    assert MembersMeta(m'.table) == MembersMeta(m.table);
  }

  /** The listeners' work on a fresh instance, before setAlive, leads to nothing else. */
  lemma {:induction false} ListenersReachStart(c: Config, ms: seq<Model>, steps: seq<Step>, i: nat)
    requires |ms| == |steps| + 1 && ms[0] == Empty && i < |ms|
    requires forall k :: 0 <= k < |steps| ==> Foreign(c, steps[k]) && ms[k + 1] == Next(c, ms[k], steps[k])
    ensures BeforeStart(c, ms[i])
  {
    if i == 0 {
      EmptyIsBeforeStart(c);
    } else {
      ListenersReachStart(c, ms, steps, i - 1);
      assert ms[i - 1 + 1] == Next(c, ms[i - 1], steps[i - 1]);
      ForeignKeepsBeforeStart(c, ms[i - 1], steps[i - 1]);
    }
  }

  lemma {:induction false} RunsKeepInv(c: Config, ms: seq<Model>, steps: seq<Step>, i: nat)
    requires IsRun(c, ms, steps) && i < |ms|
    ensures Inv(c, ms[i])
  {
    if i == 0 {
      StartHasInv(c, ms[0]);
    } else {
      RunsKeepInv(c, ms, steps, i - 1);
      assert Linked(c, ms, steps, i - 1);
      StepKeepsInv(c, ms[i - 1], steps[i - 1]);
    }
  }

  // ---------------------------------------------------------------- the event log

  /** In any run with an event delegate, replaying the committed events gives exactly the members and their metadata. */
  lemma EventLogIsFaithful(c: Config, ms: seq<Model>, steps: seq<Step>, i: nat)
    requires IsRun(c, ms, steps) && i < |ms| && c.hasEvents
    ensures Replay(ms[i].events) == Some(MembersMeta(ms[i].table))
  {
    RunsKeepInv(c, ms, steps, i);
  }

  /** What the log says about one name. */
  datatype Kind = Joined | Updated | Departed

  function KindFor(e: Event, n: Name): seq<Kind> {
    match e
    case Join(x, _) => if x == n then [Joined] else []
    case Update(x, _) => if x == n then [Updated] else []
    case Leave(x, _) => if x == n then [Departed] else []
    case Conflict(_, _, _) => []
  }

  function Projected(es: seq<Event>, n: Name): seq<Kind> {
    if es == [] then [] else Projected(es[..|es| - 1], n) + KindFor(es[|es| - 1], n)
  }

  /** The last cycle is still open. */
  predicate Open(ks: seq<Kind>) { ks != [] && !ks[|ks| - 1].Departed? }

  /** Repeated cycles of join, any number of updates, leave: each event is a join exactly when no cycle is open. */
  predicate Cycles(ks: seq<Kind>) {
    ks != [] ==> var before := ks[..|ks| - 1]; Cycles(before) && (ks[|ks| - 1].Joined? <==> !Open(before))
  }

  lemma CyclesSnoc(ks: seq<Kind>, k: Kind)
    ensures Cycles(ks + [k]) <==> Cycles(ks) && (k.Joined? <==> !Open(ks))
  {
    assert (ks + [k])[..|ks|] == ks;
  }

  /** An event about n can be folded exactly when it continues the cycles of n. */
  lemma OwnEventFolds(ms: map<Name, Bytes>, e: Event, ks: seq<Kind>, n: Name)
    requires Cycles(ks) && (n in ms <==> Open(ks)) && !e.Conflict? && e.name == n
    ensures ReplayOne(ms, e).Some? <==> Cycles(ks + KindFor(e, n))
    ensures ReplayOne(ms, e).Some? ==> (n in ReplayOne(ms, e).value <==> Open(ks + KindFor(e, n)))
  {
    var k := KindOf(e);
    assert KindFor(e, n) == [k];
    CyclesSnoc(ks, k);
    FoldsByKind(ms, e);
    assert Open(ks + [k]) <==> !k.Departed?;
  }

  function KindOf(e: Event): Kind
    requires !e.Conflict?
  {
    if e.Join? then Joined else if e.Update? then Updated else Departed
  }

  /** A join folds exactly when its name is absent, anything else exactly when it is present. */
  lemma FoldsByKind(ms: map<Name, Bytes>, e: Event)
    requires !e.Conflict?
    ensures ReplayOne(ms, e).Some? <==> (KindOf(e).Joined? <==> e.name !in ms)
    ensures ReplayOne(ms, e).Some? ==> (e.name in ReplayOne(ms, e).value <==> !KindOf(e).Departed?)
  {
  }

  /** Any other event leaves n as it is. */
  lemma OtherEventFolds(ms: map<Name, Bytes>, e: Event, ks: seq<Kind>, n: Name)
    requires e.Conflict? || e.name != n
    ensures ks + KindFor(e, n) == ks
    ensures ReplayOne(ms, e).Some? ==> (n in ReplayOne(ms, e).value <==> n in ms)
  {
  }

  lemma KindForAtMostOne(e: Event, n: Name, ks: seq<Kind>)
    requires Cycles(ks + KindFor(e, n))
    ensures Cycles(ks)
  {
    if KindFor(e, n) == [] {
      assert ks + [] == ks;
    } else {
      CyclesSnoc(ks, KindFor(e, n)[0]);
    }
  }

  /** The names the log folds to are those whose cycles are open, and it folds exactly when all are cycles. */
  ghost predicate FoldMatches(es: seq<Event>, n: Name) {
    Replay(es).Some? ==> Cycles(Projected(es, n)) && (n in Replay(es).value <==> Open(Projected(es, n)))
  }

  lemma FoldMatchesNext(es: seq<Event>, n: Name)
    requires es != [] && FoldMatches(es[..|es| - 1], n)
    ensures FoldMatches(es, n)
    ensures Replay(es[..|es| - 1]).Some? && Replay(es).None? && n == es[|es| - 1].name ==> !Cycles(Projected(es, n))
  {
    var p, e := es[..|es| - 1], es[|es| - 1];
    if Replay(p).Some? {
      if e.Conflict? || e.name != n {
        OtherEventFolds(Replay(p).value, e, Projected(p, n), n);
      } else {
        OwnEventFolds(Replay(p).value, e, Projected(p, n), n);
      }
    }
  }

  lemma {:induction false} FoldsToOpen(es: seq<Event>, n: Name)
    ensures FoldMatches(es, n)
  {
    if es != [] {
      FoldsToOpen(es[..|es| - 1], n);
      FoldMatchesNext(es, n);
    }
  }

  /** A log that does not fold breaks the cycles of some name. */
  lemma {:induction false} BrokenCycle(es: seq<Event>) returns (n: Name)
    requires Replay(es).None?
    ensures !Cycles(Projected(es, n))
  {
    var p, e := es[..|es| - 1], es[|es| - 1];
    if Replay(p).Some? {
      n := e.name;
      FoldsToOpen(p, n);
      FoldMatchesNext(es, n);
    } else {
      n := BrokenCycle(p);
      if Cycles(Projected(es, n)) {
        KindForAtMostOne(e, n, Projected(p, n));
      }
    }
  }

  /** The log folds exactly when every name's events are join, update*, leave cycles; open cycles are the members. */
  lemma FoldsIffCycles(es: seq<Event>)
    ensures Replay(es).Some? <==> forall n :: Cycles(Projected(es, n))
    ensures Replay(es).Some? ==> forall n :: n in Replay(es).value <==> Open(Projected(es, n))
  {
    if Replay(es).None? {
      var n := BrokenCycle(es);
    } else {
      forall n ensures Cycles(Projected(es, n)) && (n in Replay(es).value <==> Open(Projected(es, n))) {
        FoldsToOpen(es, n);
      }
    }
  }

  /** In any run each node's events are join, update*, leave cycles, and the open ones are the members. */
  lemma EventsAreCycles(c: Config, ms: seq<Model>, steps: seq<Step>, i: nat, n: Name)
    requires IsRun(c, ms, steps) && i < |ms| && c.hasEvents
    ensures Cycles(Projected(ms[i].events, n))
    ensures Open(Projected(ms[i].events, n)) <==> n in ms[i].table && !DeadOrLeft(ms[i].table[n])
  {
    EventLogIsFaithful(c, ms, steps, i);
    FoldsIffCycles(ms[i].events);
  }

  // ---------------------------------------------------------------- timers

  /** Before shutdown a name has a timer exactly when its record is suspect, with that timer's change time. */
  lemma TimersMatchSuspects(c: Config, ms: seq<Model>, steps: seq<Step>, i: nat, n: Name)
    requires IsRun(c, ms, steps) && i < |ms| && !ms[i].shutdown
    ensures n in ms[i].timers <==> n in ms[i].table && ms[i].table[n].node.state.Suspect?
    ensures n in ms[i].timers ==> ms[i].timers[n].change == ms[i].table[n].change
  {
    RunsKeepInv(c, ms, steps, i);
    assert TimerOK(SlotOf(ms[i], n));
  }

  /** The timer the table currently holds for a name was armed at that change time. */
  predicate IsCurrent(m: Model, n: Name, change: Time) { n in m.timers && m.timers[n].change == change }

  /** An expiry callback kills the node if its timer is still the current one, and otherwise changes nothing at all. */
  lemma ExpiryActsIffCurrent(c: Config, m: Model, n: Name, change: Time, env: Env)
    requires Inv(c, m) && !m.shutdown
    ensures IsCurrent(m, n, change) ==>
              && n in Expire(c, m, n, change, env).table
              && Expire(c, m, n, change, env).table[n].node.state.Dead?
              && n !in Expire(c, m, n, change, env).timers
    ensures !IsCurrent(m, n, change) ==> Expire(c, m, n, change, env) == m
  {
  }

  // ---------------------------------------------------------------- incarnations

  /** A refutation beats both the accusation and the old incarnation exactly when neither is the last 32-bit value. */
  lemma RefuteBeatsIff(counter: u32, accused: u32)
    ensures RefuteInc(counter, accused) > accused <==> accused < MaxUint32
    ensures RefuteInc(counter, accused) > accused && RefuteInc(counter, accused) > counter <==>
              accused < MaxUint32 && counter < MaxUint32
  {
  }

  /** UpdateNode keeps the local record at the counter exactly when the counter has room. */
  lemma UpdateKeepsLocalIff(c: Config, m: Model, meta: Bytes, env: Env)
    requires Inv(c, m) && ProperVersions(c.vsn) && !m.shutdown && !m.left
    ensures LocalOK(c, false, SlotOf(UpdateLocal(c, m, meta, env), c.name), UpdateLocal(c, m, meta, env).counter) <==>
              m.counter < MaxUint32
  {
  }

  function Rank(s: NodeState): nat {
    match s
    case Alive => 0
    case Suspect => 1
    case Dead => 2
    case Left => 2
  }

  /** Strictly newer in SWIM's order: by incarnation, then alive < suspect < dead or left. */
  predicate Newer(r: Rec, r': Rec) { r.inc < r'.inc || (r.inc == r'.inc && Rank(r.node.state) < Rank(r'.node.state)) }

  predicate Unmoved(r: Rec, r': Rec) { r.inc == r'.inc && r.node.state == r'.node.state }

  /** The step makes the local node count up: it carries a claim about it, or updates it. */
  predicate ConcernsLocal(c: Config, st: Step) {
    || (st.AliveStep? && st.a.node == c.name) || (st.SuspectStep? && st.s.node == c.name)
    || (st.DeadStep? && st.d.node == c.name) || st.UpdateStep?
  }

  /** Where the local node may count up, neither its counter nor the claim is at the last 32-bit value. */
  predicate NoWrap(c: Config, m: Model, st: Step) {
    ConcernsLocal(c, st) ==> m.counter < MaxUint32 && AccusedInc(st) < MaxUint32
  }

  /** An alive message replaces at a new address a node that left, or has been dead for longer than the reclaim time. */
  predicate IsTakeover(c: Config, r: Rec, st: Step, n: Name) {
    && st.AliveStep? && st.a.node == n && n != c.name
    && !SameAddress(r, st.a) && st.env.ipAllowed(st.a.addr)
    && (r.node.state.Left? || (r.node.state.Dead? && st.env.now > r.change + c.reclaimAfter > r.change))
  }

  lemma AliveRaises(c: Config, left: bool, slot: Slot, counter: u32, a: AliveMsg, env: Env)
    requires slot.rec.Some?
    requires a.node == c.name ==> a.inc < MaxUint32 && counter < MaxUint32 && LocalOK(c, left, slot, counter)
    ensures var e := AliveEffect(c, left, slot, counter, a, false, env);
            && e.slot.rec.Some?
            && (var r, r' := slot.rec.value, e.slot.rec.value;
                || Unmoved(r, r') || Newer(r, r')
                || (IsTakeover(c, r, AliveStep(a, env), a.node) && r'.node.state.Alive? && r'.inc == a.inc))
  {
  }

  lemma SuspectRaises(c: Config, left: bool, size: nat, slot: Slot, counter: u32, s: SuspectMsg, now: Time)
    requires slot.rec.Some?
    requires s.node == c.name ==> s.inc < MaxUint32 && counter < MaxUint32 && LocalOK(c, left, slot, counter)
    ensures var e := SuspectEffect(c, size, slot, counter, s, now);
            e.slot.rec.Some? && (Unmoved(slot.rec.value, e.slot.rec.value) || Newer(slot.rec.value, e.slot.rec.value))
  {
  }

  lemma DeadRaises(c: Config, left: bool, slot: Slot, counter: u32, d: DeadMsg, now: Time)
    requires slot.rec.Some?
    requires d.node == c.name && !left ==> d.inc < MaxUint32 && counter < MaxUint32 && LocalOK(c, left, slot, counter)
    ensures var e := DeadEffect(c, left, slot, counter, d, now);
            e.slot.rec.Some? && (Unmoved(slot.rec.value, e.slot.rec.value) || Newer(slot.rec.value, e.slot.rec.value))
  {
  }

  /** The record of n does not move, moves to something strictly newer, or is taken over by a new address. */
  predicate Precedes(c: Config, m: Model, st: Step, n: Name)
    requires n in m.table
  {
    var m' := Next(c, m, st);
    n in m'.table ==>
      || Unmoved(m.table[n], m'.table[n])
      || Newer(m.table[n], m'.table[n])
      || (IsTakeover(c, m.table[n], st, n) && m'.table[n].node.state.Alive? && m'.table[n].inc == st.a.inc)
  }

  lemma CommitPrecedes(m: Model, n: Name, e: Effect, x: Name)
    requires x in m.table && n != x
    ensures x in Commit(m, n, e).table && Commit(m, n, e).table[x] == m.table[x]
  {
  }

  /**
   SWIM precedence: every change a step commits to a record that stays strictly raises it, except address takeover.
   */
  lemma StepPrecedes(c: Config, m: Model, st: Step, n: Name)
    requires Inv(c, m) && ProperVersions(c.vsn) && NoWrap(c, m, st) && n in m.table
    ensures Precedes(c, m, st, n)
  {
    var slot := SlotOf(m, n);
    match st
    case AliveStep(a, env) =>
      if a.node == n {
        AliveRaises(c, m.left, slot, m.counter, a, env);
      }
    case SuspectStep(s, env) =>
      if s.node == n {
        SuspectRaises(c, m.left, |m.table|, slot, m.counter, s, env.now);
      }
    case DeadStep(d, env) =>
      if d.node == n {
        DeadRaises(c, m.left, slot, m.counter, d, env.now);
      }
    case ExpireStep(x, change, env) =>
      if x == n && !m.shutdown && IsCurrent(m, n, change) {
        assert TimerOK(slot);
        DeadRaises(c, m.left, slot, m.counter, DeadMsg(slot.rec.value.inc, n, c.name), env.now);
      } else if !m.shutdown {
        ExpiryActsIffCurrent(c, m, x, change, env);
        if x != n {
          CommitPrecedes(m, x, ExpireEffect(c, m.left, SlotOf(m, x), m.counter, x, change, env.now), n);
        }
      }
    case ReapStep(env) =>
    case LeaveStep(env) =>
      if n == c.name && !m.shutdown && !m.left {
        var m1 := m.(left := true);
        assert SlotOf(m1, n) == slot;
        DeadRaises(c, true, slot, m.counter, DeadMsg(m.table[n].inc, n, n), env.now);
      }
    case UpdateStep(meta, env) =>
      if n == c.name && !m.shutdown && !m.left {
        UpdateRaises(c, m, meta, env);
      }
    case ShutdownStep =>
  }

  lemma UpdateRaises(c: Config, m: Model, meta: Bytes, env: Env)
    requires Inv(c, m) && ProperVersions(c.vsn) && !m.shutdown && !m.left && m.counter < MaxUint32
    ensures c.name in UpdateLocal(c, m, meta, env).table
    ensures Newer(m.table[c.name], UpdateLocal(c, m, meta, env).table[c.name])
  {
  }

  /** Over any stretch of a run in which a record stays and is not taken over, it never goes back in SWIM's order. */
  lemma {:induction false} NeverGoesBack(c: Config, ms: seq<Model>, steps: seq<Step>, i: nat, j: nat, n: Name)
    requires IsRun(c, ms, steps) && i <= j < |ms|
    requires forall k :: i <= k <= j ==> n in ms[k].table
    requires forall k :: i <= k < j ==> NoWrap(c, ms[k], steps[k]) && !IsTakeover(c, ms[k].table[n], steps[k], n)
    ensures Unmoved(ms[i].table[n], ms[j].table[n]) || Newer(ms[i].table[n], ms[j].table[n])
  {
    if i < j {
      NeverGoesBack(c, ms, steps, i, j - 1, n);
      RunsKeepInv(c, ms, steps, j - 1);
      assert Linked(c, ms, steps, j - 1);
      StepPrecedes(c, ms[j - 1], steps[j - 1], n);
    }
  }

  // ---------------------------------------------------------------- refutation

  /** Until Leave commits, the local record stays in the table, alive, at the counter's incarnation. */
  lemma LocalStaysAlive(c: Config, ms: seq<Model>, steps: seq<Step>, i: nat)
    requires IsRun(c, ms, steps) && i < |ms| && !ms[i].left
    ensures c.name in ms[i].table
    ensures ms[i].table[c.name].node.state.Alive? && ms[i].table[c.name].inc == ms[i].counter
    ensures ms[i].table[c.name].node.vsn == c.vsn
  {
    RunsKeepInv(c, ms, steps, i);
  }

  /** The step carries a claim about the local node, at or above its incarnation, that it must contradict. */
  predicate Accuses(c: Config, m: Model, st: Step)
    requires c.name in m.table
  {
    var me := m.table[c.name];
    match st
    case SuspectStep(s, _) => s.node == c.name && s.inc >= me.inc
    case DeadStep(d, _) => d.node == c.name && d.inc >= me.inc
    case AliveStep(a, env) =>
      && a.node == c.name && a.inc >= me.inc
      && ParseVsn(a.vsn).Some? && (a.vsn != [] ==> ProperVersions(ParseVsn(a.vsn).value))
      && (c.hasAlive ==> a.vsn != [] && env.accept(a))
      && SameAddress(me, a)
      && !(a.inc == me.inc && a.meta == me.node.meta && a.vsn != [] && ParseVsn(a.vsn).value == me.node.vsn)
    case _ => false
  }

  function AccusedInc(st: Step): u32 {
    match st
    case SuspectStep(s, _) => s.inc
    case DeadStep(d, _) => d.inc
    case AliveStep(a, _) => a.inc
    case _ => 0
  }

  /** The alive message the local node answers with. */
  function Answer(c: Config, m: Model, st: Step): AliveMsg
    requires c.name in m.table
  {
    var me := m.table[c.name].node;
    AliveMsg(RefuteInc(m.counter, AccusedInc(st)), c.name, me.addr, me.port, me.meta, VsnBytes(me.vsn))
  }

  /**
   Every accusation is answered by exactly one alive broadcast, and it beats the accusation unless that is the last
   32-bit value.
   */
  lemma AccusationIsAnswered(c: Config, m: Model, st: Step)
    requires Inv(c, m) && !m.left && !m.shutdown && Accuses(c, m, st)
    ensures var m', a := Next(c, m, st), Answer(c, m, st);
            && m'.casts == m.casts + [Broadcast(c.ipString(a.addr), AliveB(a))]
            && c.name in m'.table
            && m'.table[c.name].node.state.Alive?
            && m'.table[c.name].inc == m'.counter == a.inc
            && (a.inc > AccusedInc(st) <==> AccusedInc(st) < MaxUint32)
  {
    var slot := SlotOf(m, c.name);
    assert TimerOK(slot);
    RefuteBeatsIff(m.counter, AccusedInc(st));
  }

  /**
   A peer that holds the record at the same address with a lower incarnation turns it alive on applying the message.
   */
  lemma PeerBelieves(c: Config, m: Model, a: AliveMsg, env: Env)
    requires !m.shutdown && a.node != c.name && a.node in m.table
    requires SameAddress(m.table[a.node], a) && m.table[a.node].inc < a.inc
    requires |a.vsn| == 6 && ProperVersions(ParseVsn(a.vsn).value) && (c.hasAlive ==> env.accept(a))
    ensures var m' := AliveNode(c, m, a, env);
            && a.node in m'.table
            && m'.table[a.node].node.state.Alive?
            && m'.table[a.node].inc == a.inc
            && a.node !in m'.timers
  {
  }

  /**
   Refutation wins: whoever believed the accusation, at the accused address and up to its incarnation, ends up seeing
   the node alive.
   */
  lemma RefutationWins(c: Config, ms: seq<Model>, steps: seq<Step>, i: nat, st: Step, peer: Config, view: Model,
                       env: Env)
    requires IsRun(c, ms, steps) && i < |ms| && !ms[i].left && !ms[i].shutdown
    requires c.name in ms[i].table && Accuses(c, ms[i], st) && AccusedInc(st) < MaxUint32
    requires peer.name != c.name && !view.shutdown && c.name in view.table
    requires SameAddress(view.table[c.name], Answer(c, ms[i], st)) && view.table[c.name].inc <= AccusedInc(st)
    requires peer.hasAlive ==> env.accept(Answer(c, ms[i], st))
    ensures c.name in AliveNode(peer, view, Answer(c, ms[i], st), env).table
    ensures AliveNode(peer, view, Answer(c, ms[i], st), env).table[c.name].node.state.Alive?
    ensures AliveNode(peer, view, Answer(c, ms[i], st), env).table[c.name].inc > AccusedInc(st)
  {
    RunsKeepInv(c, ms, steps, i);
    AccusationIsAnswered(c, ms[i], st);
    PeerBelieves(peer, view, Answer(c, ms[i], st), env);
  }
}
