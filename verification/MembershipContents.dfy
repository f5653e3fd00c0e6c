/**
 What a critical section leaves behind: which record, with which contents, which
 timer, which event and which broadcast. Together the cases are all there is:
 whatever is not listed is left as it was.
 */
module MembershipContents {
  import opened Base
  import opened Membership
  import opened MembershipRuns
  import opened MembershipMerge
  import opened MembershipExchanges
  import Suspicion

  // ---------------------------------------------------------------- alive messages

  /** The record an accepted alive message makes: everything it says, alive, since now unless it was alive already. */
  function Announced(table: map<Name, Rec>, a: AliveMsg, now: Time): Rec {
    var since := if a.node in table && table[a.node].node.state.Alive? then table[a.node].change else now;
    Rec(Node(a.addr, a.port, a.meta, Alive, Spoken(table, a)), a.inc, since)
  }

  /** The event due for a record of n that becomes alive with these contents. */
  function Due(c: Config, table: map<Name, Rec>, n: Name, node: Node): seq<Event> {
    if !c.hasEvents then []
    else if n !in table || DeadOrLeft(table[n]) then [Join(n, node)]
    else if table[n].node.meta != node.meta then [Update(n, node)]
    else []
  }

  /**
   An alive message that prevails is taken over whole: its address, port,
   metadata, incarnation and versions are the record's, the suspicion is over, a
   join or an update with these contents is due, and the message is passed on.
   */
  lemma AliveIsTakenOver(c: Config, m: Model, a: AliveMsg, env: Env)
    requires Adopts(c, m, a, env)
    ensures var r := Announced(m.table, a, env.now);
            AliveNode(c, m, a, env) ==
            m.(table := m.table[a.node := r], timers := m.timers - {a.node},
               events := m.events + Due(c, m.table, a.node, r.node),
               casts := m.casts + [Broadcast(a.node, AliveB(a))])
  {
  }

  /** The message claims a name that is taken: by somebody at another address whose record cannot be reclaimed. */
  predicate Conflicts(c: Config, table: map<Name, Rec>, a: AliveMsg, env: Env) {
    && a.node in table && Acceptable(c, a, env)
    && !SameAddress(table[a.node], a) && env.ipAllowed(a.addr) && !Reclaimable(c, table[a.node], env.now)
  }

  /** The message names somebody new at incarnation zero, which leaves a dead placeholder. */
  predicate IsPlaceholder(c: Config, table: map<Name, Rec>, a: AliveMsg, env: Env) {
    a.node !in table && Acceptable(c, a, env) && env.ipAllowed(a.addr) && a.inc == 0
  }

  /** Any other alive message about another node at most tells the conflict delegate, or leaves a placeholder. */
  lemma AliveIsIgnored(c: Config, m: Model, a: AliveMsg, env: Env)
    requires !m.shutdown && a.node != c.name && !Adopts(c, m, a, env)
    ensures var m' := AliveNode(c, m, a, env);
            && m'.timers == m.timers && m'.counter == m.counter && m'.casts == m.casts
            && (if IsPlaceholder(c, m.table, a, env)
                then m'.table.Keys == m.table.Keys + {a.node} && m'.table[a.node].node.state.Dead?
                     && m'.table - {a.node} == m.table
                else m'.table == m.table)
            && m'.events == m.events +
                 if c.hasConflict && Conflicts(c, m.table, a, env)
                 then [Conflict(a.node, m.table[a.node].node, Node(a.addr, a.port, a.meta, Alive, NoVersions))] else []
  {
    var e := AliveEffect(c, m.left, SlotOf(m, a.node), m.counter, a, false, env);
    if IsPlaceholder(c, m.table, a, env) {
      assert e.slot.timer == SlotOf(m, a.node).timer && e.slot.rec == Some(FirstRec(a));
    } else {
      assert e.slot == SlotOf(m, a.node);
      CommitNothing(m, a.node);
    }
  }

  // ---------------------------------------------------------------- suspicions

  /** The suspicion is news about an alive node other than this one. */
  predicate SuspicionStarts(c: Config, m: Model, s: SuspectMsg) {
    && !m.shutdown && s.node != c.name && s.node in m.table && s.node !in m.timers
    && m.table[s.node].node.state.Alive? && s.inc >= m.table[s.node].inc
  }

  /** The timer waits for the accuser's backing by mult - 2 others if there are that many, and otherwise for nobody. */
  predicate ArmedFor(c: Config, size: nat, from: Name, now: Time, t: Suspicion.Susp) {
    && t.n == 0 && t.confirmations == {from} && t.start == t.change == now && t.runs == 0
    && t.min == c.timeout(size) && t.max == c.maxTimeoutMult * t.min
    && (if c.suspicionMult <= size then t.k == c.suspicionMult - 2 else t.k == 0)
    && t.timer == Suspicion.Pending(now + if t.k < 1 then t.min else t.max)
  }

  /** A suspicion that is news makes the record suspect at its incarnation, arms a timer and is passed on. */
  lemma SuspicionIsStarted(c: Config, m: Model, s: SuspectMsg, env: Env)
    requires SuspicionStarts(c, m, s)
    ensures var r, m' := m.table[s.node], SuspectNode(c, m, s, env);
            && m'.table == m.table[s.node := Rec(r.node.(state := Suspect), s.inc, env.now)]
            && s.node in m'.timers && ArmedFor(c, |m.table|, s.from, env.now, m'.timers[s.node])
            && m'.timers - {s.node} == m.timers
            && m'.events == m.events && m'.counter == m.counter
            && m'.casts == m.casts + [Broadcast(s.node, SuspectB(s))]
  {
  }

  /** The suspicion backs one that is already there. */
  predicate SuspicionBacks(m: Model, s: SuspectMsg) {
    !m.shutdown && s.node in m.table && s.node in m.timers && s.inc >= m.table[s.node].inc
  }

  /** It goes to the timer, and is passed on exactly when it counts: a new accuser while confirmations are missing. */
  lemma SuspicionIsBacked(c: Config, m: Model, s: SuspectMsg, env: Env)
    requires SuspicionBacks(m, s)
    ensures var t, m' := m.timers[s.node], SuspectNode(c, m, s, env);
            && m'.table == m.table && m'.events == m.events && m'.counter == m.counter
            && m'.timers == m.timers[s.node := Suspicion.Confirm(c.curve, t, s.from, env.now)]
            && m'.casts == m.casts +
                 if t.n < t.k && s.from !in t.confirmations then [Broadcast(s.node, SuspectB(s))] else []
  {
  }

  /** Any other suspicion of another node changes nothing. */
  lemma SuspicionIsIgnored(c: Config, m: Model, s: SuspectMsg, env: Env)
    requires s.node != c.name && !SuspicionStarts(c, m, s) && !SuspicionBacks(m, s)
    ensures SuspectNode(c, m, s, env) == m
  {
    CommitNothing(m, s.node);
  }

  // ---------------------------------------------------------------- deaths

  /** The death is news: about somebody taking part, other than an instance that has not left. */
  predicate DeathCounts(c: Config, m: Model, d: DeadMsg) {
    && d.node in m.table && !DeadOrLeft(m.table[d.node]) && d.inc >= m.table[d.node].inc
    && (d.node != c.name || m.left)
  }

  function Departed(r: Rec, d: DeadMsg, now: Time): Rec {
    Rec(r.node.(state := if d.node == d.from then Left else Dead), d.inc, now)
  }

  function Farewell(c: Config, n: Name, node: Node): seq<Event> { if c.hasEvents then [Leave(n, node)] else [] }

  /** It makes the record dead, or left when the node says so itself, ends the suspicion, and is told and passed on. */
  lemma DeathIsTakenOver(c: Config, m: Model, d: DeadMsg, env: Env)
    requires DeathCounts(c, m, d)
    ensures var r := Departed(m.table[d.node], d, env.now);
            DeadLocked(c, m, d, env) ==
            m.(table := m.table[d.node := r], timers := m.timers - {d.node},
               events := m.events + Farewell(c, d.node, r.node), casts := m.casts + [Broadcast(d.node, DeadB(d))])
  {
  }

  /** Any other death of another node changes no record. */
  lemma DeathIsIgnored(c: Config, m: Model, d: DeadMsg, env: Env)
    requires !DeathCounts(c, m, d) && (d.node == c.name ==> m.left)
    ensures var m' := DeadLocked(c, m, d, env); m' == m.(timers := m'.timers)
    ensures d.node !in m.timers ==> DeadLocked(c, m, d, env) == m
  {
    CommitNothing(m, d.node);
  }

  /** A current timer's expiry: dead at the incarnation it was suspected at, told, and passed on in our name. */
  lemma ExpiryIsDeath(c: Config, m: Model, n: Name, change: Time, env: Env)
    requires Inv(c, m) && !m.shutdown && IsCurrent(m, n, change)
    ensures n in m.table && n != c.name
    ensures var r := m.table[n].(node := m.table[n].node.(state := Dead), change := env.now);
            Expire(c, m, n, change, env) ==
            m.(table := m.table[n := r], timers := m.timers - {n}, events := m.events + Farewell(c, n, r.node),
               casts := m.casts + [Broadcast(n, DeadB(DeadMsg(r.inc, n, c.name)))])
  {
    assert TimerOK(SlotOf(m, n));
  }

  // ---------------------------------------------------------------- the local node

  /**
   UpdateNode below the wrap: the new metadata is the local record's, at the next
   incarnation; nothing else of it changes; an update is told when the metadata
   did change; and the record as it now is goes out under the local name.
   */
  lemma UpdateIsApplied(c: Config, m: Model, meta: Bytes, env: Env)
    requires Inv(c, m) && ProperVersions(c.vsn) && !m.shutdown && !m.left && m.counter < MaxUint32
    ensures var was, inc := m.table[c.name], m.counter + 1;
            var r := was.(node := was.node.(meta := meta), inc := inc);
            UpdateLocal(c, m, meta, env) ==
            m.(table := m.table[c.name := r], counter := inc,
               events := m.events + (if c.hasEvents && meta != was.node.meta then [Update(c.name, r.node)] else []),
               casts := m.casts + [Broadcast(c.name, AliveB(AliveMsg(inc, c.name, r.node.addr, r.node.port, meta,
                                                                     VsnBytes(c.vsn))))])
  {
    var me := m.table[c.name].node;
    IPEqualIsEquivalence(me.addr, me.addr, me.addr);
    assert TimerOK(SlotOf(m, c.name));
  }

  /** setAlive: the local node joins its own table with what it was given, and announces it. */
  lemma StartIsApplied(c: Config, m: Model, addr: IP, port: u16, meta: Bytes, env: Env)
    requires BeforeStart(c, m) && ProperVersions(c.vsn) && env.ipAllowed(addr) && m.counter < MaxUint32
    ensures var inc := m.counter + 1;
            var r := Rec(Node(addr, port, meta, Alive, c.vsn), inc, env.now);
            SetAlive(c, m, addr, port, meta, env) ==
            m.(table := m.table[c.name := r], counter := inc,
               events := m.events + (if c.hasEvents then [Join(c.name, r.node)] else []),
               casts := m.casts + [Broadcast(c.name, AliveB(AliveMsg(inc, c.name, addr, port, meta, VsnBytes(c.vsn))))])
  {
    assert TimerOK(SlotOf(m, c.name));
  }

  /** LeaveContext: the local record is left at its incarnation, which is told and passed on as its own word. */
  lemma LeaveIsApplied(c: Config, m: Model, env: Env)
    requires Inv(c, m) && !m.shutdown && !m.left
    ensures var was := m.table[c.name];
            var r := was.(node := was.node.(state := Left), change := env.now);
            LeaveCluster(c, m, env) ==
            m.(left := true, table := m.table[c.name := r],
               events := m.events + Farewell(c, c.name, r.node),
               casts := m.casts + [Broadcast(c.name, DeadB(DeadMsg(r.inc, c.name, c.name)))])
  {
    assert TimerOK(SlotOf(m, c.name));
    DeathIsTakenOver(c, m.(left := true), DeadMsg(m.table[c.name].inc, c.name, c.name), env);
  }

  /** Reaping removes exactly the dead or left records of longer than the gossip-to-the-dead interval. */
  lemma ReapRemovesExactly(c: Config, m: Model, now: Time, n: Name)
    ensures n in Reap(c, m, now).table <==>
              && n in m.table
              && ((m.table[n].node.state.Dead? || m.table[n].node.state.Left?) ==>
                    now <= m.table[n].change + c.gossipToTheDead)
    ensures n in Reap(c, m, now).table ==> Reap(c, m, now).table[n] == m.table[n]
    ensures Reap(c, m, now) == m.(table := Reap(c, m, now).table)
  {
  }

  // ---------------------------------------------------------------- merging

  /** A remote death, like a remote suspicion, only raises a suspicion of our own. */
  lemma RemoteDeathIsSuspicion(c: Config, m: Model, r: PushState, env: Env)
    requires r.state == StateDead || r.state == StateSuspect
    requires SuspicionStarts(c, m, SuspectMsg(r.inc, r.name, c.name))
    ensures var m' := MergeOne(c, m, r, env);
            && m'.table[r.name].node.state.Suspect? && m'.table[r.name].inc == r.inc
            && r.name in m'.timers && ArmedFor(c, |m.table|, c.name, env.now, m'.timers[r.name])
  {
    SuspicionIsStarted(c, m, SuspectMsg(r.inc, r.name, c.name), env);
  }

  /** A remote leave is taken at its word. */
  lemma RemoteLeaveIsTaken(c: Config, m: Model, r: PushState, env: Env)
    requires r.state == StateLeft && !m.shutdown && DeathCounts(c, m, DeadMsg(r.inc, r.name, r.name))
    ensures var m' := MergeOne(c, m, r, env);
            r.name in m'.table && m'.table[r.name].node.state.Left? && m'.table[r.name].inc == r.inc
  {
    DeathIsTakenOver(c, m, DeadMsg(r.inc, r.name, r.name), env);
  }

  /** A remote alive entry is an alive message. */
  lemma RemoteAliveIsTaken(c: Config, m: Model, r: PushState, env: Env)
    requires r.state == StateAlive && Adopts(c, m, AsAlive(r), env)
    ensures var m' := MergeOne(c, m, r, env);
            && r.name in m'.table && m'.table[r.name].node.state.Alive? && m'.table[r.name].inc == r.inc
            && m'.table[r.name].node.meta == r.meta && m'.table[r.name].node.addr == r.addr
            && m'.table[r.name].node.port == r.port
  {
    AliveIsTakenOver(c, m, AsAlive(r), env);
  }

  lemma EntryNeverKills(c: Config, m: Model, r: PushState, env: Env, n: Name)
    requires n in m.table && !m.table[n].node.state.Dead?
    ensures n in MergeOne(c, m, r, env).table && !MergeOne(c, m, r, env).table[n].node.state.Dead?
  {
    if !m.shutdown {
      MergeOneIsCommit(c, m, r, env);
      if r.name == n {
        EffectNeverKills(c, m.left, |m.table|, SlotOf(m, r.name), m.counter, r, env);
      }
    }
  }

  lemma EffectNeverKills(c: Config, left: bool, size: nat, slot: Slot, counter: u32, r: PushState, env: Env)
    requires slot.rec.Some? && !slot.rec.value.node.state.Dead?
    ensures var e := MergeEffect(c, left, size, slot, counter, r, env);
            e.slot.rec.Some? && !e.slot.rec.value.node.state.Dead?
  {
  }

  /** However many dead entries a snapshot has, merging it declares nobody dead: only our own timers do. */
  lemma {:induction false} MergeNeverKills(c: Config, m: Model, rs: seq<PushState>, envs: seq<Env>, n: Name)
    requires |rs| == |envs| && n in m.table && !m.table[n].node.state.Dead?
    ensures n in Merge(c, m, rs, envs).table && !Merge(c, m, rs, envs).table[n].node.state.Dead?
  {
    if rs != [] {
      var k := |rs| - 1;
      MergeNeverKills(c, m, rs[..k], envs[..k], n);
      EntryNeverKills(c, Merge(c, m, rs[..k], envs[..k]), rs[k], envs[k], n);
    }
  }
}
