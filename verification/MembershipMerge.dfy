/** Push/pull anti-entropy: protocol verification and the merge of a remote snapshot. */
module MembershipMerge {
  import opened Base
  import opened Membership
  import opened MembershipRuns

  /** One node of a remote snapshot; the state is whatever integer came over the wire. */
  datatype PushState = PushState(name: Name, addr: IP, port: u16, meta: Bytes, inc: u32, state: int, vsn: Bytes)

  const StateAlive := 0
  const StateSuspect := 1
  const StateDead := 2
  const StateLeft := 3

  function AsAlive(r: PushState): AliveMsg { AliveMsg(r.inc, r.name, r.addr, r.port, r.meta, r.vsn) }

  /** A remote death only raises a suspicion of our own; a remote leave is taken at its word. */
  function MergeEffect(c: Config, left: bool, size: nat, slot: Slot, counter: u32, r: PushState, env: Env): Effect {
    if r.state == StateAlive then AliveEffect(c, left, slot, counter, AsAlive(r), false, env)
    else if r.state == StateLeft then DeadEffect(c, left, slot, counter, DeadMsg(r.inc, r.name, r.name), env.now)
    else if r.state == StateDead || r.state == StateSuspect then
      SuspectEffect(c, size, slot, counter, SuspectMsg(r.inc, r.name, c.name), env.now)
    else Nothing(slot, counter)
  }

  function MergeOne(c: Config, m: Model, r: PushState, env: Env): Model {
    if r.state == StateAlive then AliveNode(c, m, AsAlive(r), env)
    else if r.state == StateLeft then DeadNode(c, m, DeadMsg(r.inc, r.name, r.name), env)
    else if r.state == StateDead || r.state == StateSuspect then
      SuspectNode(c, m, SuspectMsg(r.inc, r.name, c.name), env)
    else m
  }

  /** mergeState: the entries in order, each in its own critical section. */
  function Merge(c: Config, m: Model, rs: seq<PushState>, envs: seq<Env>): Model
    requires |rs| == |envs|
  {
    if rs == [] then m
    else
      var k := |rs| - 1;
      MergeOne(c, Merge(c, m, rs[..k], envs[..k]), rs[k], envs[k])
  }

  lemma MergeOneIsCommit(c: Config, m: Model, r: PushState, env: Env)
    requires !m.shutdown
    ensures MergeOne(c, m, r, env) ==
              Commit(m, r.name, MergeEffect(c, m.left, |m.table|, SlotOf(m, r.name), m.counter, r, env))
  {
    CommitNothing(m, r.name);
  }

  // ---------------------------------------------------------------- idempotence

  /** Everything but the queued events and broadcasts. */
  function Core(m: Model): Model { m.(events := [], casts := []) }

  lemma MergeEffectKeeps(c: Config, left: bool, size: nat, slot: Slot, counter: u32, r: PushState, env: Env)
    requires TimerOK(slot) && (r.name == c.name ==> LocalOK(c, left, slot, counter))
    ensures Keeps(c, left, r.name, slot, counter, MergeEffect(c, left, size, slot, counter, r, env))
  {
    if r.state == StateAlive {
      AliveKeeps(c, left, slot, counter, AsAlive(r), env);
    } else if r.state == StateLeft {
      DeadKeeps(c, left, slot, counter, DeadMsg(r.inc, r.name, r.name), env.now);
    } else if r.state == StateDead || r.state == StateSuspect {
      SuspectKeeps(c, left, size, slot, counter, SuspectMsg(r.inc, r.name, c.name), env.now);
    }
  }

  predicate SlotSettled(e: Effect, slot: Slot, counter: u32) { e.slot == slot && e.counter == counter }

  lemma AliveTwice(c: Config, left: bool, slot: Slot, counter: u32, a: AliveMsg, env: Env)
    requires TimerOK(slot) && (a.node == c.name ==> LocalOK(c, left, slot, counter))
    ensures var e := AliveEffect(c, left, slot, counter, a, false, env);
            SlotSettled(AliveEffect(c, left, e.slot, e.counter, a, false, env), e.slot, e.counter)
  {
    IPEqualIsEquivalence(a.addr, a.addr, a.addr);
    if a.inc >= counter {
      RefuteTwice(counter, a.inc);
    }
  }

  lemma Add32Wraps(x: u32, d: u32)
    ensures Add32(x, d) == if x + d <= MaxUint32 then x + d else x + d - 0x1_0000_0000
  {
  }

  /** Against an accusation at or above the counter, the incarnation is the next one after the accusation. */
  lemma RefuteIncAt(counter: u32, accused: u32)
    requires accused >= counter
    ensures RefuteInc(counter, accused) == Add32(accused, 1)
  {
    Add32Wraps(counter, 1);
    Add32Wraps(accused, 1);
    var inc := Add32(counter, 1);
    if accused >= inc {
      var d := accused - inc + 1;
      if d <= MaxUint32 {
        Add32Wraps(inc, d);
      } else {
        Add32Wraps(inc, 0);
      }
    }
  }

  /** Refuting the same accusation again at most repeats the same incarnation, even when it wraps. */
  lemma RefuteTwice(counter: u32, accused: u32)
    requires accused >= counter
    ensures var inc := RefuteInc(counter, accused);
            accused < inc || RefuteInc(inc, accused) == inc
  {
    var inc := RefuteInc(counter, accused);
    RefuteIncAt(counter, accused);
    if inc <= accused {
      RefuteIncAt(inc, accused);
    }
  }

  lemma SuspectTwice(c: Config, left: bool, size: nat, size': nat, slot: Slot, counter: u32, s: SuspectMsg, now: Time)
    requires TimerOK(slot) && (s.node == c.name ==> LocalOK(c, left, slot, counter))
    ensures var e := SuspectEffect(c, size, slot, counter, s, now);
            SlotSettled(SuspectEffect(c, size', e.slot, e.counter, s, now), e.slot, e.counter)
  {
    if s.inc >= counter {
      RefuteTwice(counter, s.inc);
    }
  }

  lemma DeadTwice(c: Config, left: bool, slot: Slot, counter: u32, d: DeadMsg, now: Time)
    requires TimerOK(slot) && (d.node == c.name ==> LocalOK(c, left, slot, counter))
    ensures var e := DeadEffect(c, left, slot, counter, d, now);
            SlotSettled(DeadEffect(c, left, e.slot, e.counter, d, now), e.slot, e.counter)
  {
    if d.inc >= counter {
      RefuteTwice(counter, d.inc);
    }
  }

  lemma MergeTwice(c: Config, left: bool, size: nat, size': nat, slot: Slot, counter: u32, r: PushState, env: Env)
    requires TimerOK(slot) && (r.name == c.name ==> LocalOK(c, left, slot, counter))
    ensures var e := MergeEffect(c, left, size, slot, counter, r, env);
            SlotSettled(MergeEffect(c, left, size', e.slot, e.counter, r, env), e.slot, e.counter)
  {
    if r.state == StateAlive {
      AliveTwice(c, left, slot, counter, AsAlive(r), env);
    } else if r.state == StateLeft {
      DeadTwice(c, left, slot, counter, DeadMsg(r.inc, r.name, r.name), env.now);
    } else if r.state == StateDead || r.state == StateSuspect {
      SuspectTwice(c, left, size, size', slot, counter, SuspectMsg(r.inc, r.name, c.name), env.now);
    }
  }

  /** An entry already merged: applying it again changes neither its slot nor the counter. */
  predicate Settled(c: Config, m: Model, r: PushState, env: Env) {
    SlotSettled(MergeEffect(c, m.left, |m.table|, SlotOf(m, r.name), m.counter, r, env), SlotOf(m, r.name), m.counter)
  }

  /** For another node's entry, being settled does not depend on the cluster size or the local counter. */
  lemma SettledElsewhere(c: Config, left: bool, size: nat, size': nat, slot: Slot, counter: u32, counter': u32,
                         r: PushState, env: Env)
    requires r.name != c.name && SlotSettled(MergeEffect(c, left, size, slot, counter, r, env), slot, counter)
    ensures SlotSettled(MergeEffect(c, left, size', slot, counter', r, env), slot, counter')
  {
  }

  /** For the local node's entry it does not depend on the cluster size either: the local node is never suspected. */
  lemma SettledLocally(c: Config, left: bool, size: nat, size': nat, slot: Slot, counter: u32, r: PushState, env: Env)
    requires r.name == c.name && SlotSettled(MergeEffect(c, left, size, slot, counter, r, env), slot, counter)
    ensures SlotSettled(MergeEffect(c, left, size', slot, counter, r, env), slot, counter)
  {
  }

  lemma MergeOneKeepsInv(c: Config, m: Model, r: PushState, env: Env)
    requires Inv(c, m) && !m.shutdown
    ensures Inv(c, MergeOne(c, m, r, env)) && !MergeOne(c, m, r, env).shutdown
    ensures MergeOne(c, m, r, env).left == m.left
  {
    assert TimerOK(SlotOf(m, r.name));
    MergeEffectKeeps(c, m.left, |m.table|, SlotOf(m, r.name), m.counter, r, env);
    MergeOneIsCommit(c, m, r, env);
    CommitKeepsInv(c, m, r.name, MergeEffect(c, m.left, |m.table|, SlotOf(m, r.name), m.counter, r, env));
  }

  /** Merging an entry settles it, and keeps every entry about another name settled. */
  lemma MergeOneSettles(c: Config, m: Model, r: PushState, env: Env)
    requires Inv(c, m) && !m.shutdown
    ensures Settled(c, MergeOne(c, m, r, env), r, env)
  {
    var m' := MergeOne(c, m, r, env);
    var e := MergeEffect(c, m.left, |m.table|, SlotOf(m, r.name), m.counter, r, env);
    assert TimerOK(SlotOf(m, r.name));
    MergeOneIsCommit(c, m, r, env);
    CommitSlot(m, r.name, e, r.name);
    MergeTwice(c, m.left, |m.table|, |m'.table|, SlotOf(m, r.name), m.counter, r, env);
  }

  lemma MergeOneKeepsSettled(c: Config, m: Model, r: PushState, q: PushState, env: Env)
    requires Inv(c, m) && !m.shutdown && r.name != q.name && Settled(c, m, q, env)
    ensures Settled(c, MergeOne(c, m, r, env), q, env)
  {
    var m' := MergeOne(c, m, r, env);
    var e := MergeEffect(c, m.left, |m.table|, SlotOf(m, r.name), m.counter, r, env);
    assert TimerOK(SlotOf(m, r.name));
    MergeEffectKeeps(c, m.left, |m.table|, SlotOf(m, r.name), m.counter, r, env);
    MergeOneIsCommit(c, m, r, env);
    CommitSlot(m, r.name, e, q.name);
    if q.name == c.name {
      SettledLocally(c, m.left, |m.table|, |m'.table|, SlotOf(m, q.name), m.counter, q, env);
    } else {
      SettledElsewhere(c, m.left, |m.table|, |m'.table|, SlotOf(m, q.name), m.counter, m'.counter, q, env);
    }
  }

  predicate DistinctNames(rs: seq<PushState>) { forall i, j :: 0 <= i < j < |rs| ==> rs[i].name != rs[j].name }

  /** The same clock reading and delegate answers throughout. */
  ghost predicate AtOnce(envs: seq<Env>, env: Env) { forall i :: 0 <= i < |envs| ==> envs[i] == env }

  lemma {:induction false} MergeSettlesAll(c: Config, m: Model, rs: seq<PushState>, envs: seq<Env>, env: Env)
    requires Inv(c, m) && !m.shutdown && |rs| == |envs| && DistinctNames(rs) && AtOnce(envs, env)
    ensures var m' := Merge(c, m, rs, envs);
            && Inv(c, m') && !m'.shutdown && m'.left == m.left
            && forall i :: 0 <= i < |rs| ==> Settled(c, m', rs[i], env)
  {
    if rs != [] {
      var k := |rs| - 1;
      var q := Merge(c, m, rs[..k], envs[..k]);
      MergeSettlesAll(c, m, rs[..k], envs[..k], env);
      MergeOneKeepsInv(c, q, rs[k], env);
      forall i | 0 <= i < |rs| ensures Settled(c, Merge(c, m, rs, envs), rs[i], env) {
        if i == k {
          MergeOneSettles(c, q, rs[k], env);
        } else {
          assert rs[..k][i] == rs[i];
          MergeOneKeepsSettled(c, q, rs[k], rs[i], env);
        }
      }
    }
  }

  /** Merging a settled entry changes nothing but the logs. */
  lemma MergeSettledOne(c: Config, m: Model, r: PushState, env: Env)
    requires !m.shutdown && Settled(c, m, r, env)
    ensures Core(MergeOne(c, m, r, env)) == Core(m)
  {
    MergeOneIsCommit(c, m, r, env);
    CommitNothing(m, r.name);
  }

  /** Being settled is a matter of the tables, not of the logs. */
  lemma SettledOfCore(c: Config, m: Model, m': Model, r: PushState, env: Env)
    requires Core(m) == Core(m')
    ensures Settled(c, m, r, env) <==> Settled(c, m', r, env)
  {
  }

  lemma CoreFields(m: Model, m': Model)
    requires Core(m) == Core(m')
    ensures m.table == m'.table && m.timers == m'.timers && m.counter == m'.counter && m.left == m'.left &&
            m.shutdown == m'.shutdown
  {
  }

  lemma {:induction false} MergeSettled(c: Config, m: Model, rs: seq<PushState>, envs: seq<Env>, env: Env)
    requires !m.shutdown && |rs| == |envs| && AtOnce(envs, env)
    requires forall i :: 0 <= i < |rs| ==> Settled(c, m, rs[i], env)
    ensures Core(Merge(c, m, rs, envs)) == Core(m)
  {
    if rs != [] {
      var k := |rs| - 1;
      var q := Merge(c, m, rs[..k], envs[..k]);
      forall i | 0 <= i < k ensures Settled(c, m, rs[..k][i], env) {
        assert rs[..k][i] == rs[i];
      }
      MergeSettled(c, m, rs[..k], envs[..k], env);
      CoreFields(q, m);
      SettledOfCore(c, q, m, rs[k], env);
      MergeSettledOne(c, q, rs[k], env);
    }
  }

  /**
   Merging one snapshot with distinct names twice at the same instant leaves the
   node table, the timers with their confirmations and the local incarnation as
   one merge does, refutations included.
   */
  lemma MergeIsIdempotent(c: Config, m: Model, rs: seq<PushState>, envs: seq<Env>, env: Env)
    requires Inv(c, m) && |rs| == |envs| && DistinctNames(rs) && AtOnce(envs, env)
    ensures Core(Merge(c, Merge(c, m, rs, envs), rs, envs)) == Core(Merge(c, m, rs, envs))
  {
    if m.shutdown {
      MergeAfterShutdown(c, m, rs, envs);
      MergeAfterShutdown(c, Merge(c, m, rs, envs), rs, envs);
    } else {
      MergeSettlesAll(c, m, rs, envs, env);
      MergeSettled(c, Merge(c, m, rs, envs), rs, envs, env);
    }
  }

  lemma {:induction false} MergeAfterShutdown(c: Config, m: Model, rs: seq<PushState>, envs: seq<Env>)
    requires m.shutdown && |rs| == |envs|
    ensures Merge(c, m, rs, envs) == m
  {
    if rs != [] {
      MergeAfterShutdown(c, m, rs[..|rs| - 1], envs[..|rs| - 1]);
    }
  }

  // ---------------------------------------------------------------- protocol verification

  function VsnOf(r: PushState): Versions {
    if ParseVsn(r.vsn).Some? then ParseVsn(r.vsn).value else NoVersions
  }

  /** The version ranges that constrain the cluster: of alive nodes, remote ones only if they sent a vector. */
  ghost function Limits(rs: seq<PushState>, table: map<Name, Rec>): set<Versions> {
    (set r | r in rs && r.state == StateAlive && r.vsn != [] :: VsnOf(r))
    + (set n | n in table && table[n].node.state.Alive? :: table[n].node.vsn)
  }

  /** The versions spoken by whoever may still take part: everybody not dead or left. */
  ghost function Speakers(rs: seq<PushState>, table: map<Name, Rec>): set<Versions> {
    (set r | r in rs && r.state != StateDead && r.state != StateLeft :: VsnOf(r))
    + (set n | n in table && !DeadOrLeft(table[n]) :: table[n].node.vsn)
  }

  predicate Understands(limit: Versions, speaker: Versions) {
    limit.pmin <= speaker.pcur <= limit.pmax && limit.dmin <= speaker.dcur <= limit.dmax
  }

  /** Every vector is well formed, and everybody understands every speaker. */
  ghost predicate Compatible(rs: seq<PushState>, table: map<Name, Rec>) {
    && (forall r :: r in rs ==> ParseVsn(r.vsn).Some?)
    && forall l, s :: l in Limits(rs, table) && s in Speakers(rs, table) ==> Understands(l, s)
  }

  /** The record takes its versions from a node that was verified. */
  ghost predicate VettedRec(rs: seq<PushState>, before: map<Name, Rec>, r: Rec) {
    && (r.node.state.Alive? ==> r.node.vsn in Limits(rs, before))
    && (!DeadOrLeft(r) ==> r.node.vsn in Speakers(rs, before))
  }

  ghost predicate Vetted(rs: seq<PushState>, before: map<Name, Rec>, table: map<Name, Rec>) {
    forall n :: n in table ==> VettedRec(rs, before, table[n])
  }

  /** Some alive node refuses to talk to a node without versions: its protocol or delegate minimum is at least one. */
  ghost predicate Demanding(table: map<Name, Rec>) {
    exists n :: n in table && table[n].node.state.Alive? && !Understands(table[n].node.vsn, NoVersions)
  }

  /** With such a node, nobody alive without a version vector passes verification. */
  lemma VerifiedHaveVectors(rs: seq<PushState>, table: map<Name, Rec>, r: PushState)
    requires Compatible(rs, table) && Demanding(table) && r in rs && r.state == StateAlive
    ensures r.vsn != []
  {
    var n :| n in table && table[n].node.state.Alive? && !Understands(table[n].node.vsn, NoVersions);
    assert table[n].node.vsn in Limits(rs, table);
    assert VsnOf(r) in Speakers(rs, table);
    assert Understands(table[n].node.vsn, VsnOf(r));
  }

  /** The entries' version vectors can be relied on: an alive entry has one, or the alive delegate refuses it. */
  ghost predicate Vectored(c: Config, rs: seq<PushState>) {
    c.hasAlive || forall r :: r in rs && r.state == StateAlive ==> r.vsn != []
  }

  /** A live record keeps its versions and comes from a record at least as alive. */
  predicate KeepsVersions(slot: Slot, e: Effect) {
    e.slot.rec.Some? && !DeadOrLeft(e.slot.rec.value) ==>
      && slot.rec.Some? && !DeadOrLeft(slot.rec.value) && e.slot.rec.value.node.vsn == slot.rec.value.node.vsn
      && (e.slot.rec.value.node.state.Alive? ==> slot.rec.value.node.state.Alive?)
  }

  lemma SuspectKeepsVersions(c: Config, size: nat, slot: Slot, counter: u32, s: SuspectMsg, now: Time)
    ensures KeepsVersions(slot, SuspectEffect(c, size, slot, counter, s, now))
  {
  }

  lemma DeadKeepsVersions(c: Config, left: bool, slot: Slot, counter: u32, d: DeadMsg, now: Time)
    ensures KeepsVersions(slot, DeadEffect(c, left, slot, counter, d, now))
  {
  }

  lemma AliveEffectVersions(c: Config, left: bool, slot: Slot, counter: u32, a: AliveMsg, env: Env)
    requires a.vsn == [] ==> c.hasAlive
    ensures var e := AliveEffect(c, left, slot, counter, a, false, env);
            || KeepsVersions(slot, e)
            || (a.vsn != [] && e.slot.rec.Some? && Some(e.slot.rec.value.node.vsn) == ParseVsn(a.vsn))
  {
  }

  /** Whatever an entry does to a record, the versions it leaves on a live one are the old ones or the entry's. */
  lemma MergeEffectVersions(c: Config, left: bool, size: nat, slot: Slot, counter: u32, r: PushState, env: Env)
    requires r.state == StateAlive && r.vsn == [] ==> c.hasAlive
    ensures var e := MergeEffect(c, left, size, slot, counter, r, env);
            || KeepsVersions(slot, e)
            || (r.state == StateAlive && r.vsn != [] && e.slot.rec.Some? && e.slot.rec.value.node.vsn == VsnOf(r))
  {
    if r.state == StateAlive {
      AliveEffectVersions(c, left, slot, counter, AsAlive(r), env);
    } else if r.state == StateLeft {
      DeadKeepsVersions(c, left, slot, counter, DeadMsg(r.inc, r.name, r.name), env.now);
    } else if r.state == StateDead || r.state == StateSuspect {
      SuspectKeepsVersions(c, size, slot, counter, SuspectMsg(r.inc, r.name, c.name), env.now);
    }
  }

  lemma StoreKeepsVetted(rs: seq<PushState>, before: map<Name, Rec>, table: map<Name, Rec>, n: Name, rec: Option<Rec>)
    requires Vetted(rs, before, table) && (rec.Some? ==> VettedRec(rs, before, rec.value))
    ensures Vetted(rs, before, Store(table, n, rec))
  {
  }

  lemma MergeOneKeepsVetted(c: Config, m: Model, before: map<Name, Rec>, rs: seq<PushState>, r: PushState, env: Env)
    requires Vetted(rs, before, m.table) && r in rs && (r.state == StateAlive && r.vsn == [] ==> c.hasAlive)
    ensures Vetted(rs, before, MergeOne(c, m, r, env).table)
  {
    if !m.shutdown {
      MergeOneIsCommit(c, m, r, env);
      var slot := SlotOf(m, r.name);
      var e := MergeEffect(c, m.left, |m.table|, slot, m.counter, r, env);
      MergeEffectVersions(c, m.left, |m.table|, slot, m.counter, r, env);
      assert slot.rec.Some? ==> VettedRec(rs, before, slot.rec.value);
      assert r.state == StateAlive && r.vsn != [] ==>
               VsnOf(r) in Limits(rs, before) && VsnOf(r) in Speakers(rs, before);
      StoreKeepsVetted(rs, before, m.table, r.name, e.slot.rec);
    }
  }

  lemma {:induction false} MergeKeepsVetted(c: Config, m: Model, rs: seq<PushState>, all: seq<PushState>,
                                            envs: seq<Env>)
    requires |rs| == |envs| && rs <= all && Vectored(c, all)
    ensures Vetted(all, m.table, Merge(c, m, rs, envs).table)
  {
    if rs != [] {
      var k := |rs| - 1;
      MergeKeepsVetted(c, m, rs[..k], all, envs[..k]);
      assert rs[k] == all[k];
      MergeOneKeepsVetted(c, Merge(c, m, rs[..k], envs[..k]), m.table, all, rs[k], envs[k]);
    }
  }

  /** Merging entries whose vectors can be relied on is closed: the merged versions all come from verified nodes. */
  lemma VectoredMergesAreClosed(c: Config, m: Model, rs: seq<PushState>, envs: seq<Env>)
    requires |rs| == |envs| && Compatible(rs, m.table) && Vectored(c, rs)
    ensures Compatible([], Merge(c, m, rs, envs).table)
  {
    MergeKeepsVetted(c, m, rs, rs, envs);
    var t := Merge(c, m, rs, envs).table;
    assert Limits([], t) <= Limits(rs, m.table);
    assert Speakers([], t) <= Speakers(rs, m.table);
  }

  /**
   Verified merges are closed: with the local node alive at a protocol minimum
   of at least one, merging a snapshot that passed verification leaves a
   membership that passes it on its own, whatever duplicates the snapshot holds
   and whatever the delegates answer.
   */
  lemma VerifiedMergesAreClosed(c: Config, m: Model, rs: seq<PushState>, envs: seq<Env>, local: Name)
    requires |rs| == |envs| && Compatible(rs, m.table)
    requires local in m.table && m.table[local].node.state.Alive? && m.table[local].node.vsn.pmin >= 1
    ensures Compatible([], Merge(c, m, rs, envs).table)
  {
    assert Demanding(m.table);
    forall r | r in rs && r.state == StateAlive ensures r.vsn != [] {
      VerifiedHaveVectors(rs, m.table, r);
    }
    VectoredMergesAreClosed(c, m, rs, envs);
  }
}
