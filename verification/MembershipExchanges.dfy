/**
 Push/pull exchanges as they interleave with everything else. The merge lock
 lets one exchange at a time verify and merge, but between the verification and
 each of its entries any other critical section may run, gossip among them,
 which nobody verifies. What an alive message does to a verified membership is
 decided exactly, for one message and for whole runs.
 */
module MembershipExchanges {
  import opened Base
  import opened Membership
  import opened MembershipRuns
  import opened MembershipMerge

  // ---------------------------------------------------------------- when an alive message is taken over

  /** The message is accepted as it is: its vector, and what the alive delegate says. */
  predicate Acceptable(c: Config, a: AliveMsg, env: Env) {
    && (a.vsn != [] ==> |a.vsn| >= 6 && 0 < a.vsn[0] <= a.vsn[1])
    && (c.hasAlive ==> a.vsn != [] && env.accept(a))
  }

  /** The message beats what is known: somebody new, newer at the same address, or a takeover of the address. */
  predicate Prevails(c: Config, table: map<Name, Rec>, a: AliveMsg, env: Env) {
    if a.node !in table then env.ipAllowed(a.addr) && a.inc > 0
    else
      var r := table[a.node];
      if IPEqual(r.node.addr, a.addr) && r.node.port == a.port then a.inc > r.inc
      else
        && env.ipAllowed(a.addr)
        && (r.node.state.Left? ||
            (r.node.state.Dead? && c.reclaimAfter > 0 && env.now > r.change + c.reclaimAfter))
  }

  /** The message about another node makes its record alive in what it says. */
  predicate Adopts(c: Config, m: Model, a: AliveMsg, env: Env) {
    !m.shutdown && a.node != c.name && Acceptable(c, a, env) && Prevails(c, m.table, a, env)
  }

  /** The versions the record has then: those of the vector, or without one those it had. */
  function Spoken(table: map<Name, Rec>, a: AliveMsg): Versions {
    if a.vsn != [] && ParseVsn(a.vsn).Some? then ParseVsn(a.vsn).value
    else if a.node in table then table[a.node].node.vsn
    else NoVersions
  }

  lemma AdoptedRecord(c: Config, m: Model, a: AliveMsg, env: Env)
    requires Adopts(c, m, a, env)
    ensures var t := AliveNode(c, m, a, env).table;
            && a.node in t && t[a.node].node.state.Alive? && t[a.node].node.vsn == Spoken(m.table, a)
            && t - {a.node} == m.table - {a.node}
  {
  }

  /** Everybody of the snapshot and of the table gets along with a node of these versions, and it with itself. */
  ghost predicate Welcome(rs: seq<PushState>, table: map<Name, Rec>, v: Versions) {
    && Understands(v, v)
    && (forall s :: s in Speakers(rs, table) ==> Understands(v, s))
    && (forall l :: l in Limits(rs, table) ==> Understands(l, v))
  }

  // ---------------------------------------------------------------- compatible tables

  /** The record of n aside, the others remain compatible. */
  lemma OthersCompatible(rs: seq<PushState>, table: map<Name, Rec>, n: Name)
    requires Compatible(rs, table)
    ensures Compatible(rs, table - {n})
  {
    assert Limits(rs, table - {n}) <= Limits(rs, table);
    assert Speakers(rs, table - {n}) <= Speakers(rs, table);
  }

  lemma FewerEntries(rs: seq<PushState>, table: map<Name, Rec>)
    requires Compatible(rs, table)
    ensures Compatible([], table)
  {
    assert Limits([], table) <= Limits(rs, table);
    assert Speakers([], table) <= Speakers(rs, table);
  }

  lemma AliveParties(rs: seq<PushState>, table: map<Name, Rec>, n: Name)
    requires n in table && table[n].node.state.Alive?
    ensures Limits(rs, table) == Limits(rs, table - {n}) + {table[n].node.vsn}
    ensures Speakers(rs, table) == Speakers(rs, table - {n}) + {table[n].node.vsn}
  {
    var rest, v := table - {n}, table[n].node.vsn;
    forall x | x in Limits(rs, table) ensures x in Limits(rs, rest) + {v} {
      PartyOrRest(rs, table, n, x);
    }
    forall x | x in Speakers(rs, table) ensures x in Speakers(rs, rest) + {v} {
      PartyOrRest(rs, table, n, x);
    }
    assert v in Limits(rs, table) && v in Speakers(rs, table);
  }

  lemma PartyOrRest(rs: seq<PushState>, table: map<Name, Rec>, n: Name, x: Versions)
    requires n in table && table[n].node.state.Alive?
    ensures x in Limits(rs, table) ==> x in Limits(rs, table - {n}) || x == table[n].node.vsn
    ensures x in Speakers(rs, table) ==> x in Speakers(rs, table - {n}) || x == table[n].node.vsn
  {
    var rest := table - {n};
    if k :| k in table && table[k].node.state.Alive? && table[k].node.vsn == x && k != n {
      assert k in rest && rest[k] == table[k];
    }
    if k :| k in table && !DeadOrLeft(table[k]) && table[k].node.vsn == x && k != n {
      assert k in rest && rest[k] == table[k];
    }
  }

  /** A table with an alive record is compatible exactly when the others are and welcome it. */
  lemma CompatibleIffWelcome(rs: seq<PushState>, table: map<Name, Rec>, n: Name)
    requires n in table && table[n].node.state.Alive?
    ensures Compatible(rs, table) <==>
              Compatible(rs, table - {n}) && Welcome(rs, table - {n}, table[n].node.vsn)
  {
    AliveParties(rs, table, n);
    if Compatible(rs, table) {
      OthersCompatible(rs, table, n);
    }
  }

  // ---------------------------------------------------------------- one alive message

  /** The message is ignored, or everybody else gets along with what it says. */
  ghost predicate Suits(c: Config, m: Model, rs: seq<PushState>, a: AliveMsg, env: Env) {
    Adopts(c, m, a, env) ==> Welcome(rs, m.table - {a.node}, Spoken(m.table, a))
  }

  /** Whoever takes part afterwards did so before, with the same versions. */
  ghost predicate Subdued(table: map<Name, Rec>, table': map<Name, Rec>) {
    forall n :: n in table' && !DeadOrLeft(table'[n]) ==>
        && n in table && !DeadOrLeft(table[n]) && table'[n].node.vsn == table[n].node.vsn
        && (table'[n].node.state.Alive? ==> table[n].node.state.Alive?)
  }

  lemma SubduedKeepsCompatible(rs: seq<PushState>, table: map<Name, Rec>, table': map<Name, Rec>)
    requires Compatible(rs, table) && Subdued(table, table')
    ensures Compatible(rs, table')
  {
    assert Limits(rs, table') <= Limits(rs, table);
    assert Speakers(rs, table') <= Speakers(rs, table);
  }

  lemma CommitSubdues(m: Model, n: Name, e: Effect)
    requires KeepsVersions(SlotOf(m, n), e)
    ensures Subdued(m.table, Commit(m, n, e).table)
  {
  }

  lemma IgnoredEffect(c: Config, m: Model, a: AliveMsg, env: Env)
    requires Inv(c, m) && !m.shutdown && !Adopts(c, m, a, env)
    ensures KeepsVersions(SlotOf(m, a.node), AliveEffect(c, m.left, SlotOf(m, a.node), m.counter, a, false, env))
  {
  }

  /** A message that is not taken over brings in nobody, and no versions; a claim to the local name is one. */
  lemma IgnoredSubdues(c: Config, m: Model, a: AliveMsg, env: Env)
    requires Inv(c, m) && !Adopts(c, m, a, env)
    ensures Subdued(m.table, AliveNode(c, m, a, env).table)
  {
    if !m.shutdown {
      IgnoredEffect(c, m, a, env);
      CommitSubdues(m, a.node, AliveEffect(c, m.left, SlotOf(m, a.node), m.counter, a, false, env));
    }
  }

  /**
   Exactly which alive messages keep a membership compatible with itself and
   with a snapshot being merged: those that are ignored, and those in versions
   that get along with everybody else, on both sides, and with themselves.
   */
  lemma AliveKeepsCompatibleIff(c: Config, m: Model, rs: seq<PushState>, a: AliveMsg, env: Env)
    requires Inv(c, m) && Compatible(rs, m.table)
    ensures Compatible(rs, AliveNode(c, m, a, env).table) <==> Suits(c, m, rs, a, env)
  {
    var t := AliveNode(c, m, a, env).table;
    if Adopts(c, m, a, env) {
      AdoptedRecord(c, m, a, env);
      OthersCompatible(rs, m.table, a.node);
      CompatibleIffWelcome(rs, t, a.node);
    } else {
      IgnoredSubdues(c, m, a, env);
      SubduedKeepsCompatible(rs, m.table, t);
    }
  }

  /** Versions that some alive member, or some alive entry of the snapshot with a vector, has always suit. */
  lemma FamiliarSuits(c: Config, m: Model, rs: seq<PushState>, a: AliveMsg, env: Env)
    requires Compatible(rs, m.table)
    requires Spoken(m.table, a) in Limits(rs, m.table) && Spoken(m.table, a) in Speakers(rs, m.table)
    ensures Suits(c, m, rs, a, env)
  {
    var rest := m.table - {a.node};
    assert Limits(rs, rest) <= Limits(rs, m.table);
    assert Speakers(rs, rest) <= Speakers(rs, m.table);
  }

  // ---------------------------------------------------------------- other critical sections

  lemma UpdateSubdues(c: Config, m: Model, meta: Bytes, env: Env)
    requires Inv(c, m) && ProperVersions(c.vsn) && m.counter < MaxUint32
    ensures Subdued(m.table, UpdateLocal(c, m, meta, env).table)
  {
  }

  lemma LeaveSubdues(c: Config, m: Model, env: Env)
    ensures Subdued(m.table, LeaveCluster(c, m, env).table)
  {
    if !m.shutdown && !m.left && c.name in m.table {
      var m1, d := m.(left := true), DeadMsg(m.table[c.name].inc, c.name, c.name);
      DeadKeepsVersions(c, true, SlotOf(m1, c.name), m.counter, d, env.now);
      CommitSubdues(m1, c.name, DeadEffect(c, true, SlotOf(m1, c.name), m.counter, d, env.now));
    }
  }

  /** No critical section but an alive message brings in anybody or any versions. */
  lemma StepSubdues(c: Config, m: Model, st: Step)
    requires Inv(c, m) && ProperVersions(c.vsn) && CounterRoom(m, st) && !st.AliveStep?
    ensures Subdued(m.table, Next(c, m, st).table)
  {
    match st
    case SuspectStep(s, env) =>
      SuspectKeepsVersions(c, |m.table|, SlotOf(m, s.node), m.counter, s, env.now);
      CommitSubdues(m, s.node, SuspectEffect(c, |m.table|, SlotOf(m, s.node), m.counter, s, env.now));
    case DeadStep(d, env) =>
      DeadKeepsVersions(c, m.left, SlotOf(m, d.node), m.counter, d, env.now);
      CommitSubdues(m, d.node, DeadEffect(c, m.left, SlotOf(m, d.node), m.counter, d, env.now));
    case ExpireStep(n, change, env) =>
      var slot := SlotOf(m, n);
      if slot.rec.Some? {
        DeadKeepsVersions(c, m.left, slot, m.counter, DeadMsg(slot.rec.value.inc, n, c.name), env.now);
      }
      CommitSubdues(m, n, ExpireEffect(c, m.left, slot, m.counter, n, change, env.now));
    case ReapStep(env) =>
    case LeaveStep(env) => LeaveSubdues(c, m, env);
    case UpdateStep(meta, env) => UpdateSubdues(c, m, meta, env);
    case ShutdownStep =>
  }

  // ---------------------------------------------------------------- runs

  /** The instance, and the snapshot of the exchange that holds the merge lock. */
  datatype Sys = Sys(m: Model, rs: seq<PushState>)

  datatype Move =
    | Verify(rs: seq<PushState>)       // the merge lock is taken and verifyProtocol runs
    | Entry(r: PushState, env: Env)    // one entry of mergeState
    | Handle(st: Step)                 // any other critical section

  ghost predicate Allowed(s: Sys, mv: Move) {
    match mv
    case Verify(_) => true
    case Entry(r, _) => r in s.rs
    case Handle(st) => CounterRoom(s.m, st)
  }

  /** An exchange that fails verification merges nothing. */
  ghost function After(c: Config, s: Sys, mv: Move): Sys {
    match mv
    case Verify(rs) => s.(rs := if Compatible(rs, s.m.table) then rs else [])
    case Entry(r, env) => s.(m := MergeOne(c, s.m, r, env))
    case Handle(st) => s.(m := Next(c, s.m, st))
  }

  ghost predicate Linked(c: Config, ss: seq<Sys>, moves: seq<Move>, i: nat)
    requires i < |moves| < |ss|
  {
    Allowed(ss[i], moves[i]) && ss[i + 1] == After(c, ss[i], moves[i])
  }

  /** Exchanges and other work, from a membership that passes verification. */
  ghost predicate IsRun(c: Config, ss: seq<Sys>, moves: seq<Move>) {
    && ProperVersions(c.vsn)
    && |ss| == |moves| + 1
    && Inv(c, ss[0].m) && Compatible(ss[0].rs, ss[0].m.table)
    && forall i: nat :: i < |moves| ==> Linked(c, ss, moves, i)
  }

  /** The critical section an entry runs, unless its state is unknown. */
  function StepOf(c: Config, r: PushState, env: Env): Option<Step> {
    if r.state == StateAlive then Some(AliveStep(AsAlive(r), env))
    else if r.state == StateLeft then Some(DeadStep(DeadMsg(r.inc, r.name, r.name), env))
    else if r.state == StateDead || r.state == StateSuspect then
      Some(SuspectStep(SuspectMsg(r.inc, r.name, c.name), env))
    else None
  }

  /** The critical section a move runs, if any. */
  function Section(c: Config, mv: Move): Option<Step> {
    match mv
    case Verify(_) => None
    case Entry(r, env) => StepOf(c, r, env)
    case Handle(st) => Some(st)
  }

  /** A move that applies an alive message, gossip or entry, that does not suit. */
  ghost predicate Unsuited(c: Config, s: Sys, mv: Move) {
    && Section(c, mv).Some? && Section(c, mv).value.AliveStep?
    && !Suits(c, s.m, s.rs, Section(c, mv).value.a, Section(c, mv).value.env)
  }

  lemma MoveIsSection(c: Config, s: Sys, mv: Move)
    requires Allowed(s, mv)
    ensures After(c, s, mv).m == if Section(c, mv).Some? then Next(c, s.m, Section(c, mv).value) else s.m
    ensures Section(c, mv).Some? ==> CounterRoom(s.m, Section(c, mv).value) && After(c, s, mv).rs == s.rs
  {
  }

  lemma MoveKeepsInv(c: Config, s: Sys, mv: Move)
    requires Inv(c, s.m) && ProperVersions(c.vsn) && Allowed(s, mv)
    ensures Inv(c, After(c, s, mv).m)
  {
    MoveIsSection(c, s, mv);
    if Section(c, mv).Some? {
      StepKeepsInv(c, s.m, Section(c, mv).value);
    }
  }

  /** A move keeps the membership compatible, with itself and with the pending snapshot, exactly when it suits. */
  lemma MoveKeepsCompatibleIff(c: Config, s: Sys, mv: Move)
    requires Inv(c, s.m) && ProperVersions(c.vsn) && Allowed(s, mv) && Compatible(s.rs, s.m.table)
    ensures Compatible(After(c, s, mv).rs, After(c, s, mv).m.table) <==> !Unsuited(c, s, mv)
  {
    MoveIsSection(c, s, mv);
    if Section(c, mv).None? {
      FewerEntries(s.rs, s.m.table);
    } else {
      var st := Section(c, mv).value;
      if st.AliveStep? {
        AliveKeepsCompatibleIff(c, s.m, s.rs, st.a, st.env);
      } else {
        StepSubdues(c, s.m, st);
        SubduedKeepsCompatible(s.rs, s.m.table, Next(c, s.m, st).table);
      }
    }
  }

  lemma {:induction false} RunsKeepInv(c: Config, ss: seq<Sys>, moves: seq<Move>, i: nat)
    requires IsRun(c, ss, moves) && i < |ss|
    ensures Inv(c, ss[i].m)
  {
    if i > 0 {
      RunsKeepInv(c, ss, moves, i - 1);
      assert Linked(c, ss, moves, i - 1);
      MoveKeepsInv(c, ss[i - 1], moves[i - 1]);
    }
  }

  ghost predicate CompatibleAt(ss: seq<Sys>, i: nat)
    requires i < |ss|
  {
    Compatible(ss[i].rs, ss[i].m.table)
  }

  lemma LinkedCompatible(c: Config, ss: seq<Sys>, moves: seq<Move>, i: nat)
    requires IsRun(c, ss, moves) && i < |moves| && CompatibleAt(ss, i)
    ensures CompatibleAt(ss, i + 1) <==> !Unsuited(c, ss[i], moves[i])
  {
    assert Linked(c, ss, moves, i);
    RunsKeepInv(c, ss, moves, i);
    MoveKeepsCompatibleIff(c, ss[i], moves[i]);
  }

  lemma {:induction false} SuitedStaysCompatible(c: Config, ss: seq<Sys>, moves: seq<Move>, i: nat)
    requires IsRun(c, ss, moves) && i < |ss|
    requires forall k :: 0 <= k < i ==> !Unsuited(c, ss[k], moves[k])
    ensures CompatibleAt(ss, i)
  {
    if i > 0 {
      SuitedStaysCompatible(c, ss, moves, i - 1);
      LinkedCompatible(c, ss, moves, i - 1);
    }
  }

  /**
   Over any run of exchanges, gossip and everything else, the membership is at
   every moment compatible, with itself and with what the exchange at work has
   yet to merge, exactly when every alive message suited when it was applied.
   */
  lemma ExchangesStayCompatibleIff(c: Config, ss: seq<Sys>, moves: seq<Move>)
    requires IsRun(c, ss, moves)
    ensures (forall i: nat :: i < |ss| ==> CompatibleAt(ss, i)) <==>
              forall k: nat :: k < |moves| ==> !Unsuited(c, ss[k], moves[k])
  {
    if forall i: nat :: i < |ss| ==> CompatibleAt(ss, i) {
      forall k: nat | k < |moves| ensures !Unsuited(c, ss[k], moves[k]) {
        assert CompatibleAt(ss, k) && CompatibleAt(ss, k + 1);
        LinkedCompatible(c, ss, moves, k);
      }
    }
    if forall k: nat :: k < |moves| ==> !Unsuited(c, ss[k], moves[k]) {
      forall i: nat | i < |ss| ensures CompatibleAt(ss, i) {
        SuitedStaysCompatible(c, ss, moves, i);
      }
    }
  }

  // ---------------------------------------------------------------- verification vouches for entries

  /** The exchange is verified where alive entries without a vector are refused, or it has none. */
  ghost predicate Vouched(c: Config, s: Sys, mv: Move) {
    mv.Verify? ==> Demanding(s.m.table) || Vectored(c, mv.rs)
  }

  /** An entry of a snapshot whose vectors can be relied on always suits. */
  lemma VerifiedEntriesSuit(c: Config, m: Model, rs: seq<PushState>, r: PushState, env: Env)
    requires Compatible(rs, m.table) && Vectored(c, rs) && r in rs && r.state == StateAlive
    ensures Suits(c, m, rs, AsAlive(r), env)
  {
    if Adopts(c, m, AsAlive(r), env) {
      assert r.vsn != [] && Spoken(m.table, AsAlive(r)) == VsnOf(r);
      FamiliarSuits(c, m, rs, AsAlive(r), env);
    }
  }

  lemma VerifyVets(c: Config, s: Sys, rs: seq<PushState>)
    requires Vouched(c, s, Verify(rs))
    ensures Vectored(c, After(c, s, Verify(rs)).rs)
  {
    if Compatible(rs, s.m.table) && Demanding(s.m.table) {
      forall r | r in rs && r.state == StateAlive ensures r.vsn != [] {
        VerifiedHaveVectors(rs, s.m.table, r);
      }
    }
  }

  lemma VouchedStep(c: Config, ss: seq<Sys>, moves: seq<Move>, i: nat)
    requires IsRun(c, ss, moves) && i < |moves| && CompatibleAt(ss, i) && Vectored(c, ss[i].rs)
    requires Vouched(c, ss[i], moves[i]) && (moves[i].Handle? ==> !Unsuited(c, ss[i], moves[i]))
    ensures CompatibleAt(ss, i + 1) && Vectored(c, ss[i + 1].rs)
  {
    assert Linked(c, ss, moves, i);
    var mv := moves[i];
    if mv.Verify? {
      VerifyVets(c, ss[i], mv.rs);
    } else if mv.Entry? && mv.r.state == StateAlive {
      VerifiedEntriesSuit(c, ss[i].m, ss[i].rs, mv.r, mv.env);
    }
    LinkedCompatible(c, ss, moves, i);
  }

  lemma {:induction false} RunsStayVouched(c: Config, ss: seq<Sys>, moves: seq<Move>, i: nat)
    requires IsRun(c, ss, moves) && i < |ss| && Vectored(c, ss[0].rs)
    requires forall k: nat :: k < |moves| ==> Vouched(c, ss[k], moves[k])
    requires forall k: nat :: k < |moves| && moves[k].Handle? ==> !Unsuited(c, ss[k], moves[k])
    ensures CompatibleAt(ss, i) && Vectored(c, ss[i].rs)
  {
    if i > 0 {
      RunsStayVouched(c, ss, moves, i - 1);
      assert Vouched(c, ss[i - 1], moves[i - 1]);
      VouchedStep(c, ss, moves, i - 1);
    }
  }

  /**
   Under the merge lock exchanges never admit a mixed-protocol membership: with
   an alive delegate, or an alive node that refuses nodes without versions when
   the exchange is verified, it passes verification at every moment, whatever
   suspicions, deaths, expiries, reaping, updates, leaving and suited gossip come
   in between, even between two entries of one snapshot.
   */
  lemma ExchangesStayCompatible(c: Config, ss: seq<Sys>, moves: seq<Move>, i: nat)
    requires IsRun(c, ss, moves) && i < |ss| && Vectored(c, ss[0].rs)
    requires forall k: nat :: k < |moves| ==> Vouched(c, ss[k], moves[k])
    requires forall k: nat :: k < |moves| && moves[k].Handle? ==> !Unsuited(c, ss[k], moves[k])
    ensures Compatible([], ss[i].m.table)
  {
    RunsStayVouched(c, ss, moves, i);
    FewerEntries(ss[i].rs, ss[i].m.table);
  }

  /** Until it leaves, an instance itself is a node that refuses nodes without versions. */
  lemma LocalIsDemanding(c: Config, m: Model)
    requires Inv(c, m) && ProperVersions(c.vsn) && !m.left
    ensures Demanding(m.table)
  {
    assert c.name in m.table && m.table[c.name].node.state.Alive? && m.table[c.name].node.vsn == c.vsn;
  }

  // ---------------------------------------------------------------- what the lock is for

  /** An alive entry about somebody new, with the given versions. */
  function Newcomer(name: Name, v: Versions): PushState {
    PushState(name, [], 0, [], 1, StateAlive, VsnBytes(v))
  }

  const Calm := Env(0, a => true, a => true)

  lemma NewcomerJoins(c: Config, m: Model, x: Name, v: Versions)
    requires !m.shutdown && x != c.name && x !in m.table && ProperVersions(v)
    ensures MergeOne(c, m, Newcomer(x, v), Calm).table ==
              m.table[x := Rec(Node([], 0, [], Alive, v), 1, 0)]
    ensures !MergeOne(c, m, Newcomer(x, v), Calm).shutdown
  {
  }

  lemma WelcomeIsCompatible(table: map<Name, Rec>, x: Name, v: Versions)
    requires Compatible([], table) && Welcome([], table, v)
    ensures Compatible([Newcomer(x, v)], table)
  {
    var rs := [Newcomer(x, v)];
    assert VsnOf(rs[0]) == v;
    forall l, s | l in Limits(rs, table) && s in Speakers(rs, table) ensures Understands(l, s) {
      assert l == v || l in Limits([], table);
      assert s == v || s in Speakers([], table);
    }
  }

  /**
   Without the lock it fails: two newcomers that the members get along with, but
   not one with the other, each pass verification in a snapshot of their own;
   verified side by side and merged one after the other they mix the protocols.
   */
  lemma SideBySideExchangesClash(c: Config, m: Model, x: Name, v: Versions, y: Name, w: Versions)
    requires !m.shutdown && x != y && x != c.name && y != c.name && x !in m.table && y !in m.table
    requires ProperVersions(v) && ProperVersions(w) && Compatible([], m.table)
    requires Welcome([], m.table, v) && Welcome([], m.table, w) && !Understands(v, w)
    ensures Compatible([Newcomer(x, v)], m.table) && Compatible([Newcomer(y, w)], m.table)
    ensures var m1 := MergeOne(c, m, Newcomer(x, v), Calm);
            !Compatible([Newcomer(y, w)], m1.table) && !Compatible([], MergeOne(c, m1, Newcomer(y, w), Calm).table)
  {
    WelcomeIsCompatible(m.table, x, v);
    WelcomeIsCompatible(m.table, y, w);
    NewcomerJoins(c, m, x, v);
    var m1 := MergeOne(c, m, Newcomer(x, v), Calm);
    NewcomerJoins(c, m1, y, w);
    var t := MergeOne(c, m1, Newcomer(y, w), Calm).table;
    assert t[x].node.vsn in Limits([], t) && t[y].node.vsn in Speakers([], t);
    assert m1.table[x].node.vsn in Limits([Newcomer(y, w)], m1.table);
    assert VsnOf(Newcomer(y, w)) == w && w in Speakers([Newcomer(y, w)], m1.table);
  }

  /** Such newcomers exist for a member alone in its table, whatever else it can do, if it can do two protocols. */
  lemma ClashingPair(me: Versions) returns (v: Versions, w: Versions)
    requires ProperVersions(me) && me.pmin <= me.pcur < me.pmax && me.dmin <= me.dcur <= me.dmax
    ensures ProperVersions(v) && ProperVersions(w) && !Understands(v, w)
    ensures forall t: map<Name, Rec> :: (forall n :: n in t ==> t[n].node.vsn == me) ==>
              Welcome([], t, v) && Welcome([], t, w)
  {
    v := me.(pmax := me.pcur);
    w := me.(pcur := me.pcur + 1);
  }

  // ---------------------------------------------------------------- gossip about newcomers

  /** Gossip about somebody new keeps a membership compatible exactly when the members welcome the newcomer. */
  lemma NewcomerKeepsCompatibleIff(c: Config, m: Model, x: Name, v: Versions)
    requires !m.shutdown && x != c.name && x !in m.table && ProperVersions(v) && Compatible([], m.table)
    ensures Compatible([], AliveNode(c, m, AsAlive(Newcomer(x, v)), Calm).table) <==> Welcome([], m.table, v)
  {
    NewcomerJoins(c, m, x, v);
    var t := MergeOne(c, m, Newcomer(x, v), Calm).table;
    assert t - {x} == m.table;
    CompatibleIffWelcome([], t, x);
  }

  /** A vector that is accepted, although the node does not understand the version it speaks itself. */
  const Confused := Versions(1, 1, 0, 0, 0, 0)

  /** Gossip is not verified: into every membership an accepted alive message can mix the protocols. */
  lemma GossipIsNotVerified(c: Config, m: Model, x: Name)
    requires !m.shutdown && x != c.name && x !in m.table && Compatible([], m.table)
    ensures Adopts(c, m, AsAlive(Newcomer(x, Confused)), Calm)
    ensures !Compatible([], AliveNode(c, m, AsAlive(Newcomer(x, Confused)), Calm).table)
  {
    NewcomerKeepsCompatibleIff(c, m, x, Confused);
  }
}
