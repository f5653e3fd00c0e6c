/** Exactly when verified merges are closed, with or without a local node that insists on version vectors. */
module MembershipClosure {
  import opened Base
  import opened Membership
  import opened MembershipMerge

  /** Every verified snapshot merges into a membership that passes verification on its own. */
  ghost predicate AlwaysClosed(c: Config, m: Model) {
    forall rs: seq<PushState>, envs: seq<Env> :: |rs| == |envs| && Compatible(rs, m.table) ==> ClosedFor(c, m, rs, envs)
  }

  ghost predicate ClosedFor(c: Config, m: Model, rs: seq<PushState>, envs: seq<Env>)
    requires |rs| == |envs|
  {
    Compatible([], Merge(c, m, rs, envs).table)
  }

  predicate Silent(v: Versions) { v.pcur == 0 && v.dcur == 0 }

  predicate Lenient(v: Versions) { v.pmin == 0 && v.dmin == 0 }

  /** A merge may leave this record taking part, or alive: it is so already, or an alive message can make it so. */
  predicate MayTakePart(c: Config, n: Name, r: Rec) { n != c.name || !DeadOrLeft(r) }

  predicate MayBeAlive(c: Config, n: Name, r: Rec) { n != c.name || r.node.state.Alive? }

  /** The record of n clashes, as it is or once it is revived, with a record that has no versions. */
  predicate Clashes(c: Config, n: Name, r: Rec) {
    || (MayTakePart(c, n, r) && !Silent(r.node.vsn))
    || (MayBeAlive(c, n, r) && !Lenient(r.node.vsn))
  }

  /** Nobody who may come to take part has any versions to clash with a node that has none. */
  ghost predicate Bland(c: Config, table: map<Name, Rec>) { forall n :: n in table ==> !Clashes(c, n, table[n]) }

  lemma BlandIsCompatible(c: Config, table: map<Name, Rec>)
    requires Bland(c, table)
    ensures Compatible([], table)
  {
  }

  /** Once an alive entry has no vector, no entry with an acceptable vector is left among the alive ones. */
  lemma VectorsImproper(rs: seq<PushState>, table: map<Name, Rec>, bare: PushState, r: PushState)
    requires Compatible(rs, table) && bare in rs && bare.state == StateAlive && bare.vsn == []
    requires r in rs && r.state == StateAlive && r.vsn != []
    ensures !ProperVersions(VsnOf(r))
  {
    assert VsnOf(bare) in Speakers(rs, table) && VsnOf(r) in Limits(rs, table);
    assert Understands(VsnOf(r), VsnOf(bare));
  }

  /** An entry without acceptable vector leaves versions alone, except on a record it creates, which has none. */
  lemma BareEffect(c: Config, left: bool, size: nat, slot: Slot, counter: u32, r: PushState, env: Env)
    requires r.state == StateAlive && r.vsn != [] ==> !ProperVersions(VsnOf(r)) && ParseVsn(r.vsn).Some?
    ensures var e := MergeEffect(c, left, size, slot, counter, r, env);
            && (slot.rec.Some? ==> e.slot.rec.Some? && e.slot.rec.value.node.vsn == slot.rec.value.node.vsn)
            && (slot.rec.None? && e.slot.rec.Some? ==> e.slot.rec.value.node.vsn == NoVersions)
            && (slot.rec.Some? && r.name == c.name ==>
                  && (MayTakePart(c, r.name, e.slot.rec.value) ==> MayTakePart(c, r.name, slot.rec.value))
                  && (MayBeAlive(c, r.name, e.slot.rec.value) ==> MayBeAlive(c, r.name, slot.rec.value)))
  {
  }

  lemma StoreKeepsBland(c: Config, table: map<Name, Rec>, n: Name, rec: Option<Rec>)
    requires Bland(c, table) && (rec.Some? ==> !Clashes(c, n, rec.value))
    ensures Bland(c, Store(table, n, rec))
  {
  }

  lemma BareEffectIsBland(c: Config, left: bool, size: nat, slot: Slot, counter: u32, r: PushState, env: Env)
    requires r.state == StateAlive && r.vsn != [] ==> !ProperVersions(VsnOf(r)) && ParseVsn(r.vsn).Some?
    requires slot.rec.Some? ==> !Clashes(c, r.name, slot.rec.value)
    ensures var e := MergeEffect(c, left, size, slot, counter, r, env);
            e.slot.rec.Some? ==> !Clashes(c, r.name, e.slot.rec.value)
  {
    BareEffect(c, left, size, slot, counter, r, env);
  }

  lemma BareOneKeepsBland(c: Config, m: Model, r: PushState, env: Env)
    requires Bland(c, m.table)
    requires r.state == StateAlive && r.vsn != [] ==> !ProperVersions(VsnOf(r)) && ParseVsn(r.vsn).Some?
    ensures Bland(c, MergeOne(c, m, r, env).table)
  {
    if !m.shutdown {
      MergeOneIsCommit(c, m, r, env);
      var e := MergeEffect(c, m.left, |m.table|, SlotOf(m, r.name), m.counter, r, env);
      BareEffectIsBland(c, m.left, |m.table|, SlotOf(m, r.name), m.counter, r, env);
      StoreKeepsBland(c, m.table, r.name, e.slot.rec);
    }
  }

  lemma {:induction false} BareKeepsBland(c: Config, m: Model, rs: seq<PushState>, envs: seq<Env>)
    requires |rs| == |envs| && Bland(c, m.table)
    requires forall r :: r in rs && r.state == StateAlive && r.vsn != [] ==>
               !ProperVersions(VsnOf(r)) && ParseVsn(r.vsn).Some?
    ensures Bland(c, Merge(c, m, rs, envs).table)
  {
    if rs != [] {
      var k := |rs| - 1;
      BareKeepsBland(c, m, rs[..k], envs[..k]);
      BareOneKeepsBland(c, Merge(c, m, rs[..k], envs[..k]), rs[k], envs[k]);
    }
  }

  /** With bland records only, every verified merge is closed. */
  lemma BlandCloses(c: Config, m: Model, rs: seq<PushState>, envs: seq<Env>)
    requires |rs| == |envs| && Compatible(rs, m.table) && Bland(c, m.table)
    ensures ClosedFor(c, m, rs, envs)
  {
    if bare :| bare in rs && bare.state == StateAlive && bare.vsn == [] {
      forall r | r in rs && r.state == StateAlive && r.vsn != []
        ensures !ProperVersions(VsnOf(r)) && ParseVsn(r.vsn).Some?
      {
        VectorsImproper(rs, m.table, bare, r);
      }
      BareKeepsBland(c, m, rs, envs);
      BlandIsCompatible(c, Merge(c, m, rs, envs).table);
    } else {
      VectoredMergesAreClosed(c, m, rs, envs);
    }
  }

  // ---------------------------------------------------------------- when it fails

  lemma UnusedName(names: set<Name>) returns (x: Name)
    ensures x !in names
  {
    x := "";
    var rest := names;
    while rest != {}
      invariant forall n :: n in names ==> n in rest || |n| < |x|
    {
      var n :| n in rest;
      rest := rest - {n};
      x := if |n| < |x| then x else n + "x";
    }
  }

  const Anything := Env(0, a => true, a => true)

  /** An alive entry without a vector. */
  function Bare(name: Name, addr: IP, port: u16, inc: u32): PushState {
    PushState(name, addr, port, [], inc, StateAlive, [])
  }

  /** A bare entry about somebody new makes an alive record without versions. */
  lemma BareJoins(c: Config, m: Model, x: Name)
    requires !m.shutdown && !c.hasAlive && x !in m.table && x != c.name
    ensures var m' := MergeOne(c, m, Bare(x, [], 0, 1), Anything);
            && x in m'.table && m'.table[x].node.state.Alive? && m'.table[x].node.vsn == NoVersions
            && !m'.shutdown && forall n :: n in m.table ==> n in m'.table && m'.table[n] == m.table[n]
  {
  }

  /** A bare, newer entry about somebody known makes the record alive with the versions it had. */
  lemma BareRevives(c: Config, m: Model, n: Name)
    requires !m.shutdown && !c.hasAlive && n in m.table && n != c.name && m.table[n].inc < MaxUint32
    ensures var r := m.table[n];
            var m' := MergeOne(c, m, Bare(n, r.node.addr, r.node.port, r.inc + 1), Anything);
            && n in m'.table && m'.table[n].node.state.Alive? && m'.table[n].node.vsn == r.node.vsn
            && forall y :: y in m.table && y != n ==> y in m'.table && m'.table[y] == m.table[y]
  {
    IPEqualIsEquivalence(m.table[n].node.addr, m.table[n].node.addr, m.table[n].node.addr);
  }

  /** Bare entries pass verification when no alive node insists on versions. */
  lemma BarePass(rs: seq<PushState>, table: map<Name, Rec>)
    requires Compatible([], table) && !Demanding(table)
    requires forall r :: r in rs ==> r.state == StateAlive && r.vsn == []
    ensures Compatible(rs, table)
  {
    assert Limits(rs, table) == Limits([], table);
    forall l, s | l in Limits(rs, table) && s in Speakers(rs, table)
      ensures Understands(l, s)
    {
      assert s in Speakers([], table) || s == NoVersions;
    }
  }

  /** A clash with a record that has no versions. */
  lemma Clash(table: map<Name, Rec>, x: Name, n: Name)
    requires x in table && table[x].node.state.Alive? && table[x].node.vsn == NoVersions
    requires n in table && !DeadOrLeft(table[n])
    requires !Silent(table[n].node.vsn) || (table[n].node.state.Alive? && !Lenient(table[n].node.vsn))
    ensures !Compatible([], table)
  {
    assert table[x].node.vsn in Limits([], table) && table[x].node.vsn in Speakers([], table);
    assert table[n].node.vsn in Speakers([], table);
    assert table[n].node.state.Alive? ==> table[n].node.vsn in Limits([], table);
  }

  lemma MergeOfOne(c: Config, m: Model, r: PushState, env: Env)
    ensures Merge(c, m, [r], [env]) == MergeOne(c, m, r, env)
  {
    assert [r][..0] == [] && [env][..0] == [];
  }

  lemma MergeOfTwo(c: Config, m: Model, r: PushState, s: PushState, env: Env)
    ensures Merge(c, m, [r, s], [env, env]) == MergeOne(c, MergeOne(c, m, r, env), s, env)
  {
    MergeOfOne(c, m, r, env);
    assert [r, s][..1] == [r] && [env, env][..1] == [env];
  }

  /** A newcomer without versions breaks closure against the local record. */
  lemma JoinBreaks(c: Config, m: Model, x: Name)
    requires !m.shutdown && !c.hasAlive && x !in m.table && x != c.name
    requires c.name in m.table && Clashes(c, c.name, m.table[c.name])
    ensures !ClosedFor(c, m, [Bare(x, [], 0, 1)], [Anything])
  {
    BareJoins(c, m, x);
    MergeOfOne(c, m, Bare(x, [], 0, 1), Anything);
    Clash(MergeOne(c, m, Bare(x, [], 0, 1), Anything).table, x, c.name);
  }

  /** A newcomer without versions, and a bare entry about n, break closure. */
  lemma JoinAndRevivalBreak(c: Config, m: Model, x: Name, n: Name, back: PushState)
    requires !m.shutdown && !c.hasAlive && x !in m.table && x != c.name
    requires n in m.table && n != c.name && m.table[n].inc < MaxUint32 && Clashes(c, n, m.table[n])
    requires back == Bare(n, m.table[n].node.addr, m.table[n].node.port, m.table[n].inc + 1)
    ensures !ClosedFor(c, m, [Bare(x, [], 0, 1), back], [Anything, Anything])
  {
    var join := Bare(x, [], 0, 1);
    BareJoins(c, m, x);
    var m1 := MergeOne(c, m, join, Anything);
    BareRevives(c, m1, n);
    MergeOfTwo(c, m, join, back, Anything);
    Clash(MergeOne(c, m1, back, Anything).table, x, n);
  }

  /** The snapshot that breaks closure. */
  lemma Breaks(c: Config, m: Model, n: Name) returns (rs: seq<PushState>, envs: seq<Env>)
    requires !m.shutdown && !c.hasAlive && Compatible([], m.table) && !Demanding(m.table)
    requires n in m.table && m.table[n].inc < MaxUint32 && Clashes(c, n, m.table[n])
    ensures |rs| == |envs| && Compatible(rs, m.table) && !ClosedFor(c, m, rs, envs)
  {
    var r := m.table[n];
    var x := UnusedName(m.table.Keys + {c.name});
    if n == c.name {
      rs, envs := [Bare(x, [], 0, 1)], [Anything];
      JoinBreaks(c, m, x);
    } else {
      var back := Bare(n, r.node.addr, r.node.port, r.inc + 1);
      rs, envs := [Bare(x, [], 0, 1), back], [Anything, Anything];
      JoinAndRevivalBreak(c, m, x, n, back);
    }
    BarePass(rs, m.table);
  }

  /**
   Verified merges into a membership are always closed exactly when the alive
   delegate is there to refuse entries without a vector, some alive node refuses
   nodes without versions, or nobody who may come to take part has versions that
   clash with having none.
   */
  lemma AlwaysClosedIff(c: Config, m: Model)
    requires !m.shutdown && Compatible([], m.table) && forall n :: n in m.table ==> m.table[n].inc < MaxUint32
    ensures AlwaysClosed(c, m) <==> c.hasAlive || Demanding(m.table) || Bland(c, m.table)
  {
    if c.hasAlive || Demanding(m.table) || Bland(c, m.table) {
      forall rs: seq<PushState>, envs: seq<Env> | |rs| == |envs| && Compatible(rs, m.table)
        ensures ClosedFor(c, m, rs, envs)
      {
        if Bland(c, m.table) {
          BlandCloses(c, m, rs, envs);
        } else {
          forall r | r in rs && r.state == StateAlive && !c.hasAlive ensures r.vsn != [] {
            VerifiedHaveVectors(rs, m.table, r);
          }
          VectoredMergesAreClosed(c, m, rs, envs);
        }
      }
    } else {
      var n :| n in m.table && Clashes(c, n, m.table[n]);
      var rs, envs := Breaks(c, m, n);
    }
  }
}
