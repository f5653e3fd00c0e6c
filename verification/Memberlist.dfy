/**
 The instance's tables as the program keeps them: a slice and a map of shared
 node records, a map of timers, and counters, all updated in place. Every
 critical section is proved to do to them what the membership model does.
 */
module MemberlistState {
  import opened Base
  import opened Membership
  import opened MembershipRuns
  import opened MembershipMerge
  import Suspicion

  /** A node record, shared by the slice and the map. */
  class NodeRecord {
    const name: Name
    var addr: IP
    var port: u16
    var meta: Bytes
    var state: NodeState
    var vsn: Versions
    var inc: u32
    var change: Time

    ghost function View(): Rec
      reads this
    {
      Rec(Node(addr, port, meta, state, vsn), inc, change)
    }

    constructor (a: AliveMsg)
      requires ParseVsn(a.vsn).Some?
      ensures View() == FirstRec(a) && name == a.node
    {
      name, addr, port, meta, state := a.node, a.addr, a.port, a.meta, Dead;
      vsn := if a.vsn == [] then NoVersions else ParseVsn(a.vsn).value;
      inc, change := 0, 0;
    }

    function Snapshot(): Node
      reads this
    {
      Node(addr, port, meta, state, vsn)
    }

    /** Take over what an alive message says. */
    method Adopt(a: AliveMsg, now: Time)
      requires ParseVsn(a.vsn).Some?
      modifies this
      ensures View() == AliveRec(old(View()), a, now)
    {
      if a.vsn != [] {
        vsn := ParseVsn(a.vsn).value;
      }
      inc, meta, addr, port := a.inc, a.meta, a.addr, a.port;
      if !state.Alive? {
        state, change := Alive, now;
      }
    }

    method Mark(inc: u32, state: NodeState, now: Time)
      modifies this
      ensures View() == Rec(old(View()).node.(state := state), inc, now)
    {
      this.inc, this.state, this.change := inc, state, now;
    }
  }

  /** The slice lists every mapped record once, and numNodes is its length. */
  ghost predicate Listed(nodes: seq<NodeRecord>, nodeMap: map<Name, NodeRecord>, numNodes: nat) {
    && numNodes == |nodes| == |nodeMap|
    && (forall i, j :: 0 <= i < j < |nodes| ==> nodes[i] != nodes[j])
    && (forall i :: 0 <= i < |nodes| ==> nodes[i].name in nodeMap && nodeMap[nodes[i].name] == nodes[i])
    && (forall n :: n in nodeMap ==> nodeMap[n].name == n)
  }

  /** Being as many, distinct and mapped by name, the listed records are all the mapped ones. */
  lemma ListedCoversMap(nodes: seq<NodeRecord>, nodeMap: map<Name, NodeRecord>, numNodes: nat, n: Name)
    requires Listed(nodes, nodeMap, numNodes) && n in nodeMap
    ensures nodeMap[n] in nodes
  {
    var names := ListedNames(nodes, nodeMap, numNodes, |nodes|);
    assert |nodeMap.Keys - names| == |nodeMap.Keys| - |names|;
    assert n in names;
  }

  lemma {:induction false} ListedNames(nodes: seq<NodeRecord>, nodeMap: map<Name, NodeRecord>, numNodes: nat, k: nat)
    returns (names: set<Name>)
    requires Listed(nodes, nodeMap, numNodes) && k <= |nodes|
    ensures names <= nodeMap.Keys && |names| == k
    ensures forall n :: n in names ==> exists i :: 0 <= i < k && nodes[i].name == n
  {
    if k == 0 {
      names := {};
    } else {
      var before := ListedNames(nodes, nodeMap, numNodes, k - 1);
      names := before + {nodes[k - 1].name};
    }
  }

  ghost predicate Distinct(timers: map<Name, Suspicion.Timeout>) {
    forall n, k :: n in timers && k in timers && n != k ==> timers[n] != timers[k]
  }

  class Memberlist {
    const c: Config
    var nodes: seq<NodeRecord>
    var nodeMap: map<Name, NodeRecord>
    var numNodes: nat
    var nodeTimers: map<Name, Suspicion.Timeout>
    var incarnation: u32
    var left: bool
    var shutdown: bool
    var events: seq<Event>
    var casts: seq<Broadcast>
    ghost var model: Model

    /** What the maps hold for a name. */
    ghost function Held(n: Name): Slot
      reads this, nodeMap.Values, nodeTimers.Values
    {
      Slot(if n in nodeMap then Some(nodeMap[n].View()) else None,
           if n in nodeTimers then Some(nodeTimers[n].View()) else None)
    }

    /** The fields hold exactly what the model says. */
    ghost predicate Tied()
      reads this, nodeMap.Values, nodeTimers.Values
    {
      && (forall n :: Held(n) == SlotOf(model, n))
      && model.counter == incarnation && model.left == left && model.shutdown == shutdown
      && model.events == events && model.casts == casts
    }

    ghost predicate Valid()
      reads this, nodeMap.Values, nodeTimers.Values
    {
      Listed(nodes, nodeMap, numNodes) && Distinct(nodeTimers) && Tied()
    }

    constructor (c: Config)
      ensures Valid() && model == Empty && this.c == c && nodeMap == map[] && nodeTimers == map[]
    {
      this.c := c;
      nodes, nodeMap, numNodes, nodeTimers := [], map[], 0, map[];
      incarnation, left, shutdown, events, casts := 0, false, false, [], [];
      model := Empty;
    }

    method NextIncarnation() returns (inc: u32)
      modifies this`incarnation
      ensures inc == incarnation == Add32(old(incarnation), 1)
    {
      incarnation := (incarnation + 1) % 0x1_0000_0000;
      inc := incarnation;
    }

    method SkipIncarnation(offset: u32) returns (inc: u32)
      modifies this`incarnation
      ensures inc == incarnation == Add32(old(incarnation), offset)
    {
      incarnation := (incarnation + offset) % 0x1_0000_0000;
      inc := incarnation;
    }

    /** The first half of refute: an incarnation beyond the accusation. */
    method BeatingIncarnation(accused: u32) returns (inc: u32)
      requires Valid()
      modifies this`incarnation, this`model
      ensures Valid() && inc == RefuteInc(old(model).counter, accused) && model == old(model).(counter := inc)
    {
      inc := NextIncarnation();
      if accused >= inc {
        inc := SkipIncarnation((accused - inc + 1) % 0x1_0000_0000);
      }
      model := model.(counter := inc);
      forall k ensures Held(k) == SlotOf(model, k) {
        assert old(Held(k)) == SlotOf(old(model), k);
      }
    }

    method WriteInc(me: NodeRecord, inc: u32)
      requires Valid() && me.name in nodeMap && nodeMap[me.name] == me
      modifies this`model, me
      ensures Valid() && me.View() == old(me.View()).(inc := inc)
      ensures model == old(model).(table := old(model).table[me.name := me.View()])
    {
      me.inc := inc;
      model := model.(table := model.table[me.name := me.View()]);
      RecordWritten(me);
    }

    /** refute: beat the accusation, and broadcast the new incarnation under our address. */
    method Refute(me: NodeRecord, accused: u32)
      requires Valid() && me.name in nodeMap && nodeMap[me.name] == me
      modifies this`incarnation, this`casts, this`model, me
      ensures Valid()
      ensures var m, n := old(model), me.name;
              model == Commit(m, n, RefuteEffect(c, n, SlotOf(m, n), m.counter, accused))
    {
      assert Held(me.name) == SlotOf(model, me.name);
      CommitRecord(model, me.name, RefuteEffect(c, me.name, SlotOf(model, me.name), model.counter, accused));
      var inc := BeatingIncarnation(accused);
      WriteInc(me, inc);
      QueueBroadcast(c.ipString(me.addr), AliveB(AliveMsg(inc, me.name, me.addr, me.port, me.meta, VsnBytes(me.vsn))));
    }

    /** Link a record never seen before: in the map, and in the slice at a random place. */
    method Link(state: NodeRecord)
      requires Valid() && state.name !in nodeMap
      modifies this`nodes, this`nodeMap, this`numNodes, this`model
      ensures Valid() && nodeMap == old(nodeMap)[state.name := state]
      ensures model == old(model).(table := old(model).table[state.name := state.View()])
    {
      var offset: nat :| offset < |nodes| || (|nodes| == 0 && offset == 0);
      ListedAdd(nodes, nodeMap, numNodes, state, offset);
      nodeMap := nodeMap[state.name := state];
      nodes := AppendAndSwap(nodes, state, offset);
      numNodes := numNodes + 1;
      model := model.(table := model.table[state.name := state.View()]);
      forall k ensures Held(k) == SlotOf(model, k) {
        assert old(Held(k)) == SlotOf(old(model), k);
      }
    }

    /** Drop the suspicion timer of a name, if any; a fired or running timer is not stopped. */
    method ClearTimer(n: Name)
      requires Valid()
      modifies this`nodeTimers, this`model
      ensures Valid() && nodeTimers == old(nodeTimers) - {n}
      ensures model == old(model).(timers := old(model).timers - {n})
    {
      nodeTimers := nodeTimers - {n};
      model := model.(timers := model.timers - {n});
      forall k ensures Held(k) == SlotOf(model, k) {
        assert old(Held(k)) == SlotOf(old(model), k);
      }
    }

    method QueueBroadcast(key: Name, msg: Msg)
      requires Valid()
      modifies this`casts, this`model
      ensures Valid() && model == old(model).(casts := old(model).casts + [Broadcast(key, msg)])
    {
      casts := casts + [Broadcast(key, msg)];
      model := model.(casts := casts);
      forall k ensures Held(k) == SlotOf(model, k) {
        assert old(Held(k)) == SlotOf(old(model), k);
      }
    }

    method EnqueueEvent(ev: Event)
      requires Valid()
      modifies this`events, this`model
      ensures Valid() && model == old(model).(events := old(model).events + [ev])
    {
      events := events + [ev];
      model := model.(events := events);
      forall k ensures Held(k) == SlotOf(model, k) {
        assert old(Held(k)) == SlotOf(old(model), k);
      }
    }

    /** Writing one record's fields, with the model following, keeps the rest tied. */
    twostate lemma RecordWritten(state: NodeRecord)
      requires old(Valid()) && state.name in nodeMap && nodeMap[state.name] == state
      requires nodeMap == old(nodeMap) && nodeTimers == old(nodeTimers)
      requires forall k :: k in nodeMap && k != state.name ==> unchanged(nodeMap[k])
      requires forall k :: k in nodeTimers ==> unchanged(nodeTimers[k])
      requires model == old(model).(table := old(model).table[state.name := state.View()])
      requires incarnation == old(incarnation) && left == old(left) && shutdown == old(shutdown)
      requires events == old(events) && casts == old(casts)
      ensures Tied()
    {
      forall k ensures Held(k) == SlotOf(model, k) {
        assert old(Held(k)) == SlotOf(old(model), k);
      }
    }

    method Notify(name: Name, ghost before: Rec, wasDead: bool, oldMeta: Bytes, state: NodeRecord)
      requires Valid() && wasDead == DeadOrLeft(before) && oldMeta == before.node.meta
      modifies this`events, this`model
      ensures Valid() && model == old(model).(events := old(model).events + Announce(c, name, before, state.View()))
    {
      if c.hasEvents {
        if wasDead {
          EnqueueEvent(Join(name, state.Snapshot()));
        } else if oldMeta != state.meta {
          EnqueueEvent(Update(name, state.Snapshot()));
        } else {
          assert model.events + [] == model.events;
        }
      } else {
        assert model.events + [] == model.events;
      }
    }

    method WriteAlive(state: NodeRecord, a: AliveMsg, now: Time)
      requires Valid() && state.name in nodeMap && nodeMap[state.name] == state && ParseVsn(a.vsn).Some?
      modifies state, this`model
      ensures Valid() && state.View() == AliveRec(old(state.View()), a, now)
      ensures model == old(model).(table := old(model).table[state.name := state.View()])
    {
      state.Adopt(a, now);
      model := model.(table := model.table[state.name := state.View()]);
      RecordWritten(state);
    }

    /** The re-broadcast branch of aliveNodeLocked. */
    method AdoptAlive(state: NodeRecord, a: AliveMsg, now: Time)
      requires Valid() && a.node in nodeMap && nodeMap[a.node] == state && ParseVsn(a.vsn).Some?
      modifies this`casts, this`events, this`nodeTimers, this`model, state
      ensures Valid() && nodeTimers == old(nodeTimers) - {a.node}
      ensures var m, r := old(model), old(state.View());
              model == Commit(m, a.node, Effect(Slot(Some(AliveRec(r, a, now)), None), m.counter,
                                                Announce(c, a.node, r, AliveRec(r, a, now)),
                                                [Broadcast(a.node, AliveB(a))]))
    {
      ghost var r := state.View();
      ClearTimer(a.node);
      var wasDead := state.state.Dead? || state.state.Left?;
      var oldMeta := state.meta;
      QueueBroadcast(a.node, AliveB(a));
      WriteAlive(state, a, now);
      Notify(a.node, r, wasDead, oldMeta, state);
    }

    /** The branch of aliveNodeLocked about ourselves. */
    method ContradictAlive(state: NodeRecord, a: AliveMsg)
      requires Valid() && a.node in nodeMap && nodeMap[a.node] == state
      modifies this`incarnation, this`casts, this`events, this`nodeTimers, this`model, state
      ensures Valid() && nodeTimers == old(nodeTimers) - {a.node}
      ensures var m, r := old(model), old(state.View());
              var e := RefuteEffect(c, a.node, Slot(Some(r), None), m.counter, a.inc);
              model == Commit(m, a.node, e.(events := Announce(c, a.node, r, e.slot.rec.value)))
    {
      ghost var r := state.View();
      ClearTimer(a.node);
      var wasDead := state.state.Dead? || state.state.Left?;
      var oldMeta := state.meta;
      assert SlotOf(model, a.node) == Held(a.node) == Slot(Some(r), None);
      Refute(state, a.inc);
      assert Held(a.node) == SlotOf(model, a.node);
      Notify(a.node, r, wasDead, oldMeta, state);
    }

    /** The second half of aliveNodeLocked, from the incarnation checks on. */
    method ApplyAlive(state: NodeRecord, a: AliveMsg, bootstrap: bool, takeover: bool, now: Time)
      requires Valid() && a.node in nodeMap && nodeMap[a.node] == state && ParseVsn(a.vsn).Some?
      modifies this`incarnation, this`casts, this`events, this`nodeTimers, this`model, state
      ensures Valid() && nodeTimers.Values <= old(nodeTimers.Values)
      ensures var m, n := old(model), a.node;
              model == Commit(m, n, AliveCommit(c, SlotOf(m, n), m.counter, a, bootstrap, takeover, now))
    {
      assert Held(a.node) == SlotOf(model, a.node);
      CommitNothing(model, a.node);
      var local := state.name == c.name;
      if a.inc <= state.inc && !local && !takeover {
        return;
      }
      if a.inc < state.inc && local {
        return;
      }
      if !bootstrap && local {
        if a.inc == state.inc && a.meta == state.meta && a.vsn != [] && ParseVsn(a.vsn).value == state.vsn {
          ClearTimer(a.node);
          return;
        }
        ContradictAlive(state, a);
      } else {
        AdoptAlive(state, a, now);
      }
    }

    method AliveNodeLocked(a: AliveMsg, bootstrap: bool, env: Env)
      requires Valid()
      modifies this, nodeMap.Values
      ensures Valid() && fresh(nodeMap.Values - old(nodeMap.Values)) && nodeTimers.Values <= old(nodeTimers.Values)
      ensures model == AliveLocked(c, old(model), a, bootstrap, env)
    {
      assert Held(a.node) == SlotOf(model, a.node);
      AliveLockedCases(c, model, a, bootstrap, env);
      var admitted := Admit(a, bootstrap, env);
      if admitted {
        if a.node in nodeMap {
          AliveKnown(nodeMap[a.node], a, bootstrap, env);
        } else if env.ipAllowed(a.addr) {
          AliveUnknown(a, bootstrap, env.now);
        }
      }
    }

    /** The checks before any table is touched: left, malformed or improper versions, the alive delegate. */
    method Admit(a: AliveMsg, bootstrap: bool, env: Env) returns (ok: bool)
      ensures ok <==> Admissible(c, left, a, bootstrap, env)
    {
      if left && a.node == c.name {
        return false;
      }
      var vsn := ParseVsn(a.vsn);
      if vsn.None? {
        return false;
      }
      if a.vsn != [] && !ProperVersions(vsn.value) {
        return false;
      }
      if c.hasAlive && !bootstrap {
        if a.vsn == [] {
          return false;
        }
        if !env.accept(a) {
          return false;
        }
      }
      return true;
    }

    /** A name never seen before: store it dead, then apply the message to it. */
    method AliveUnknown(a: AliveMsg, bootstrap: bool, now: Time)
      requires Valid() && a.node !in nodeMap && ParseVsn(a.vsn).Some?
      modifies this
      ensures Valid() && fresh(nodeMap.Values - old(nodeMap.Values)) && nodeTimers.Values <= old(nodeTimers.Values)
      ensures var m, n := old(model), a.node;
              model == Commit(m, n, AliveCommit(c, SlotOf(m, n).(rec := Some(FirstRec(a))), m.counter, a, bootstrap,
                                                false, now))
    {
      assert Held(a.node) == SlotOf(model, a.node);
      var state := new NodeRecord(a);
      Link(state);
      assert nodeMap.Values <= old(nodeMap.Values) + {state};
      CommitOver(old(model), model, a.node,
                 AliveCommit(c, SlotOf(model, a.node), model.counter, a, bootstrap, false, now));
      ApplyAlive(state, a, bootstrap, false, now);
    }

    /** The address check on a record already known, then the common half. */
    method AliveKnown(state: NodeRecord, a: AliveMsg, bootstrap: bool, env: Env)
      requires Valid() && a.node in nodeMap && nodeMap[a.node] == state && ParseVsn(a.vsn).Some?
      modifies this`incarnation, this`casts, this`events, this`nodeTimers, this`model, state
      ensures Valid() && nodeTimers.Values <= old(nodeTimers.Values)
      ensures model == KnownAlive(c, old(model), old(state.View()), a, bootstrap, env)
    {
      assert Held(a.node) == SlotOf(model, a.node);
      var takeover := false;
      if !IPEqual(state.addr, a.addr) || state.port != a.port {
        if !env.ipAllowed(a.addr) {
          return;
        }
        var canReclaim := c.reclaimAfter > 0 && env.now - state.change > c.reclaimAfter;
        if state.state.Left? || (state.state.Dead? && canReclaim) {
          takeover := true;
        } else {
          if c.hasConflict {
            EnqueueEvent(Conflict(a.node, state.Snapshot(), Node(a.addr, a.port, a.meta, Alive, NoVersions)));
          }
          return;
        }
      }
      ApplyAlive(state, a, bootstrap, takeover, env.now);
    }

    method AliveNode(a: AliveMsg, env: Env)
      requires Valid()
      modifies this, nodeMap.Values
      ensures Valid() && fresh(nodeMap.Values - old(nodeMap.Values)) && nodeTimers.Values <= old(nodeTimers.Values)
      ensures model == Membership.AliveNode(c, old(model), a, env)
    {
      if shutdown {
        return;
      }
      AliveNodeLocked(a, false, env);
    }

    method WriteMark(state: NodeRecord, inc: u32, st: NodeState, now: Time)
      requires Valid() && state.name in nodeMap && nodeMap[state.name] == state
      modifies state, this`model
      ensures Valid() && state.View() == Rec(old(state.View()).node.(state := st), inc, now)
      ensures model == old(model).(table := old(model).table[state.name := state.View()])
    {
      state.Mark(inc, st, now);
      model := model.(table := model.table[state.name := state.View()]);
      RecordWritten(state);
    }

    /** Arm a fresh suspicion timer for a name that has none. */
    method Arm(n: Name, from: Name, now: Time)
      requires Valid() && n !in nodeTimers
      modifies this`nodeTimers, this`model
      ensures Valid() && fresh(nodeTimers.Values - old(nodeTimers.Values))
      ensures model == old(model).(timers := old(model).timers[n := FreshTimer(c, from, numNodes, now)])
    {
      var k := c.suspicionMult - 2;
      if numNodes - 2 < k {
        k := 0;
      }
      var min := c.timeout(numNodes);
      var max := c.maxTimeoutMult * min;
      var timer := new Suspicion.Timeout(from, k, min, max, now, now);
      nodeTimers := nodeTimers[n := timer];
      model := model.(timers := model.timers[n := timer.View()]);
      forall x ensures Held(x) == SlotOf(model, x) {
        assert old(Held(x)) == SlotOf(old(model), x);
      }
    }

    /** A suspicion already runs: count the confirmation, and gossip it if it is news. */
    method ConfirmSuspicion(s: SuspectMsg, now: Time)
      requires Valid() && s.node in nodeTimers
      modifies nodeTimers[s.node], this`casts, this`model
      ensures Valid()
      ensures var m := old(model);
              s.node in m.timers &&
              model == m.(timers := m.timers[s.node := Suspicion.Confirm(c.curve, m.timers[s.node], s.from, now)],
                          casts := m.casts + if Suspicion.Accepts(m.timers[s.node], s.from)
                                             then [Broadcast(s.node, SuspectB(s))] else [])
    {
      assert Held(s.node) == SlotOf(model, s.node);
      var timer := nodeTimers[s.node];
      var accepted := timer.ConfirmBy(c.curve, s.from, now);
      model := model.(timers := model.timers[s.node := timer.View()]);
      TimerWritten(s.node);
      if accepted {
        QueueBroadcast(s.node, SuspectB(s));
      } else {
        assert model.casts + [] == model.casts;
      }
    }

    twostate lemma TimerWritten(n: Name)
      requires old(Valid()) && n in nodeTimers && nodeMap == old(nodeMap) && nodeTimers == old(nodeTimers)
      requires forall k :: k in nodeMap ==> unchanged(nodeMap[k])
      requires forall k :: k in nodeTimers && k != n ==> unchanged(nodeTimers[k])
      requires model == old(model).(timers := old(model).timers[n := nodeTimers[n].View()])
      requires incarnation == old(incarnation) && left == old(left) && shutdown == old(shutdown)
      requires events == old(events) && casts == old(casts)
      ensures Tied()
    {
      forall k ensures Held(k) == SlotOf(model, k) {
        assert old(Held(k)) == SlotOf(old(model), k);
      }
    }

    method SuspectNode(s: SuspectMsg, env: Env)
      requires Valid()
      modifies this, nodeMap.Values, nodeTimers.Values
      ensures Valid() && nodeMap == old(nodeMap) && fresh(nodeTimers.Values - old(nodeTimers.Values))
      ensures model == Membership.SuspectNode(c, old(model), s, env)
    {
      ghost var m := model;
      assert Held(s.node) == SlotOf(m, s.node);
      CommitNothing(m, s.node);
      TableSize();
      if shutdown {
        return;
      }
      if s.node !in nodeMap {
        return;
      }
      var state := nodeMap[s.node];
      if s.inc < state.inc {
        return;
      }
      if s.node in nodeTimers {
        ConfirmSuspicion(s, env.now);
        CommitTimer(m, s.node, SuspectEffect(c, |m.table|, SlotOf(m, s.node), m.counter, s, env.now));
        return;
      }
      if !state.state.Alive? {
        return;
      }
      if state.name == c.name {
        Refute(state, s.inc);
        return;
      }
      StartSuspicion(state, s, env.now);
    }

    method StartSuspicion(state: NodeRecord, s: SuspectMsg, now: Time)
      requires Valid() && s.node in nodeMap && nodeMap[s.node] == state && s.node !in nodeTimers
      modifies this`casts, this`nodeTimers, this`model, state
      ensures Valid() && fresh(nodeTimers.Values - old(nodeTimers.Values))
      ensures var m, r := old(model), old(state.View());
              model == m.(casts := m.casts + [Broadcast(s.node, SuspectB(s))],
                          table := m.table[s.node := Rec(r.node.(state := Suspect), s.inc, now)],
                          timers := m.timers[s.node := FreshTimer(c, s.from, numNodes, now)])
    {
      QueueBroadcast(s.node, SuspectB(s));
      WriteMark(state, s.inc, Suspect, now);
      Arm(s.node, s.from, now);
    }

    /** The size estimate is the number of records. */
    lemma TableSize()
      requires Valid()
      ensures |model.table| == numNodes
    {
      forall n ensures n in model.table <==> n in nodeMap {
        assert Held(n) == SlotOf(model, n);
      }
      assert model.table.Keys == nodeMap.Keys;
    }

    method DeadNodeLocked(d: DeadMsg, env: Env)
      requires Valid()
      modifies this, nodeMap.Values
      ensures Valid() && nodeMap == old(nodeMap) && nodeTimers.Values <= old(nodeTimers.Values)
      ensures model == DeadLocked(c, old(model), d, env)
    {
      assert Held(d.node) == SlotOf(model, d.node);
      CommitNothing(model, d.node);
      if d.node !in nodeMap {
        return;
      }
      var state := nodeMap[d.node];
      if d.inc < state.inc {
        return;
      }
      ClearTimer(d.node);
      if state.state.Dead? || state.state.Left? {
        return;
      }
      if state.name == c.name && !left {
        assert Held(d.node) == SlotOf(model, d.node);
        Refute(state, d.inc);
        return;
      }
      MarkDead(state, d, env.now);
    }

    method MarkDead(state: NodeRecord, d: DeadMsg, now: Time)
      requires Valid() && d.node in nodeMap && nodeMap[d.node] == state
      modifies this`casts, this`events, this`model, state
      ensures Valid()
      ensures var m, r := old(model), old(state.View());
              var r' := Rec(r.node.(state := if d.node == d.from then Left else Dead), d.inc, now);
              model == m.(casts := m.casts + [Broadcast(d.node, DeadB(d))], table := m.table[d.node := r'],
                          events := m.events + if c.hasEvents then [Leave(d.node, r'.node)] else [])
    {
      QueueBroadcast(d.node, DeadB(d));
      if d.node == d.from {
        WriteMark(state, d.inc, Left, now);
      } else {
        WriteMark(state, d.inc, Dead, now);
      }
      if c.hasEvents {
        EnqueueEvent(Leave(d.node, state.Snapshot()));
      } else {
        assert model.events + [] == model.events;
      }
    }

    method DeadNode(d: DeadMsg, env: Env)
      requires Valid()
      modifies this, nodeMap.Values
      ensures Valid() && nodeMap == old(nodeMap) && nodeTimers.Values <= old(nodeTimers.Values)
      ensures model == Membership.DeadNode(c, old(model), d, env)
    {
      if shutdown {
        return;
      }
      DeadNodeLocked(d, env);
    }

    /** The expiry callback of a timer armed at `change`. */
    method TimerExpired(name: Name, change: Time, env: Env)
      requires Valid()
      modifies this, nodeMap.Values
      ensures Valid() && nodeMap == old(nodeMap) && nodeTimers.Values <= old(nodeTimers.Values)
      ensures model == Expire(c, old(model), name, change, env)
    {
      assert Held(name) == SlotOf(model, name);
      CommitNothing(model, name);
      if shutdown {
        return;
      }
      if name !in nodeMap {
        return;
      }
      var state := nodeMap[name];
      if !(state.state.Suspect? && state.change == change) {
        return;
      }
      DeadNodeLocked(DeadMsg(state.inc, state.name, c.name), env);
    }

    method MergeState(remote: seq<PushState>, envs: seq<Env>)
      requires Valid() && |remote| == |envs|
      modifies this, nodeMap.Values, nodeTimers.Values
      ensures Valid() && model == Merge(c, old(model), remote, envs)
    {
      ghost var start := model;
      for i := 0 to |remote|
        invariant Valid() && Merged(c, start, remote, envs, i, model)
        invariant fresh(nodeMap.Values - old(nodeMap.Values)) && fresh(nodeTimers.Values - old(nodeTimers.Values))
      {
        MergedNext(c, start, remote, envs, i, model);
        MergeOneInPlace(remote[i], envs[i]);
      }
      MergedAll(c, start, remote, envs, model);
    }

    method MergeOneInPlace(r: PushState, env: Env)
      requires Valid()
      modifies this, nodeMap.Values, nodeTimers.Values
      ensures Valid() && fresh(nodeMap.Values - old(nodeMap.Values)) &&
              fresh(nodeTimers.Values - old(nodeTimers.Values))
      ensures model == MergeOne(c, old(model), r, env)
    {
      if r.state == StateAlive {
        AliveNode(AsAlive(r), env);
      } else if r.state == StateLeft {
        DeadNode(DeadMsg(r.inc, r.name, r.name), env);
      } else if r.state == StateDead || r.state == StateSuspect {
        SuspectNode(SuspectMsg(r.inc, r.name, c.name), env);
      }
    }

    /** The node slice, rearranged in place so that the stale records come last. */
    method SplitDead(now: Time) returns (slots: array<NodeRecord>, deadIdx: nat)
      requires Valid()
      ensures fresh(slots) && slots.Length == numNodes && deadIdx <= numNodes && Listed(slots[..], nodeMap, numNodes)
      ensures forall i :: 0 <= i < numNodes ==> (i < deadIdx <==> !Stale(slots[..][i], c.gossipToTheDead, now))
    {
      slots := new NodeRecord[|nodes|](i requires 0 <= i < |nodes| reads this => nodes[i]);
      assert slots[..] == nodes;
      deadIdx := MoveDeadNodes(slots, c.gossipToTheDead, now);
      ListedPermuted(nodes, slots[..], nodeMap, numNodes);
    }

    /** The records that are kept, as a slice and as a map. */
    method Survivors(now: Time) returns (kept: seq<NodeRecord>, rest: map<Name, NodeRecord>)
      requires Valid()
      ensures Listed(kept, rest, |kept|)
      ensures forall k :: k in rest <==> k in nodeMap && !Stale(nodeMap[k], c.gossipToTheDead, now)
      ensures forall k :: k in rest ==> rest[k] == nodeMap[k]
    {
      var slots, deadIdx := SplitDead(now);
      rest := Deregister(slots, deadIdx, nodeMap);
      kept := slots[..deadIdx];
      ghost var listed := slots[..];
      forall k | k in nodeMap ensures k in rest <==> !Stale(nodeMap[k], c.gossipToTheDead, now) {
        ListedCoversMap(listed, nodeMap, numNodes, k);
        var i :| 0 <= i < |listed| && listed[i] == nodeMap[k];
        assert listed[i].name == k;
      }
    }

    /** Keep the given records only. */
    method Retain(list: seq<NodeRecord>, rest: map<Name, NodeRecord>, now: Time)
      requires Valid() && Listed(list, rest, |list|)
      requires forall k :: k in rest <==> k in nodeMap && !Stale(nodeMap[k], c.gossipToTheDead, now)
      requires forall k :: k in rest ==> rest[k] == nodeMap[k]
      modifies this`nodes, this`nodeMap, this`numNodes, this`model
      ensures Valid() && nodeMap == rest && model == Reap(c, old(model), now)
    {
      nodeMap, nodes, numNodes := rest, list, |list|;
      model := Reap(c, model, now);
      forall k ensures Held(k) == SlotOf(model, k) {
        assert old(Held(k)) == SlotOf(old(model), k);
        ReapSlot(c, old(model), now, k);
      }
    }

    /** Reap the records dead or left for longer than the gossip-to-the-dead interval, and shuffle the rest. */
    method ResetNodes(now: Time)
      requires Valid()
      modifies this`nodes, this`nodeMap, this`numNodes, this`model
      ensures Valid() && nodeMap.Values <= old(nodeMap.Values)
      ensures model == Reap(c, old(model), now)
    {
      var kept, rest := Survivors(now);
      var shuffled := ShuffleNodes(kept);
      ListedPermuted(kept, shuffled, rest, |kept|);
      Retain(shuffled, rest, now);
    }

    /** The timer loop of finishShutdown, which runs after the shutdown flag is set. */
    method ClearTimers()
      requires Valid()
      modifies this`nodeTimers, this`model
      ensures Valid() && nodeTimers == map[] && model == old(model).(timers := map[])
    {
      while nodeTimers != map[]
        invariant Valid() && model == old(model).(timers := model.timers) && nodeTimers.Keys <= old(nodeTimers).Keys
        decreases |nodeTimers|
      {
        var n :| n in nodeTimers;
        TimerDropped(nodeTimers, n);
        ClearTimer(n);
      }
      forall n ensures n !in model.timers {
        assert Held(n) == SlotOf(model, n);
      }
    }

    /** setAlive: the local node announces itself. The counter has moved even when shutdown refuses. */
    method Start(addr: IP, port: u16, meta: Bytes, env: Env) returns (ok: bool)
      requires Valid()
      modifies this, nodeMap.Values
      ensures Valid() && ok == !old(model).shutdown
      ensures model == if ok then SetAlive(c, old(model), addr, port, meta, env)
                       else old(model).(counter := Add32(old(model).counter, 1))
    {
      var inc := CountUp();
      if shutdown {
        return false;
      }
      AliveNodeLocked(AliveMsg(inc, c.name, addr, port, meta, VsnBytes(c.vsn)), true, env);
      return true;
    }

    method CountUp() returns (inc: u32)
      requires Valid()
      modifies this`incarnation, this`model
      ensures Valid() && inc == Add32(old(model).counter, 1) && model == old(model).(counter := inc)
    {
      inc := NextIncarnation();
      model := model.(counter := inc);
      forall k ensures Held(k) == SlotOf(model, k) {
        assert old(Held(k)) == SlotOf(old(model), k);
      }
    }

    /** The critical section of UpdateNodeContext; false when it refuses. */
    method UpdateNode(meta: Bytes, env: Env) returns (ok: bool)
      requires Valid()
      modifies this, nodeMap.Values
      ensures Valid() && model == UpdateLocal(c, old(model), meta, env)
      ensures ok <==> !old(model).shutdown && !old(model).left && c.name in old(model).table
    {
      assert Held(c.name) == SlotOf(model, c.name);
      if shutdown || left || c.name !in nodeMap {
        return false;
      }
      var state := nodeMap[c.name];
      var inc := CountUp();
      AliveNodeLocked(AliveMsg(inc, c.name, state.addr, state.port, meta, VsnBytes(c.vsn)), true, env);
      return true;
    }

    /** The critical section of LeaveContext; false when it refuses. */
    method LeaveNode(env: Env) returns (ok: bool)
      requires Valid()
      modifies this, nodeMap.Values
      ensures Valid() && model == LeaveCluster(c, old(model), env)
      ensures ok <==> !old(model).shutdown && !old(model).left && c.name in old(model).table
    {
      assert Held(c.name) == SlotOf(model, c.name);
      if shutdown || left || c.name !in nodeMap {
        return false;
      }
      var state := nodeMap[c.name];
      var d := DeadMsg(state.inc, state.name, state.name);
      SetLeft();
      DeadNodeLocked(d, env);
      return true;
    }

    method SetLeft()
      requires Valid()
      modifies this`left, this`model
      ensures Valid() && model == old(model).(left := true)
    {
      left := true;
      model := model.(left := true);
      forall k ensures Held(k) == SlotOf(model, k) {
        assert old(Held(k)) == SlotOf(old(model), k);
      }
    }

    /** Shutdown: the flag that fences every handler off, then finishShutdown stopping the timers. */
    method Shutdown()
      requires Valid()
      modifies this`shutdown, this`nodeTimers, this`model
      ensures Valid() && model == Next(c, old(model), ShutdownStep)
    {
      SetShutdown();
      ClearTimers();
    }

    method SetShutdown()
      requires Valid()
      modifies this`shutdown, this`model
      ensures Valid() && model == old(model).(shutdown := true)
    {
      shutdown := true;
      model := model.(shutdown := true);
      forall k ensures Held(k) == SlotOf(model, k) {
        assert old(Held(k)) == SlotOf(old(model), k);
      }
    }

    /** Members: a snapshot of every record that is not dead or left. */
    method Members() returns (ms: seq<(Name, Node)>)
      requires Valid()
      ensures forall i, j :: 0 <= i < j < |ms| ==> ms[i].0 != ms[j].0
      ensures forall i :: 0 <= i < |ms| ==>
                ms[i].0 in model.table && ms[i].1 == model.table[ms[i].0].node && !DeadOrLeft(model.table[ms[i].0])
      ensures forall n :: n in MembersMeta(model.table) ==>
                exists i :: 0 <= i < |ms| && ms[i].0 == n && ms[i].1.meta == MembersMeta(model.table)[n]
    {
      ms := [];
      ghost var at: seq<nat> := [];
      for k := 0 to |nodes|
        invariant Sampled(ms, at, k)
      {
        if !(nodes[k].state.Dead? || nodes[k].state.Left?) {
          ms := ms + [(nodes[k].name, nodes[k].Snapshot())];
          at := at + [k];
        }
      }
      DistinctNamesListed(nodes, nodeMap, numNodes);
      forall i | 0 <= i < |ms|
        ensures ms[i].0 in model.table && ms[i].1 == model.table[ms[i].0].node && !DeadOrLeft(model.table[ms[i].0])
      {
        ListedIsRecorded(at[i]);
      }
      forall n | n in MembersMeta(model.table)
        ensures exists i :: 0 <= i < |ms| && ms[i].0 == n && ms[i].1.meta == MembersMeta(model.table)[n]
      {
        var i := MemberIsSampled(ms, at, n);
      }
    }

    /** ms holds the records among the first k that are not dead or left, and at says where each is listed. */
    ghost predicate Sampled(ms: seq<(Name, Node)>, at: seq<nat>, k: nat)
      requires k <= |nodes|
      reads this, nodes
    {
      && |at| == |ms|
      && (forall i :: 0 <= i < |ms| ==> at[i] < k && !DeadOrLeft(nodes[at[i]].View()))
      && (forall i :: 0 <= i < |ms| ==> ms[i] == (nodes[at[i]].name, nodes[at[i]].Snapshot()))
      && (forall i, j :: 0 <= i < j < |ms| ==> at[i] < at[j])
      && forall p :: 0 <= p < k && !DeadOrLeft(nodes[p].View()) ==> p in at
    }

    lemma MemberIsSampled(ms: seq<(Name, Node)>, at: seq<nat>, n: Name) returns (i: nat)
      requires Valid() && Sampled(ms, at, |nodes|) && n in MembersMeta(model.table)
      ensures i < |ms| && ms[i].0 == n && ms[i].1.meta == MembersMeta(model.table)[n]
    {
      var p := RecordedIsListed(n);
      i :| 0 <= i < |at| && at[i] == p;
    }

    /** What the slice lists is what the model has under that name. */
    lemma ListedIsRecorded(p: nat)
      requires Valid() && p < |nodes|
      ensures nodes[p].name in model.table && model.table[nodes[p].name] == nodes[p].View()
    {
      assert Held(nodes[p].name) == SlotOf(model, nodes[p].name);
    }

    /** Every record of the model is listed. */
    lemma RecordedIsListed(n: Name) returns (p: nat)
      requires Valid() && n in model.table
      ensures p < |nodes| && nodes[p].name == n && nodes[p].View() == model.table[n]
    {
      assert Held(n) == SlotOf(model, n);
      ListedCoversMap(nodes, nodeMap, numNodes, n);
      p :| 0 <= p < |nodes| && nodes[p] == nodeMap[n];
    }

    /** verifyProtocol: true exactly when everybody understands every speaker. */
    method VerifyProtocol(remote: seq<PushState>) returns (ok: bool)
      requires Valid()
      ensures ok <==> Compatible(remote, model.table)
    {
      var wellFormed, range := RemoteRange(remote);
      if !wellFormed {
        return false;
      }
      range := LocalRange(range, RemoteLimits(remote));
      ghost var limits := RemoteLimits(remote) + LocalLimits(model.table);
      assert limits == Limits(remote, model.table);
      ok := RemoteSpeakersFit(remote, range);
      if ok {
        ok := LocalSpeakersFit(range);
      }
      FitMeansCompatible(remote, model.table, range);
    }

    /** Narrow the range by the local alive nodes. */
    method LocalRange(start: Range, ghost seen: set<Versions>) returns (range: Range)
      requires Valid() && Tight(start, seen)
      ensures Tight(range, seen + LocalLimits(model.table))
    {
      range := start;
      ghost var got := seen;
      for i := 0 to |nodes|
        invariant Tight(range, got)
        invariant seen <= got <= seen + LocalLimits(model.table)
        invariant forall j :: 0 <= j < i && nodes[j].state.Alive? ==> nodes[j].vsn in got
      {
        assert Held(nodes[i].name) == SlotOf(model, nodes[i].name);
        if !nodes[i].state.Alive? {
          continue;
        }
        TightNarrow(range, got, nodes[i].vsn);
        range, got := Narrow(range, nodes[i].vsn), got + {nodes[i].vsn};
      }
      forall v | v in LocalLimits(model.table) ensures v in got {
        var n :| n in model.table && model.table[n].node.state.Alive? && model.table[n].node.vsn == v;
        assert Held(n) == SlotOf(model, n);
        ListedCoversMap(nodes, nodeMap, numNodes, n);
      }
      assert got == seen + LocalLimits(model.table);
    }

    /** Check the speaking versions of the local records that are not dead or left. */
    method LocalSpeakersFit(range: Range) returns (ok: bool)
      requires Valid()
      ensures ok <==> forall n :: n in model.table && !DeadOrLeft(model.table[n]) ==>
                Fits(range, model.table[n].node.vsn)
    {
      for i := 0 to |nodes|
        invariant forall j :: 0 <= j < i && !DeadOrLeft(nodes[j].View()) ==> Fits(range, nodes[j].vsn)
      {
        assert Held(nodes[i].name) == SlotOf(model, nodes[i].name);
        if nodes[i].state.Dead? || nodes[i].state.Left? {
          continue;
        }
        if !Fits(range, nodes[i].vsn) {
          return false;
        }
      }
      forall n | n in model.table && !DeadOrLeft(model.table[n]) ensures Fits(range, model.table[n].node.vsn) {
        assert Held(n) == SlotOf(model, n);
        ListedCoversMap(nodes, nodeMap, numNodes, n);
      }
      return true;
    }

    /** The verified merge of mergeRemoteState, run under the merge lock. */
    method MergeRemoteState(remote: seq<PushState>, envs: seq<Env>) returns (ok: bool)
      requires Valid() && |remote| == |envs|
      modifies this, nodeMap.Values, nodeTimers.Values
      ensures Valid() && (ok <==> Compatible(remote, old(model).table))
      ensures model == if ok then Merge(c, old(model), remote, envs) else old(model)
    {
      ok := VerifyProtocol(remote);
      if ok {
        MergeState(remote, envs);
      }
    }
  }

  /** The versions the whole cluster can use: the maximum of the minima and the minimum of the maxima. */
  datatype Range = Range(pmin: byte, pmax: byte, dmin: byte, dmax: byte)

  function Max(a: byte, b: byte): byte { if a < b then b else a }

  function Min(a: byte, b: byte): byte { if a < b then a else b }

  function Narrow(r: Range, v: Versions): Range {
    Range(Max(r.pmin, v.pmin), Min(r.pmax, v.pmax), Max(r.dmin, v.dmin), Min(r.dmax, v.dmax))
  }

  predicate Fits(r: Range, v: Versions) { r.pmin <= v.pcur <= r.pmax && r.dmin <= v.dcur <= r.dmax }

  /** The range admits exactly the speakers that every one of the nodes understands. */
  ghost predicate Tight(r: Range, limits: set<Versions>) {
    forall v :: Fits(r, v) <==> forall l :: l in limits ==> Understands(l, v)
  }

  ghost function RemoteLimits(rs: seq<PushState>): set<Versions> {
    set r | r in rs && r.state == StateAlive && r.vsn != [] :: VsnOf(r)
  }

  ghost function LocalLimits(table: map<Name, Rec>): set<Versions> {
    set n | n in table && table[n].node.state.Alive? :: table[n].node.vsn
  }

  lemma TightNarrow(r: Range, limits: set<Versions>, v: Versions)
    requires Tight(r, limits)
    ensures Tight(Narrow(r, v), limits + {v})
  {
    forall x ensures Fits(Narrow(r, v), x) <==> forall l :: l in limits + {v} ==> Understands(l, x) {
      assert Fits(Narrow(r, v), x) <==> Fits(r, x) && Understands(v, x);
      assert (forall l :: l in limits + {v} ==> Understands(l, x)) <==>
               (forall l :: l in limits ==> Understands(l, x)) && Understands(v, x) by {
        assert v in limits + {v};
      }
    }
  }

  /** The first loop: refuse malformed vectors, and gather the range of the remote alive nodes. */
  method RemoteRange(remote: seq<PushState>) returns (wellFormed: bool, range: Range)
    ensures wellFormed <==> forall r :: r in remote ==> ParseVsn(r.vsn).Some?
    ensures wellFormed ==> Tight(range, RemoteLimits(remote))
  {
    range := Range(0, 255, 0, 255);
    ghost var seen: set<Versions> := {};
    for i := 0 to |remote|
      invariant forall j :: 0 <= j < i ==> ParseVsn(remote[j].vsn).Some?
      invariant Tight(range, seen) && seen <= RemoteLimits(remote)
      invariant forall j :: 0 <= j < i && remote[j].state == StateAlive && remote[j].vsn != [] ==>
                  VsnOf(remote[j]) in seen
    {
      var vsn := ParseVsn(remote[i].vsn);
      if vsn.None? {
        return false, range;
      }
      if remote[i].state != StateAlive {
        continue;
      }
      if remote[i].vsn == [] {
        continue;
      }
      TightNarrow(range, seen, vsn.value);
      range, seen := Narrow(range, vsn.value), seen + {vsn.value};
    }
    assert seen == RemoteLimits(remote);
    return true, range;
  }

  /** Check the speaking versions of the remote nodes that are not dead or left. */
  method RemoteSpeakersFit(remote: seq<PushState>, range: Range) returns (ok: bool)
    ensures ok <==> forall r :: r in remote && r.state != StateDead && r.state != StateLeft ==> Fits(range, VsnOf(r))
  {
    for i := 0 to |remote|
      invariant forall j :: 0 <= j < i && remote[j].state != StateDead && remote[j].state != StateLeft ==>
                  Fits(range, VsnOf(remote[j]))
    {
      if remote[i].state == StateDead || remote[i].state == StateLeft {
        continue;
      }
      if !Fits(range, VsnOf(remote[i])) {
        return false;
      }
    }
    return true;
  }

  /** Checking every speaker against the tight range is checking every pair. */
  lemma FitMeansCompatible(rs: seq<PushState>, table: map<Name, Rec>, range: Range)
    requires (forall r :: r in rs ==> ParseVsn(r.vsn).Some?) && Tight(range, Limits(rs, table))
    ensures Compatible(rs, table) <==>
              && (forall r :: r in rs && r.state != StateDead && r.state != StateLeft ==> Fits(range, VsnOf(r)))
              && (forall n :: n in table && !DeadOrLeft(table[n]) ==> Fits(range, table[n].node.vsn))
  {
  }

  /** Dead or left, and unchanged for longer than the interval. */
  predicate Stale(r: NodeRecord, interval: Duration, now: Time)
    reads r
  {
    (r.state.Dead? || r.state.Left?) && now - r.change > interval
  }

  method SwapRecords(nodes: array<NodeRecord>, i: nat, j: nat)
    requires i < nodes.Length && j < nodes.Length
    modifies nodes
    ensures nodes[..] == old(nodes[..])[i := old(nodes[j])][j := old(nodes[i])]
    ensures multiset(nodes[..]) == old(multiset(nodes[..]))
  {
    nodes[i], nodes[j] := nodes[j], nodes[i];
  }

  /** Move the stale records to the end, in place; the result is the index of the first of them. */
  method MoveDeadNodes(nodes: array<NodeRecord>, interval: Duration, now: Time) returns (k: nat)
    modifies nodes
    ensures k <= nodes.Length && multiset(nodes[..]) == old(multiset(nodes[..]))
    ensures forall i :: 0 <= i < nodes.Length ==> (i < k <==> !Stale(nodes[i], interval, now))
  {
    var numDead := 0;
    var n := nodes.Length;
    var i := 0;
    while i < n - numDead
      invariant 0 <= i <= n - numDead <= n
      invariant multiset(nodes[..]) == old(multiset(nodes[..]))
      invariant forall j :: 0 <= j < i ==> !Stale(nodes[..][j], interval, now)
      invariant forall j :: n - numDead <= j < n ==> Stale(nodes[..][j], interval, now)
      decreases n - numDead - i
    {
      if !(nodes[i].state.Dead? || nodes[i].state.Left?) {
        i := i + 1;
        continue;
      }
      if now - nodes[i].change <= interval {
        i := i + 1;
        continue;
      }
      SwapRecords(nodes, i, n - numDead - 1);
      numDead := numDead + 1;
    }
    k := n - numDead;
    assert forall j :: 0 <= j < n ==> nodes[..][j] == nodes[j];
  }

  /** Delete the names of the records from an index on. */
  method Deregister(slots: array<NodeRecord>, from: nat, nodeMap: map<Name, NodeRecord>)
    returns (rest: map<Name, NodeRecord>)
    requires from <= slots.Length && Listed(slots[..], nodeMap, slots.Length)
    ensures rest.Keys <= nodeMap.Keys && (forall x :: x in rest ==> rest[x] == nodeMap[x])
    ensures forall j :: 0 <= j < slots.Length ==> (j < from <==> slots[..][j].name in rest)
    ensures Listed(slots[..from], rest, from)
  {
    rest := nodeMap;
    ghost var all := slots[..];
    for i := from to slots.Length
      invariant |rest| == slots.Length - (i - from)
      invariant rest.Keys <= nodeMap.Keys && (forall x :: x in rest ==> rest[x] == nodeMap[x])
      invariant forall j :: 0 <= j < slots.Length ==> (from <= j < i <==> all[j].name !in rest)
    {
      DistinctNamesListed(all, nodeMap, slots.Length);
      var name := slots[i].name;
      assert name in rest;
      assert (rest - {name}).Keys == rest.Keys - {name};
      rest := rest - {name};
    }
  }

  lemma DistinctNamesListed(nodes: seq<NodeRecord>, nodeMap: map<Name, NodeRecord>, numNodes: nat)
    requires Listed(nodes, nodeMap, numNodes)
    ensures forall i, j :: 0 <= i < j < |nodes| ==> nodes[i].name != nodes[j].name
  {
  }

  /** A random permutation, by random swaps from the end. */
  method ShuffleNodes(nodes: seq<NodeRecord>) returns (r: seq<NodeRecord>)
    ensures multiset(r) == multiset(nodes)
  {
    r := nodes;
    var i := |nodes| - 1;
    while i > 0
      invariant |r| == |nodes| && i < |r| && multiset(r) == multiset(nodes)
    {
      var j: nat :| j <= i;
      r := r[i := r[j]][j := r[i]];
      i := i - 1;
    }
  }

  lemma {:induction false} NoDupCount(s: seq<NodeRecord>, x: NodeRecord)
    requires forall i, j :: 0 <= i < j < |s| ==> s[i] != s[j]
    ensures multiset(s)[x] <= 1
  {
    if s != [] {
      var p := s[..|s| - 1];
      assert s == p + [s[|s| - 1]];
      NoDupCount(p, x);
      assert x == s[|s| - 1] ==> x !in p;
    }
  }

  lemma DupCount(s: seq<NodeRecord>, i: nat, j: nat)
    requires i < j < |s| && s[i] == s[j]
    ensures multiset(s)[s[i]] >= 2
  {
    assert s == s[..j] + s[j..];
    assert s[i] in s[..j] by { assert s[..j][i] == s[i]; }
    assert s[j] in s[j..] by { assert s[j..][0] == s[j]; }
  }

  /** Reordering the slice keeps it in step with the map. */
  lemma ListedPermuted(nodes: seq<NodeRecord>, p: seq<NodeRecord>, nodeMap: map<Name, NodeRecord>, numNodes: nat)
    requires Listed(nodes, nodeMap, numNodes) && multiset(p) == multiset(nodes)
    ensures Listed(p, nodeMap, numNodes)
  {
    assert |p| == |multiset(p)| == |nodes|;
    forall i, j | 0 <= i < j < |p| ensures p[i] != p[j] {
      if p[i] == p[j] {
        DupCount(p, i, j);
        NoDupCount(nodes, p[i]);
        assert false;
      }
    }
    forall i | 0 <= i < |p| ensures p[i].name in nodeMap && nodeMap[p[i].name] == p[i] {
      assert p[i] in multiset(p);
      assert p[i] in nodes;
    }
  }

  /** An effect that rewrites a record and leaves its timer alone. */
  lemma CommitRecord(m: Model, n: Name, e: Effect)
    requires e.slot.rec.Some? && e.slot.timer == Lookup(m.timers, n)
    ensures Commit(m, n, e) == m.(table := m.table[n := e.slot.rec.value], counter := e.counter,
                                  events := m.events + e.events, casts := m.casts + e.casts)
  {
  }

  lemma TimerDropped(timers: map<Name, Suspicion.Timeout>, n: Name)
    requires n in timers
    ensures |timers - {n}| < |timers|
  {
  }

  /** The first i entries have been merged. */
  ghost predicate Merged(c: Config, start: Model, rs: seq<PushState>, envs: seq<Env>, i: nat, m: Model)
    requires i <= |rs| == |envs|
  {
    m == Merge(c, start, rs[..i], envs[..i])
  }

  lemma MergedAll(c: Config, start: Model, rs: seq<PushState>, envs: seq<Env>, m: Model)
    requires |rs| == |envs| && Merged(c, start, rs, envs, |rs|, m)
    ensures m == Merge(c, start, rs, envs)
  {
    assert rs[..|rs|] == rs && envs[..|envs|] == envs;
  }

  lemma MergedNext(c: Config, start: Model, rs: seq<PushState>, envs: seq<Env>, i: nat, m: Model)
    requires i < |rs| == |envs| && Merged(c, start, rs, envs, i, m)
    ensures Merged(c, start, rs, envs, i + 1, MergeOne(c, m, rs[i], envs[i]))
  {
    assert rs[..i + 1][..i] == rs[..i] && envs[..i + 1][..i] == envs[..i];
  }

  lemma ReapSlot(c: Config, m: Model, now: Time, n: Name)
    ensures SlotOf(Reap(c, m, now), n) ==
              if n in m.table && Expired(c, m.table[n], now) then SlotOf(m, n).(rec := None) else SlotOf(m, n)
  {
  }

  /** What lets an alive message through to the table. */
  ghost predicate Admissible(c: Config, left: bool, a: AliveMsg, bootstrap: bool, env: Env) {
    && !(left && a.node == c.name)
    && ParseVsn(a.vsn).Some?
    && (a.vsn != [] ==> ProperVersions(ParseVsn(a.vsn).value))
    && (c.hasAlive && !bootstrap ==> a.vsn != [] && env.accept(a))
  }

  /** The outcome of an admitted message about a known record. */
  ghost function KnownAlive(c: Config, m: Model, r: Rec, a: AliveMsg, bootstrap: bool, env: Env): Model
    requires ParseVsn(a.vsn).Some? && SlotOf(m, a.node).rec == Some(r)
  {
    if SameAddress(r, a) then
      Commit(m, a.node, AliveCommit(c, SlotOf(m, a.node), m.counter, a, bootstrap, false, env.now))
    else if !env.ipAllowed(a.addr) then m
    else if Reclaimable(c, r, env.now) then
      Commit(m, a.node, AliveCommit(c, SlotOf(m, a.node), m.counter, a, bootstrap, true, env.now))
    else if c.hasConflict then
      m.(events := m.events + [Conflict(a.node, r.node, Node(a.addr, a.port, a.meta, Alive, NoVersions))])
    else m
  }

  lemma AliveLockedCases(c: Config, m: Model, a: AliveMsg, bootstrap: bool, env: Env)
    ensures !Admissible(c, m.left, a, bootstrap, env) ==> AliveLocked(c, m, a, bootstrap, env) == m
    ensures Admissible(c, m.left, a, bootstrap, env) ==>
              var slot := SlotOf(m, a.node);
              AliveLocked(c, m, a, bootstrap, env) ==
                if slot.rec.Some? then KnownAlive(c, m, slot.rec.value, a, bootstrap, env)
                else if !env.ipAllowed(a.addr) then m
                else Commit(m, a.node,
                            AliveCommit(c, slot.(rec := Some(FirstRec(a))), m.counter, a, bootstrap, false, env.now))
  {
    CommitNothing(m, a.node);
  }

  /** Add at the end and swap with the record at the offset. */
  function AppendAndSwap(nodes: seq<NodeRecord>, state: NodeRecord, offset: nat): (r: seq<NodeRecord>)
    requires offset <= |nodes|
    ensures |r| == |nodes| + 1 && r[offset] == state
    ensures forall i :: 0 <= i < |nodes| && i != offset ==> r[i] == nodes[i]
    ensures offset < |nodes| ==> r[|nodes|] == nodes[offset]
  {
    var grown := nodes + [state];
    grown[offset := grown[|nodes|]][|nodes| := grown[offset]]
  }

  /** Appending a new record and swapping it to a random place keeps the slice and the map in step. */
  lemma ListedAdd(nodes: seq<NodeRecord>, nodeMap: map<Name, NodeRecord>, numNodes: nat, state: NodeRecord, offset: nat)
    requires Listed(nodes, nodeMap, numNodes) && state.name !in nodeMap
    requires offset < |nodes| || (|nodes| == 0 && offset == 0)
    ensures Listed(AppendAndSwap(nodes, state, offset), nodeMap[state.name := state], numNodes + 1)
  {
  }

  /** Committing over a model that differs only in that record. */
  lemma CommitOver(m: Model, m1: Model, n: Name, e: Effect)
    requires n in m1.table && e.slot.rec.Some? && m1 == m.(table := m.table[n := m1.table[n]])
    ensures Commit(m1, n, e) == Commit(m, n, e)
  {
  }

  /** An effect that only changes the timer of a record that stays. */
  lemma CommitTimer(m: Model, n: Name, e: Effect)
    requires e.slot.rec == Lookup(m.table, n) && e.slot.timer.Some?
    ensures Commit(m, n, e) == m.(timers := m.timers[n := e.slot.timer.value], counter := e.counter,
                                  events := m.events + e.events, casts := m.casts + e.casts)
  {
  }
}
