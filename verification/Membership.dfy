/**
 The membership state machine: what alive, suspect and dead messages, timer
 expiry, reaping, leaving and updating do to one node's view of the cluster.

 Every message handler touches one record, one suspicion timer and the local
 incarnation counter, so each is a function from that slot to its effect; the
 whole model applies the effect to the tables.
 */
module Membership {
  import opened Base
  import Suspicion

  type Name = string
  type IP = Bytes
  type Time = Suspicion.Time
  type Duration = Suspicion.Duration

  datatype NodeState = Alive | Suspect | Dead | Left

  datatype Versions = Versions(pmin: byte, pmax: byte, pcur: byte, dmin: byte, dmax: byte, dcur: byte)

  /** What users see of a member. */
  datatype Node = Node(addr: IP, port: u16, meta: Bytes, state: NodeState, vsn: Versions)

  /** One record of the node table. */
  datatype Rec = Rec(node: Node, inc: u32, change: Time)

  datatype AliveMsg = AliveMsg(inc: u32, node: Name, addr: IP, port: u16, meta: Bytes, vsn: Bytes)
  datatype SuspectMsg = SuspectMsg(inc: u32, node: Name, from: Name)
  datatype DeadMsg = DeadMsg(inc: u32, node: Name, from: Name)

  datatype Msg = AliveB(alive: AliveMsg) | SuspectB(suspect: SuspectMsg) | DeadB(dead: DeadMsg)

  /** A message queued for gossip under its invalidation key. */
  datatype Broadcast = Broadcast(key: Name, msg: Msg)

  datatype Event =
    | Join(name: Name, node: Node)
    | Update(name: Name, node: Node)
    | Leave(name: Name, node: Node)
    | Conflict(name: Name, node: Node, other: Node)

  /** The instance's configuration; floating-point timeouts are an arbitrary function of the cluster size. */
  datatype Config = Config(
    name: Name,
    vsn: Versions,
    hasAlive: bool,                   // an AliveDelegate is set
    hasEvents: bool,
    hasConflict: bool,
    reclaimAfter: Duration,           // DeadNodeReclaimTime
    gossipToTheDead: Duration,
    suspicionMult: int,
    maxTimeoutMult: int,
    timeout: nat -> Duration,         // suspicionTimeout at a cluster size
    curve: Suspicion.Curve,
    ipString: IP -> Name
  )

  predicate ProperVersions(v: Versions) { 0 < v.pmin <= v.pmax }

  /** The clock and the answers of the IP allow list and the alive delegate during one critical section. */
  datatype Env = Env(now: Time, ipAllowed: IP -> bool, accept: AliveMsg -> bool)

  // ---------------------------------------------------------------- helpers

  const V4Prefix: Bytes := [0, 0, 0, 0, 0, 0, 0, 0, 0, 0, 0xff, 0xff]

  /** net.IP.Equal: an IPv4 address equals its 16-byte form. */
  predicate IPEqual(a: IP, b: IP) {
    if |a| == |b| then a == b
    else if |a| == 4 && |b| == 16 then b[..12] == V4Prefix && a == b[12..]
    else if |a| == 16 && |b| == 4 then a[..12] == V4Prefix && b == a[12..]
    else false
  }

  /** The address itself, whichever form it is written in. */
  function Canonical(a: IP): IP { if |a| == 16 && a[..12] == V4Prefix then a[12..] else a }

  /** Addresses are equal exactly when they are the same address, whatever form peers use: an equivalence. */
  lemma IPEqualIsEquivalence(a: IP, b: IP, c: IP)
    ensures IPEqual(a, b) <==> Canonical(a) == Canonical(b)
    ensures IPEqual(a, a)
    ensures IPEqual(a, b) ==> IPEqual(b, a)
    ensures IPEqual(a, b) && IPEqual(b, c) ==> IPEqual(a, c)
  {
    if Canonical(a) == Canonical(b) && |a| == |b| == 16 {
      assert a == a[..12] + a[12..] && b == b[..12] + b[12..];
    }
  }

  const NoVersions := Versions(0, 0, 0, 0, 0, 0)

  function ParseVsn(v: Bytes): Option<Versions> {
    if v == [] then Some(NoVersions)
    else if |v| < 6 then None
    else Some(Versions(v[0], v[1], v[2], v[3], v[4], v[5]))
  }

  function VsnBytes(v: Versions): Bytes { [v.pmin, v.pmax, v.pcur, v.dmin, v.dmax, v.dcur] }

  /** Addition on the 32-bit atomic incarnation counter. */
  function Add32(x: u32, d: u32): u32 { (x + d) % 0x1_0000_0000 }

  /** The incarnation `refute` chooses against an accusation. */
  function RefuteInc(counter: u32, accused: u32): u32 {
    var inc := Add32(counter, 1);
    if accused >= inc then Add32(inc, (accused - inc + 1) % 0x1_0000_0000) else inc
  }

  predicate DeadOrLeft(r: Rec) { r.node.state.Dead? || r.node.state.Left? }

  // ---------------------------------------------------------------- one slot

  /** What the tables hold for one name. */
  datatype Slot = Slot(rec: Option<Rec>, timer: Option<Suspicion.Susp>)

  datatype Effect = Effect(slot: Slot, counter: u32, events: seq<Event>, casts: seq<Broadcast>)

  function Nothing(slot: Slot, counter: u32): Effect { Effect(slot, counter, [], []) }

  function RefuteEffect(c: Config, name: Name, slot: Slot, counter: u32, accused: u32): Effect
    requires slot.rec.Some?
  {
    var me := slot.rec.value;
    var inc := RefuteInc(counter, accused);
    var a := AliveMsg(inc, name, me.node.addr, me.node.port, me.node.meta, VsnBytes(me.node.vsn));
    Effect(slot.(rec := Some(me.(inc := inc))), inc, [], [Broadcast(c.ipString(me.node.addr), AliveB(a))])
  }

  predicate SameAddress(r: Rec, a: AliveMsg) { IPEqual(r.node.addr, a.addr) && r.node.port == a.port }

  /** A left node, or one dead for longer than the reclaim time, may be replaced at a new address. */
  predicate Reclaimable(c: Config, r: Rec, now: Time) {
    || r.node.state.Left?
    || (r.node.state.Dead? && c.reclaimAfter > 0 && now - r.change > c.reclaimAfter)
  }

  /** A record never seen before starts out dead at incarnation zero. */
  function FirstRec(a: AliveMsg): Rec
    requires ParseVsn(a.vsn).Some?
  {
    Rec(Node(a.addr, a.port, a.meta, Dead, ParseVsn(a.vsn).value), 0, 0)
  }

  function Announce(c: Config, name: Name, before: Rec, after: Rec): seq<Event> {
    if !c.hasEvents then []
    else if DeadOrLeft(before) then [Join(name, after.node)]
    else if before.node.meta != after.node.meta then [Update(name, after.node)]
    else []
  }

  function AliveRec(r: Rec, a: AliveMsg, now: Time): Rec
    requires ParseVsn(a.vsn).Some?
  {
    var vsn := if a.vsn == [] then r.node.vsn else ParseVsn(a.vsn).value;
    Rec(Node(a.addr, a.port, a.meta, Alive, vsn), a.inc, if r.node.state.Alive? then r.change else now)
  }

  function AliveCommit(c: Config, slot: Slot, counter: u32, a: AliveMsg, bootstrap: bool, takeover: bool,
                       now: Time): Effect
    requires slot.rec.Some? && ParseVsn(a.vsn).Some?
  {
    var r := slot.rec.value;
    var local := a.node == c.name;
    if a.inc <= r.inc && !local && !takeover then Nothing(slot, counter)
    else if a.inc < r.inc && local then Nothing(slot, counter)
    else
      var quiet := slot.(timer := None);
      if !bootstrap && local then
        if a.inc == r.inc && a.meta == r.node.meta && a.vsn != [] && ParseVsn(a.vsn).value == r.node.vsn
        then Nothing(quiet, counter)
        else
          var e := RefuteEffect(c, a.node, quiet, counter, a.inc);
          e.(events := Announce(c, a.node, r, e.slot.rec.value))
      else
        var r' := AliveRec(r, a, now);
        Effect(quiet.(rec := Some(r')), counter, Announce(c, a.node, r, r'), [Broadcast(a.node, AliveB(a))])
  }

  function AliveEffect(c: Config, left: bool, slot: Slot, counter: u32, a: AliveMsg, bootstrap: bool,
                       env: Env): Effect {
    if left && a.node == c.name then Nothing(slot, counter)
    else if ParseVsn(a.vsn).None? then Nothing(slot, counter)
    else if a.vsn != [] && !ProperVersions(ParseVsn(a.vsn).value) then Nothing(slot, counter)
    else if c.hasAlive && !bootstrap && (a.vsn == [] || !env.accept(a)) then Nothing(slot, counter)
    else if slot.rec.None? then
      if !env.ipAllowed(a.addr) then Nothing(slot, counter)
      else AliveCommit(c, slot.(rec := Some(FirstRec(a))), counter, a, bootstrap, false, env.now)
    else
      var r := slot.rec.value;
      if SameAddress(r, a) then AliveCommit(c, slot, counter, a, bootstrap, false, env.now)
      else if !env.ipAllowed(a.addr) then Nothing(slot, counter)
      else if Reclaimable(c, r, env.now) then AliveCommit(c, slot, counter, a, bootstrap, true, env.now)
      else
        var other := Node(a.addr, a.port, a.meta, Alive, NoVersions);
        Effect(slot, counter, if c.hasConflict then [Conflict(a.node, r.node, other)] else [], [])
  }

  /** The confirmations a fresh suspicion waits for in a cluster of the given size. */
  function ExpectedConfirmations(c: Config, size: nat): int {
    var k := c.suspicionMult - 2;
    if size - 2 < k then 0 else k
  }

  function FreshTimer(c: Config, from: Name, size: nat, now: Time): Suspicion.Susp {
    var min := c.timeout(size);
    Suspicion.New(from, ExpectedConfirmations(c, size), min, c.maxTimeoutMult * min, now, now)
  }

  function SuspectEffect(c: Config, size: nat, slot: Slot, counter: u32, s: SuspectMsg, now: Time): Effect {
    if slot.rec.None? || s.inc < slot.rec.value.inc then Nothing(slot, counter)
    else if slot.timer.Some? then
      var t := slot.timer.value;
      Effect(slot.(timer := Some(Suspicion.Confirm(c.curve, t, s.from, now))), counter, [],
             if Suspicion.Accepts(t, s.from) then [Broadcast(s.node, SuspectB(s))] else [])
    else if !slot.rec.value.node.state.Alive? then Nothing(slot, counter)
    else if s.node == c.name then RefuteEffect(c, s.node, slot, counter, s.inc)
    else
      var r := slot.rec.value;
      var r' := Rec(r.node.(state := Suspect), s.inc, now);
      Effect(Slot(Some(r'), Some(FreshTimer(c, s.from, size, now))), counter, [], [Broadcast(s.node, SuspectB(s))])
  }

  function DeadEffect(c: Config, left: bool, slot: Slot, counter: u32, d: DeadMsg, now: Time): Effect {
    if slot.rec.None? || d.inc < slot.rec.value.inc then Nothing(slot, counter)
    else
      var r := slot.rec.value;
      var quiet := slot.(timer := None);
      if DeadOrLeft(r) then Nothing(quiet, counter)
      else if d.node == c.name && !left then RefuteEffect(c, d.node, quiet, counter, d.inc)
      else
        var r' := Rec(r.node.(state := if d.node == d.from then Left else Dead), d.inc, now);
        Effect(quiet.(rec := Some(r')), counter,
               if c.hasEvents then [Leave(d.node, r'.node)] else [], [Broadcast(d.node, DeadB(d))])
  }

  /** The callback of a suspicion timer armed when the record changed at `change`. */
  function ExpireEffect(c: Config, left: bool, slot: Slot, counter: u32, name: Name, change: Time, now: Time): Effect {
    if slot.rec.Some? && slot.rec.value.node.state.Suspect? && slot.rec.value.change == change
    then DeadEffect(c, left, slot, counter, DeadMsg(slot.rec.value.inc, name, c.name), now)
    else Nothing(slot, counter)
  }

  // ---------------------------------------------------------------- the whole model

  datatype Model = Model(
    table: map<Name, Rec>,
    timers: map<Name, Suspicion.Susp>,
    counter: u32,
    left: bool,
    shutdown: bool,
    events: seq<Event>,
    casts: seq<Broadcast>
  )

  function Lookup<V>(m: map<Name, V>, n: Name): Option<V> { if n in m then Some(m[n]) else None }

  function Store<V>(m: map<Name, V>, n: Name, v: Option<V>): map<Name, V> {
    if v.Some? then m[n := v.value] else m - {n}
  }

  function SlotOf(m: Model, n: Name): Slot { Slot(Lookup(m.table, n), Lookup(m.timers, n)) }

  function Commit(m: Model, n: Name, e: Effect): Model {
    m.(table := Store(m.table, n, e.slot.rec), timers := Store(m.timers, n, e.slot.timer), counter := e.counter,
       events := m.events + e.events, casts := m.casts + e.casts)
  }

  function AliveLocked(c: Config, m: Model, a: AliveMsg, bootstrap: bool, env: Env): Model {
    Commit(m, a.node, AliveEffect(c, m.left, SlotOf(m, a.node), m.counter, a, bootstrap, env))
  }

  function AliveNode(c: Config, m: Model, a: AliveMsg, env: Env): Model {
    if m.shutdown then m else AliveLocked(c, m, a, false, env)
  }

  function SuspectNode(c: Config, m: Model, s: SuspectMsg, env: Env): Model {
    if m.shutdown then m
    else Commit(m, s.node, SuspectEffect(c, |m.table|, SlotOf(m, s.node), m.counter, s, env.now))
  }

  function DeadLocked(c: Config, m: Model, d: DeadMsg, env: Env): Model {
    Commit(m, d.node, DeadEffect(c, m.left, SlotOf(m, d.node), m.counter, d, env.now))
  }

  function DeadNode(c: Config, m: Model, d: DeadMsg, env: Env): Model {
    if m.shutdown then m else DeadLocked(c, m, d, env)
  }

  function Expire(c: Config, m: Model, name: Name, change: Time, env: Env): Model {
    if m.shutdown then m
    else Commit(m, name, ExpireEffect(c, m.left, SlotOf(m, name), m.counter, name, change, env.now))
  }

  predicate Expired(c: Config, r: Rec, now: Time) { DeadOrLeft(r) && now - r.change > c.gossipToTheDead }

  function Reap(c: Config, m: Model, now: Time): Model {
    m.(table := map n | n in m.table && !Expired(c, m.table[n], now) :: m.table[n])
  }

  /** The critical section of LeaveContext. */
  function LeaveCluster(c: Config, m: Model, env: Env): Model {
    if m.shutdown || m.left || c.name !in m.table then m
    else DeadLocked(c, m.(left := true), DeadMsg(m.table[c.name].inc, c.name, c.name), env)
  }

  /** The critical section of UpdateNodeContext. */
  function UpdateLocal(c: Config, m: Model, meta: Bytes, env: Env): Model {
    if m.shutdown || m.left || c.name !in m.table then m
    else
      var inc := Add32(m.counter, 1);
      var me := m.table[c.name].node;
      AliveLocked(c, m.(counter := inc), AliveMsg(inc, c.name, me.addr, me.port, meta, VsnBytes(c.vsn)), true, env)
  }

  const Empty := Model(map[], map[], 0, false, false, [], [])

  /** setAlive: the counter moves, then the local node's own alive message is applied. */
  function SetAlive(c: Config, m: Model, addr: IP, port: u16, meta: Bytes, env: Env): Model {
    var inc := Add32(m.counter, 1);
    AliveLocked(c, m.(counter := inc), AliveMsg(inc, c.name, addr, port, meta, VsnBytes(c.vsn)), true, env)
  }

  datatype Step =
    | AliveStep(a: AliveMsg, env: Env)
    | SuspectStep(s: SuspectMsg, env: Env)
    | DeadStep(d: DeadMsg, env: Env)
    | ExpireStep(name: Name, change: Time, env: Env)
    | ReapStep(env: Env)
    | LeaveStep(env: Env)
    | UpdateStep(meta: Bytes, env: Env)
    | ShutdownStep                     // the flag, then finishShutdown stopping every timer

  function Next(c: Config, m: Model, st: Step): Model {
    match st
    case AliveStep(a, env) => AliveNode(c, m, a, env)
    case SuspectStep(s, env) => SuspectNode(c, m, s, env)
    case DeadStep(d, env) => DeadNode(c, m, d, env)
    case ExpireStep(n, change, env) => Expire(c, m, n, change, env)
    case ReapStep(env) => Reap(c, m, env.now)
    case LeaveStep(env) => LeaveCluster(c, m, env)
    case UpdateStep(meta, env) => UpdateLocal(c, m, meta, env)
    case ShutdownStep => m.(shutdown := true, timers := map[])
  }

  /** The local incarnation counter is not at its last value when the instance counts up. */
  predicate CounterRoom(m: Model, st: Step) { st.UpdateStep? ==> m.counter < MaxUint32 }
}
