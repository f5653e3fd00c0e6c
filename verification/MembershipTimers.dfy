/** What an expiry callback can do after its timer was superseded. */
module MembershipTimers {
  import opened Base
  import opened Membership
  import opened MembershipRuns

  /** The record is suspect, since the moment t: what the callback of a timer armed at t looks for. */
  predicate SuspectSince(m: Model, n: Name, t: Time) {
    n in m.table && m.table[n].node.state.Suspect? && m.table[n].change == t
  }

  /** The step arms a timer for n at t. */
  predicate Arms(m: Model, st: Step, n: Name, t: Time) {
    && st.SuspectStep? && st.s.node == n && st.env.now == t
    && n in m.table && m.table[n].node.state.Alive?
  }

  lemma AliveStartsNothing(c: Config, left: bool, slot: Slot, counter: u32, a: AliveMsg, bootstrap: bool, env: Env)
    ensures var e := AliveEffect(c, left, slot, counter, a, bootstrap, env);
            e.slot.rec.Some? && e.slot.rec.value.node.state.Suspect? ==>
              slot.rec.Some? && slot.rec.value.node.state.Suspect? && slot.rec.value.change == e.slot.rec.value.change
  {
  }

  lemma DeadStartsNothing(c: Config, left: bool, slot: Slot, counter: u32, d: DeadMsg, now: Time)
    ensures var e := DeadEffect(c, left, slot, counter, d, now);
            e.slot.rec.Some? && e.slot.rec.value.node.state.Suspect? ==>
              slot.rec.Some? && slot.rec.value.node.state.Suspect? && slot.rec.value.change == e.slot.rec.value.change
  {
  }

  /** Only a suspicion of an alive node, at that very clock value, makes a record suspect since t. */
  lemma OnlyArmingSuspects(c: Config, m: Model, st: Step, n: Name, t: Time)
    requires !SuspectSince(m, n, t) && SuspectSince(Next(c, m, st), n, t)
    ensures Arms(m, st, n, t)
  {
    match st
    case AliveStep(a, env) => AliveMessageStartsNothing(c, m, a, env, n, t);
    case SuspectStep(s, env) => SuspicionArms(c, m, s, env, n, t);
    case DeadStep(d, env) => DeadMessageStartsNothing(c, m, d, env, n, t);
    case ExpireStep(x, change, env) => ExpireStartsNothing(c, m, x, change, env, n, t);
    case ReapStep(env) =>
    case LeaveStep(env) => LeaveStartsNothing(c, m, env, n, t);
    case UpdateStep(meta, env) => UpdateStartsNothing(c, m, meta, env, n, t);
    case ShutdownStep =>
  }

  lemma AliveMessageStartsNothing(c: Config, m: Model, a: AliveMsg, env: Env, n: Name, t: Time)
    requires !SuspectSince(m, n, t)
    ensures !SuspectSince(AliveNode(c, m, a, env), n, t)
  {
    AliveStartsNothing(c, m.left, SlotOf(m, n), m.counter, a, false, env);
  }

  lemma DeadMessageStartsNothing(c: Config, m: Model, d: DeadMsg, env: Env, n: Name, t: Time)
    requires !SuspectSince(m, n, t)
    ensures !SuspectSince(DeadNode(c, m, d, env), n, t)
  {
    DeadStartsNothing(c, m.left, SlotOf(m, n), m.counter, d, env.now);
  }

  lemma SuspicionArms(c: Config, m: Model, s: SuspectMsg, env: Env, n: Name, t: Time)
    requires !SuspectSince(m, n, t) && SuspectSince(SuspectNode(c, m, s, env), n, t)
    ensures Arms(m, SuspectStep(s, env), n, t)
  {
  }

  lemma ExpireStartsNothing(c: Config, m: Model, x: Name, change: Time, env: Env, n: Name, t: Time)
    requires !SuspectSince(m, n, t)
    ensures !SuspectSince(Expire(c, m, x, change, env), n, t)
  {
    var slot := SlotOf(m, n);
    if slot.rec.Some? {
      DeadStartsNothing(c, m.left, slot, m.counter, DeadMsg(slot.rec.value.inc, n, c.name), env.now);
    }
  }

  lemma LeaveStartsNothing(c: Config, m: Model, env: Env, n: Name, t: Time)
    requires !SuspectSince(m, n, t)
    ensures !SuspectSince(LeaveCluster(c, m, env), n, t)
  {
    if n in m.table {
      DeadStartsNothing(c, true, SlotOf(m, n), m.counter, DeadMsg(m.table[n].inc, n, n), env.now);
    }
  }

  lemma UpdateStartsNothing(c: Config, m: Model, meta: Bytes, env: Env, n: Name, t: Time)
    requires !SuspectSince(m, n, t)
    ensures !SuspectSince(UpdateLocal(c, m, meta, env), n, t)
  {
    if !m.shutdown && !m.left && c.name in m.table {
      var inc := Add32(m.counter, 1);
      var me := m.table[c.name].node;
      var a := AliveMsg(inc, c.name, me.addr, me.port, meta, VsnBytes(c.vsn));
      AliveStartsNothing(c, m.left, SlotOf(m, c.name), inc, a, true, env);
    }
  }

  /** No step between i and j arms a timer for n at t. */
  ghost predicate NotArmed(ms: seq<Model>, steps: seq<Step>, i: nat, j: nat, n: Name, t: Time)
    requires |ms| == |steps| + 1 && j < |ms|
  {
    forall k: nat :: i <= k < j ==> !Arms(ms[k], steps[k], n, t)
  }

  lemma {:induction false} StaysSuperseded(c: Config, ms: seq<Model>, steps: seq<Step>, i: nat, j: nat, n: Name,
                                           t: Time)
    requires IsRun(c, ms, steps) && i <= j < |ms| && NotArmed(ms, steps, i, j, n, t)
    requires ms[i].shutdown || !SuspectSince(ms[i], n, t)
    ensures ms[j].shutdown || !SuspectSince(ms[j], n, t)
  {
    if i < j {
      StaysSuperseded(c, ms, steps, i, j - 1, n, t);
      assert Linked(c, ms, steps, j - 1);
      SupersededStep(c, ms[j - 1], steps[j - 1], n, t);
    }
  }

  lemma SupersededStep(c: Config, m: Model, st: Step, n: Name, t: Time)
    requires !Arms(m, st, n, t) && (m.shutdown || !SuspectSince(m, n, t))
    ensures Next(c, m, st).shutdown || !SuspectSince(Next(c, m, st), n, t)
  {
    if !m.shutdown && SuspectSince(Next(c, m, st), n, t) {
      OnlyArmingSuspects(c, m, st, n, t);
    }
  }

  lemma CurrentIffSuspect(c: Config, ms: seq<Model>, steps: seq<Step>, i: nat, n: Name, t: Time)
    requires IsRun(c, ms, steps) && i < |ms| && !ms[i].shutdown
    ensures IsCurrent(ms[i], n, t) <==> SuspectSince(ms[i], n, t)
  {
    TimersMatchSuspects(c, ms, steps, i, n);
  }

  /**
   A stale timer's expiry changes nothing. Once the timer armed for n at t is
   not the current one, by an alive or dead message, by reaping, by leaving the
   table and coming back, by address takeover or by shutdown, its callback does
   nothing at any later point of the run, unless n was suspected anew at the very
   same clock value.
   */
  lemma StaleExpiryChangesNothing(c: Config, ms: seq<Model>, steps: seq<Step>, i: nat, j: nat, n: Name, t: Time,
                                  env: Env)
    requires IsRun(c, ms, steps) && i <= j < |ms|
    requires !IsCurrent(ms[i], n, t) && NotArmed(ms, steps, i, j, n, t)
    ensures Expire(c, ms[j], n, t, env) == ms[j]
  {
    if !ms[i].shutdown {
      CurrentIffSuspect(c, ms, steps, i, n, t);
    }
    StaysSuperseded(c, ms, steps, i, j, n, t);
    CommitNothing(ms[j], n);
  }

  /**
   An expiry acts exactly when its timer was held all along. Between the moment
   i at which the timer armed at t is current and a later j, with no second
   suspicion at the same clock value: the callback marks the node dead at j if
   the timer was current at every point in between, and changes nothing if it
   was not at any one of them.
   */
  lemma ExpiryActsIffHeldThroughout(c: Config, ms: seq<Model>, steps: seq<Step>, i: nat, j: nat, n: Name, t: Time,
                                    env: Env)
    requires IsRun(c, ms, steps) && i <= j < |ms| && NotArmed(ms, steps, i, j, n, t)
    ensures var m := Expire(c, ms[j], n, t, env);
            if forall k :: i <= k <= j ==> IsCurrent(ms[k], n, t)
            then n in m.table && m.table[n].node.state.Dead? && n !in m.timers
            else m == ms[j]
  {
    if k :| i <= k <= j && !IsCurrent(ms[k], n, t) {
      StaleExpiryChangesNothing(c, ms, steps, k, j, n, t, env);
    } else {
      assert IsCurrent(ms[j], n, t);
      RunsKeepInv(c, ms, steps, j);
      ShutdownHasNoTimers(c, ms, steps, j);
      ExpiryActsIffCurrent(c, ms[j], n, t, env);
    }
  }

  /** Shutdown stops every timer, and nothing arms one afterwards. */
  lemma {:induction false} ShutdownHasNoTimers(c: Config, ms: seq<Model>, steps: seq<Step>, i: nat)
    requires IsRun(c, ms, steps) && i < |ms|
    ensures ms[i].shutdown ==> ms[i].timers == map[]
  {
    if i > 0 {
      ShutdownHasNoTimers(c, ms, steps, i - 1);
      assert Linked(c, ms, steps, i - 1);
    }
  }

  /** The clock never shows the same value to two steps that suspect. */
  ghost predicate ClockMoves(steps: seq<Step>) {
    forall k, l :: 0 <= k < l < |steps| && steps[k].SuspectStep? && steps[l].SuspectStep? ==>
        steps[k].env.now < steps[l].env.now
  }

  /** With a clock that moves, the timer armed at step a is stale for good as soon as it is not current. */
  lemma StaleForGood(c: Config, ms: seq<Model>, steps: seq<Step>, a: nat, i: nat, j: nat, env: Env)
    requires IsRun(c, ms, steps) && a < i <= j < |ms| && ClockMoves(steps) && steps[a].SuspectStep?
    requires !IsCurrent(ms[i], steps[a].s.node, steps[a].env.now)
    ensures Expire(c, ms[j], steps[a].s.node, steps[a].env.now, env) == ms[j]
  {
    StaleExpiryChangesNothing(c, ms, steps, i, j, steps[a].s.node, steps[a].env.now, env);
  }

  /**
   A superseded timer is told apart only by its change time: after the node was
   heard alive and suspected again, the old callback does nothing if and only if
   the clock moved between the two suspicions.
   */
  lemma SupersededTimerNeedsClockToMove(c: Config, m: Model, a: AliveMsg, s: SuspectMsg, first: Time, env1: Env,
                                        env2: Env, env3: Env)
    requires Inv(c, m) && !m.shutdown && IsCurrent(m, a.node, first)
    requires var m1 := AliveNode(c, m, a, env1);
             s.node == a.node && a.node in m1.table && m1.table[a.node].node.state.Alive? &&
               m1.table[a.node].inc <= s.inc
    ensures var m2 := SuspectNode(c, AliveNode(c, m, a, env1), s, env2);
            Expire(c, m2, a.node, first, env3) == m2 <==> env2.now != first
  {
    var n := a.node;
    assert TimerOK(SlotOf(m, n)) && n != c.name;
    var m1 := AliveNode(c, m, a, env1);
    StepKeepsAlive(c, m, a, env1);
    assert TimerOK(SlotOf(m1, n));
    var e2 := SuspectEffect(c, |m1.table|, SlotOf(m1, n), m1.counter, s, env2.now);
    CommitSlot(m1, n, e2, n);
    StepKeepsSuspect(c, m1, s, env2);
    var m2 := SuspectNode(c, m1, s, env2);
    assert Lookup(m2.timers, n).Some? && m2.timers[n].change == env2.now;
    ExpiryActsIffCurrent(c, m2, n, first, env3);
    assert TimerOK(SlotOf(m2, n));
  }

  lemma StepKeepsAlive(c: Config, m: Model, a: AliveMsg, env: Env)
    requires Inv(c, m) && !m.shutdown
    ensures Inv(c, AliveNode(c, m, a, env)) && !AliveNode(c, m, a, env).shutdown
  {
    assert TimerOK(SlotOf(m, a.node));
    AliveKeeps(c, m.left, SlotOf(m, a.node), m.counter, a, env);
    CommitKeepsInv(c, m, a.node, AliveEffect(c, m.left, SlotOf(m, a.node), m.counter, a, false, env));
  }

  lemma StepKeepsSuspect(c: Config, m: Model, s: SuspectMsg, env: Env)
    requires Inv(c, m) && !m.shutdown
    ensures Inv(c, SuspectNode(c, m, s, env)) && !SuspectNode(c, m, s, env).shutdown
  {
    assert TimerOK(SlotOf(m, s.node));
    SuspectKeeps(c, m.left, |m.table|, SlotOf(m, s.node), m.counter, s, env.now);
    CommitKeepsInv(c, m, s.node, SuspectEffect(c, |m.table|, SlotOf(m, s.node), m.counter, s, env.now));
  }
}
