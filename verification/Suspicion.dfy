/**
 The Lifeguard suspicion timer: starts at the maximum timeout and is driven to
 the minimum as independent confirmations arrive.

 Times and durations are in nanoseconds. The logarithmic share of the window a
 number of confirmations buys is any `Curve`: monotone, 0 without confirmations
 and 1 with all of them.
 */
module Suspicion {

  type Name = string
  type Time = int
  type Duration = int

  /** log(n + 1) / log(k + 1), abstractly. */
  type Curve = (nat, int) -> real

  ghost predicate IsCurve(f: Curve) {
    && (forall k: int :: k >= 1 ==> f(0, k) == 0.0 && f(k, k) == 1.0)
    && (forall n: nat, m: nat, k: int :: n <= m <= k ==> f(n, k) <= f(m, k))
  }

  /** The runtime timer: armed, or its function has been started. */
  datatype Timer = Pending(due: Time) | Fired(at: Time)

  /**
   The fields of one suspicion; `change` is the state-change time its expiry callback captured, `runs` counts callback
   starts.
   */
  datatype Susp = Susp(n: nat, k: int, min: Duration, max: Duration, start: Time, change: Time,
                       confirmations: set<Name>, timer: Timer, runs: nat)

  const Millisecond: Duration := 1_000_000

  /** The unrounded timeout after n of k confirmations. */
  function Raw(f: Curve, n: nat, k: int, min: Duration, max: Duration): real {
    max as real - f(n, k) * (max - min) as real
  }

  /** Whole milliseconds, but never below the minimum. */
  function Rounded(raw: real, min: Duration): (r: Duration)
    ensures r >= min
    ensures r as real <= raw || r == min
  {
    var timeout := (raw / Millisecond as real).Floor * Millisecond;
    assert timeout as real <= raw by { FloorBelow(raw); }
    if timeout < min then min else timeout
  }

  /** The whole timeout after n of k confirmations, before subtracting the elapsed time. */
  function TimeoutFor(f: Curve, n: nat, k: int, min: Duration, max: Duration): Duration {
    Rounded(Raw(f, n, k, min, max), min)
  }

  function RemainingSuspicionTime(f: Curve, n: nat, k: int, elapsed: Duration, min: Duration, max: Duration): Duration {
    TimeoutFor(f, n, k, min, max) - elapsed
  }

  function New(from: Name, k: int, min: Duration, max: Duration, change: Time, now: Time): Susp {
    Susp(0, k, min, max, now, change, {from}, Pending(now + (if k < 1 then min else max)), 0)
  }

  predicate Accepts(s: Susp, from: Name) { s.n < s.k && from !in s.confirmations }

  function Confirm(f: Curve, s: Susp, from: Name, now: Time): Susp {
    if !Accepts(s, from) then s
    else
      var n := s.n + 1;
      var remaining := RemainingSuspicionTime(f, n, s.k, now - s.start, s.min, s.max);
      var s' := s.(n := n, confirmations := s.confirmations + {from});
      if !s.timer.Pending? then s'                                      // Stop reported false
      else if remaining > 0 then s'.(timer := Pending(now + remaining))
      else s'.(timer := Fired(now), runs := s.runs + 1)
  }

  /** The runtime fires a pending timer once its due time has come. */
  function Fire(s: Susp, now: Time): Susp {
    if s.timer.Pending? && s.timer.due <= now then s.(timer := Fired(now), runs := s.runs + 1) else s
  }

  /** The object form, updated in place. */
  class Timeout {
    var n: nat
    const k: int
    const min: Duration
    const max: Duration
    const start: Time
    const change: Time
    var confirmations: set<Name>
    var timer: Timer
    ghost var runs: nat

    ghost function View(): Susp
      reads this
    {
      Susp(n, k, min, max, start, change, confirmations, timer, runs)
    }

    constructor (from: Name, k: int, min: Duration, max: Duration, change: Time, now: Time)
      ensures View() == New(from, k, min, max, change, now)
    {
      this.n, this.k, this.min, this.max, this.change := 0, k, min, max, change;
      confirmations := {from};
      var timeout := max;
      if k < 1 {
        timeout := min;
      }
      timer := Pending(now + timeout);
      start := now;
      runs := 0;
    }

    method ConfirmBy(f: Curve, from: Name, now: Time) returns (accepted: bool)
      modifies this
      ensures View() == Confirm(f, old(View()), from, now)
      ensures accepted == Accepts(old(View()), from)
    {
      if n >= k {
        return false;
      }
      if from in confirmations {
        return false;
      }
      confirmations := confirmations + {from};
      n := n + 1;
      var elapsed := now - start;
      var remaining := RemainingSuspicionTime(f, n, k, elapsed, min, max);
      if timer.Pending? {
        if remaining > 0 {
          timer := Pending(now + remaining);
        } else {
          timer := Fired(now);
          runs := runs + 1;
        }
      }
      return true;
    }
  }

  // ---------------------------------------------------------------- runs

  datatype Op = Confirmed(from: Name, now: Time) | Elapsed(now: Time)

  function Apply(f: Curve, s: Susp, op: Op): Susp {
    match op
    case Confirmed(from, now) => Confirm(f, s, from, now)
    case Elapsed(now) => Fire(s, now)
  }

  function Run(f: Curve, s: Susp, ops: seq<Op>): Susp {
    if ops == [] then s else Apply(f, Run(f, s, ops[..|ops| - 1]), ops[|ops| - 1])
  }

  /** Everybody who sent a confirmation. */
  function Confirmers(ops: seq<Op>): set<Name> {
    set i | 0 <= i < |ops| && ops[i].Confirmed? :: ops[i].from
  }

  /** The timeout in force with n confirmations; the first one is the unrounded maximum. */
  function TimeoutAt(f: Curve, n: nat, k: int, min: Duration, max: Duration): Duration {
    if n == 0 then (if k < 1 then min else max) else TimeoutFor(f, n, k, min, max)
  }

  function Cap(k: int): nat { if k < 0 then 0 else k }

  predicate TimerInv(f: Curve, s: Susp) {
    && s.n <= Cap(s.k)
    && (s.timer.Pending? ==> s.timer.due == s.start + TimeoutAt(f, s.n, s.k, s.min, s.max) && s.runs == 0)
    && (s.timer.Fired? ==> s.timer.at >= s.start + s.min && s.runs == 1)
  }

  lemma StepKeepsTimer(f: Curve, s: Susp, op: Op)
    requires s.min <= s.max && TimerInv(f, s) && IsCurve(f)
    ensures TimerInv(f, Apply(f, s, op))
  {
  }

  /** The timeout stays within its window. */
  lemma TimeoutBounds(f: Curve, n: nat, k: int, min: Duration, max: Duration)
    requires IsCurve(f) && min <= max && n <= Cap(k)
    ensures min <= TimeoutAt(f, n, k, min, max) <= max
    ensures n == k && k >= 1 ==> TimeoutAt(f, n, k, min, max) == min
  {
    if n > 0 {
      RawShrinks(f, 0, n, k, min, max);
      assert Raw(f, 0, k, min, max) == max as real;
    }
  }

  lemma RawShrinks(f: Curve, n: nat, m: nat, k: int, min: Duration, max: Duration)
    requires IsCurve(f) && min <= max && n <= m <= k && k >= 1
    ensures Raw(f, m, k, min, max) <= Raw(f, n, k, min, max)
    ensures Raw(f, k, k, min, max) == min as real
  {
  }

  lemma FloorBelow(raw: real)
    ensures ((raw / Millisecond as real).Floor * Millisecond) as real <= raw
  {
  }

  lemma RoundedMonotone(a: real, b: real, min: Duration)
    requires a <= b
    ensures Rounded(a, min) <= Rounded(b, min)
  {
  }

  /** More confirmations never lengthen the timeout. */
  lemma TimeoutShrinks(f: Curve, n: nat, m: nat, k: int, min: Duration, max: Duration)
    requires IsCurve(f) && min <= max && n <= m <= Cap(k)
    ensures TimeoutAt(f, m, k, min, max) <= TimeoutAt(f, n, k, min, max)
  {
    if n == 0 {
      TimeoutBounds(f, m, k, min, max);
    } else {
      RawShrinks(f, n, m, k, min, max);
      RoundedMonotone(Raw(f, m, k, min, max), Raw(f, n, k, min, max), min);
    }
  }

  /**
   The timeout follows the curve: it is the share of the window that the
   confirmations leave, down to the whole millisecond, unless that is less than
   a millisecond above the minimum.
   */
  lemma TimeoutFollowsCurve(f: Curve, n: nat, k: int, min: Duration, max: Duration)
    requires 1 <= n <= k
    ensures var v, t := max as real - f(n, k) * (max - min) as real, TimeoutAt(f, n, k, min, max);
            && (t == min || v - Millisecond as real < t as real <= v)
            && (t == min ==> v < (min + Millisecond) as real)
  {
    FloorClose(Raw(f, n, k, min, max));
  }

  lemma FloorClose(raw: real)
    ensures var t := (raw / Millisecond as real).Floor * Millisecond; raw - Millisecond as real < t as real <= raw
  {
    var q := raw / Millisecond as real;
    assert q.Floor as real <= q < (q.Floor + 1) as real;
    assert q * Millisecond as real == raw;
  }

  /** A confirmation that is worth a millisecond of the window shortens the timeout, if that was above the minimum. */
  lemma ConfirmationShortens(f: Curve, n: nat, k: int, min: Duration, max: Duration)
    requires IsCurve(f) && min <= max && n < k
    requires (f(n + 1, k) - f(n, k)) * (max - min) as real >= Millisecond as real
    requires TimeoutAt(f, n, k, min, max) > min
    ensures TimeoutAt(f, n + 1, k, min, max) < TimeoutAt(f, n, k, min, max)
  {
    TimeoutFollowsCurve(f, n + 1, k, min, max);
    if n == 0 {
      assert f(0, k) == 0.0;
    } else {
      var a, b := Raw(f, n, k, min, max), Raw(f, n + 1, k, min, max);
      assert b <= a - Millisecond as real by {
        Spread(f(n, k), f(n + 1, k), (max - min) as real);
      }
      FloorClose(a);
      FloorClose(b);
      FloorApart(a, b);
    }
  }

  lemma Spread(x: real, y: real, w: real)
    ensures (y - x) * w == y * w - x * w
  {
  }

  lemma FloorApart(a: real, b: real)
    requires b <= a - Millisecond as real
    ensures (b / Millisecond as real).Floor < (a / Millisecond as real).Floor
  {
    var p, q := a / Millisecond as real, b / Millisecond as real;
    assert p * Millisecond as real == a && q * Millisecond as real == b;
    assert q <= p - 1.0;
  }

  function Smaller(a: nat, b: nat): nat { if a < b then a else b }

  predicate SameSetup(r: Susp, s: Susp) {
    r.k == s.k && r.min == s.min && r.max == s.max && r.start == s.start && r.change == s.change
  }

  /** How the confirmation count relates to who has confirmed so far. */
  predicate CountInv(r: Susp, from: Name, who: set<Name>) {
    && {from} <= r.confirmations <= who + {from}
    && r.n == |r.confirmations| - 1 <= Cap(r.k)
    && (r.n < r.k ==> r.confirmations == who + {from})
  }

  lemma StepCounts(f: Curve, r: Susp, from: Name, who: set<Name>, op: Op)
    requires CountInv(r, from, who)
    ensures CountInv(Apply(f, r, op), from, who + (if op.Confirmed? then {op.from} else {}))
  {
    if op.Confirmed? {
      ConfirmCounts(f, r, from, who, op.from, op.now);
    }
  }

  lemma ConfirmCounts(f: Curve, r: Susp, from: Name, who: set<Name>, name: Name, now: Time)
    requires CountInv(r, from, who)
    ensures CountInv(Confirm(f, r, name, now), from, who + {name})
  {
    var r' := Confirm(f, r, name, now);
    if Accepts(r, name) {
      assert r'.confirmations == r.confirmations + {name} && r'.n == r.n + 1 && r'.k == r.k;
      assert |r.confirmations + {name}| == |r.confirmations| + 1;
      assert who + {name} + {from} == who + {from} + {name};
    } else {
      assert r' == r && (r.n < r.k ==> name in r.confirmations && who + {name} + {from} == who + {from});
    }
  }

  lemma {:induction false} RunCounts(f: Curve, s: Susp, from: Name, ops: seq<Op>)
    requires s.n == 0 && s.confirmations == {from}
    ensures SameSetup(Run(f, s, ops), s) && CountInv(Run(f, s, ops), from, Confirmers(ops))
  {
    if ops != [] {
      var p := ops[..|ops| - 1];
      RunCounts(f, s, from, p);
      ConfirmersStep(ops);
      StepCounts(f, Run(f, s, p), from, Confirmers(p), ops[|ops| - 1]);
    }
  }

  lemma ConfirmersStep(ops: seq<Op>)
    requires ops != []
    ensures var p, op := ops[..|ops| - 1], ops[|ops| - 1];
            Confirmers(ops) == Confirmers(p) + (if op.Confirmed? then {op.from} else {})
  {
  }

  lemma SubsetCard(a: set<Name>, b: set<Name>)
    requires a <= b
    ensures |a| <= |b|
    ensures |a| == |b| ==> a == b
  {
    assert |b - a| == |b| - |a|;
    if |a| == |b| {
      assert b - a == {};
    }
  }

  /** n is the number of distinct confirmers other than the originator, capped at max(k, 0). */
  lemma CountsDistinctConfirmers(f: Curve, from: Name, k: int, min: Duration, max: Duration, change: Time, now: Time,
                                 ops: seq<Op>)
    ensures Run(f, New(from, k, min, max, change, now), ops).n == Smaller(Cap(k), |Confirmers(ops) - {from}|)
  {
    var s := New(from, k, min, max, change, now);
    RunCounts(f, s, from, ops);
    var r := Run(f, s, ops);
    var others := Confirmers(ops) - {from};
    assert r.confirmations - {from} <= others;
    assert |r.confirmations - {from}| == r.n;
    SubsetCard(r.confirmations - {from}, others);
    if r.n < k {
      assert r.confirmations - {from} == others;
    }
  }

  lemma {:induction false} RunKeepsTimer(f: Curve, from: Name, k: int, min: Duration, max: Duration, change: Time,
                                         now: Time, ops: seq<Op>)
    requires IsCurve(f) && min <= max
    ensures TimerInv(f, Run(f, New(from, k, min, max, change, now), ops))
  {
    var s := New(from, k, min, max, change, now);
    if ops != [] {
      var p := ops[..|ops| - 1];
      RunKeepsTimer(f, from, k, min, max, change, now, p);
      RunCounts(f, s, from, p);
      StepKeepsTimer(f, Run(f, s, p), ops[|ops| - 1]);
    }
  }

  /**
   While armed, the firing time lies in [start + min, start + max] and is
   exactly start + min once k confirmations are in; the timeout function runs at
   most once, and never before start + min.
   */
  lemma FiringTimeInWindow(f: Curve, from: Name, k: int, min: Duration, max: Duration, change: Time, now: Time,
                           ops: seq<Op>)
    requires IsCurve(f) && min <= max
    ensures var r := Run(f, New(from, k, min, max, change, now), ops);
            && r.runs <= 1
            && (r.timer.Pending? ==> r.runs == 0 && now + min <= r.timer.due <= now + max)
            && (r.timer.Pending? && r.n == Cap(k) ==> r.timer.due == now + min)
            && (r.timer.Fired? ==> r.runs == 1 && r.timer.at >= now + min)
  {
    var s := New(from, k, min, max, change, now);
    RunKeepsTimer(f, from, k, min, max, change, now, ops);
    RunCounts(f, s, from, ops);
    TimeoutBounds(f, Run(f, s, ops).n, k, min, max);
  }

  /** Time alone fires the timer exactly when the firing time has come, and otherwise changes nothing. */
  lemma ElapsingFiresIffDue(f: Curve, from: Name, k: int, min: Duration, max: Duration, change: Time, now: Time,
                            ops: seq<Op>, t: Time)
    requires IsCurve(f) && min <= max
    ensures var s := New(from, k, min, max, change, now);
            var r, r' := Run(f, s, ops), Run(f, s, ops + [Elapsed(t)]);
            if r.timer.Pending? && r.timer.due <= t then r' == r.(timer := Fired(t), runs := 1) else r' == r
  {
    assert (ops + [Elapsed(t)])[..|ops|] == ops;
    RunKeepsTimer(f, from, k, min, max, change, now, ops);
  }

  /**
   The confirmation that reaches the cap, at any point of a run: before start + min it moves the firing time there, and
   from then on it fires at that very moment.
   */
  lemma CapDecides(f: Curve, from: Name, k: int, min: Duration, max: Duration, change: Time, now: Time, ops: seq<Op>,
                   who: Name, t: Time)
    requires IsCurve(f) && min <= max
    requires var r := Run(f, New(from, k, min, max, change, now), ops);
             r.timer.Pending? && Accepts(r, who) && r.n + 1 == k
    ensures var s := New(from, k, min, max, change, now);
            var r' := Run(f, s, ops + [Confirmed(who, t)]);
            && r'.n == k
            && r'.timer == (if t < now + min then Pending(now + min) else Fired(t))
            && r'.runs == (if t < now + min then 0 else 1)
  {
    var s := New(from, k, min, max, change, now);
    assert (ops + [Confirmed(who, t)])[..|ops|] == ops;
    RunCounts(f, s, from, ops);
    RunKeepsTimer(f, from, k, min, max, change, now, ops);
    TimeoutBounds(f, k, k, min, max);
  }

  /** A further confirmation by this name counts, and is worth a millisecond of a window not used up. */
  ghost predicate Hastens(f: Curve, r: Susp, who: Name) {
    && r.timer.Pending? && r.timer.due > r.start + r.min && Accepts(r, who)
    && (f(r.n + 1, r.k) - f(r.n, r.k)) * (r.max - r.min) as real >= Millisecond as real
  }

  lemma ConfirmHastens(f: Curve, r: Susp, who: Name, t: Time)
    requires IsCurve(f) && r.min <= r.max && TimerInv(f, r) && Hastens(f, r, who)
    ensures var r' := Confirm(f, r, who, t);
            r'.timer == Fired(t) || (r'.timer.Pending? && r'.timer.due < r.timer.due)
  {
    ConfirmationShortens(f, r.n, r.k, r.min, r.max);
    assert TimeoutAt(f, r.n + 1, r.k, r.min, r.max) == TimeoutFor(f, r.n + 1, r.k, r.min, r.max);
  }

  /** At any point of a run such a confirmation fires the timer, or moves the firing time strictly earlier. */
  lemma ConfirmationHastens(f: Curve, from: Name, k: int, min: Duration, max: Duration, change: Time, now: Time,
                            ops: seq<Op>, who: Name, t: Time)
    requires IsCurve(f) && min <= max && Hastens(f, Run(f, New(from, k, min, max, change, now), ops), who)
    ensures var s := New(from, k, min, max, change, now);
            var r, r' := Run(f, s, ops), Run(f, s, ops + [Confirmed(who, t)]);
            r'.timer == Fired(t) || (r'.timer.Pending? && r'.timer.due < r.timer.due)
  {
    var s := New(from, k, min, max, change, now);
    assert (ops + [Confirmed(who, t)])[..|ops|] == ops;
    RunCounts(f, s, from, ops);
    RunKeepsTimer(f, from, k, min, max, change, now, ops);
    ConfirmHastens(f, Run(f, s, ops), who, t);
  }

  lemma {:induction false} CountGrows(f: Curve, s: Susp, ops: seq<Op>, i: nat)
    requires i <= |ops|
    ensures Run(f, s, ops[..i]).n <= Run(f, s, ops).n
  {
    if i == |ops| {
      assert ops[..i] == ops;
    } else {
      var p := ops[..|ops| - 1];
      assert p[..i] == ops[..i];
      CountGrows(f, s, p, i);
    }
  }

  /** The firing time never moves later. */
  lemma FiringTimeNeverLater(f: Curve, from: Name, k: int, min: Duration, max: Duration, change: Time, now: Time,
                             ops: seq<Op>, i: nat)
    requires IsCurve(f) && min <= max && i <= |ops|
    ensures var s := New(from, k, min, max, change, now);
            Run(f, s, ops[..i]).timer.Pending? && Run(f, s, ops).timer.Pending? ==>
              Run(f, s, ops).timer.due <= Run(f, s, ops[..i]).timer.due
  {
    var s := New(from, k, min, max, change, now);
    RunKeepsTimer(f, from, k, min, max, change, now, ops);
    RunKeepsTimer(f, from, k, min, max, change, now, ops[..i]);
    RunCounts(f, s, from, ops);
    RunCounts(f, s, from, ops[..i]);
    CountGrows(f, s, ops, i);
    TimeoutShrinks(f, Run(f, s, ops[..i]).n, Run(f, s, ops).n, k, min, max);
  }
}
