/**
 Whole runs of the broadcast queue: every submission is queued or finished once, and sent a bounded number of times.
 */
module BroadcastRuns {
  import opened Treap
  import opened BroadcastModel

  /** Queueing x removes y: the same non-empty name, or a plain entry that x's broadcast invalidates. */
  predicate Victim(x: LimitedBroadcast, invalidates: Broadcast -> bool, y: Item) {
    if x.name != "" then y.node.name == x.name
    else !x.b.kind.Unique? && y.node.b.kind.Plain? && invalidates(y.node.b)
  }

  function Victims(es: seq<Item>, x: LimitedBroadcast, invalidates: Broadcast -> bool): seq<Item> {
    if es == [] then []
    else if Victim(x, invalidates, es[0]) then [es[0]] + Victims(es[1..], x, invalidates)
    else Victims(es[1..], x, invalidates)
  }

  function Survivors(es: seq<Item>, x: LimitedBroadcast, invalidates: Broadcast -> bool): seq<Item> {
    if es == [] then []
    else if Victim(x, invalidates, es[0]) then Survivors(es[1..], x, invalidates)
    else [es[0]] + Survivors(es[1..], x, invalidates)
  }

  /** queueBroadcast */
  function Submit(q: Queue, x: LimitedBroadcast, transmits: int, invalidates: Broadcast -> bool): Queue {
    q.(items := Place(Survivors(q.items, x, invalidates), Item(x, transmits)),
       idGen := q.idGen + 1,
       submitted := q.submitted + {x},
       finished := q.finished + Bag(Victims(q.items, x, invalidates)))
  }

  /** GetBroadcasts */
  function Get(q: Queue, c: Call, tlimit: int): Queue {
    var r := Outcome(c, q.items);
    q.(items := PlaceAll(r.1, Bumped(r.0, tlimit)),
       finished := q.finished + Bag(Retired(r.0, tlimit)),
       sent := q.sent + Bag(r.0))
  }

  /** Prune */
  function Prune(q: Queue, keep: nat): Queue {
    if |q.items| <= keep then q else q.(items := q.items[..keep], finished := q.finished + Bag(q.items[keep..]))
  }

  /** Reset */
  function Reset(q: Queue): Queue {
    q.(items := [], idGen := 0, finished := q.finished + Bag(q.items))
  }

  datatype Step =
    | DoSubmit(x: LimitedBroadcast, transmits: nat, invalidates: Broadcast -> bool)
    | DoGet(c: Call, tlimit: int)
    | DoPrune(keep: nat)
    | DoReset

  /** A submission makes a new entry, stamped with the next id and named when the broadcast is. */
  predicate NewEntry(q: Queue, x: LimitedBroadcast) {
    x !in q.submitted && x.id == q.idGen + 1 && x.name == if x.b.kind.Named? then x.b.name else ""
  }

  predicate Enabled(q: Queue, s: Step) { s.DoSubmit? ==> NewEntry(q, s.x) }

  function Next(q: Queue, s: Step): Queue {
    match s
    case DoSubmit(x, transmits, invalidates) => Submit(q, x, transmits, invalidates)
    case DoGet(c, tlimit) => Get(q, c, tlimit)
    case DoPrune(keep) => Prune(q, keep)
    case DoReset => Reset(q)
  }

  ghost predicate IsRun(qs: seq<Queue>, steps: seq<Step>) {
    && |qs| == |steps| + 1 && qs[0] == Empty
    && forall i :: 0 <= i < |steps| ==> Enabled(qs[i], steps[i]) && qs[i + 1] == Next(qs[i], steps[i])
  }

  ghost predicate Inv(q: Queue) {
    && Sorted(q.items) && Proper(Bag(q.items)) && 0 <= q.idGen
    && (forall n :: n in Bag(q.items) ==> 0 < n.id <= q.idGen)
    && Bag(q.items) + q.finished == multiset(q.submitted)
    && forall n :: n in q.sent ==> n in q.submitted
  }

  lemma {:induction false} VictimsSplit(es: seq<Item>, x: LimitedBroadcast, invalidates: Broadcast -> bool)
    ensures Bag(es) == Bag(Survivors(es, x, invalidates)) + Bag(Victims(es, x, invalidates))
  {
    if es != [] {
      VictimsSplit(es[1..], x, invalidates);
      BagConcat([es[0]], Survivors(es[1..], x, invalidates));
      BagConcat([es[0]], Victims(es[1..], x, invalidates));
    }
  }

  lemma {:induction false} SurvivorsKeep(es: seq<Item>, x: LimitedBroadcast, invalidates: Broadcast -> bool)
    requires Sorted(es)
    ensures var s := Survivors(es, x, invalidates);
            Sorted(s) && forall y :: y in s ==> y in es && !Victim(x, invalidates, y)
  {
    if es != [] {
      SurvivorsKeep(es[1..], x, invalidates);
      var s := Survivors(es[1..], x, invalidates);
      if s != [] {
        assert s[0] in es[1..];
      }
      PrependSorts(es[0], s);
    }
  }

  lemma QueuedWereSubmitted(q: Queue, n: LimitedBroadcast)
    requires Bag(q.items) + q.finished == multiset(q.submitted) && n in Bag(q.items)
    ensures n in q.submitted
  {
    assert (Bag(q.items) + q.finished)[n] == multiset(q.submitted)[n];
  }

  /** No survivor is, or shares an id or a name with, the new entry. */
  lemma SurvivorsApart(q: Queue, x: LimitedBroadcast, invalidates: Broadcast -> bool, n: LimitedBroadcast)
    requires Inv(q) && NewEntry(q, x) && n in Bag(Survivors(q.items, x, invalidates))
    ensures n in Bag(q.items) && n != x && n.id != x.id && (x.name != "" ==> n.name != x.name)
  {
    var s := Survivors(q.items, x, invalidates);
    VictimsSplit(q.items, x, invalidates);
    assert Bag(s)[n] <= Bag(q.items)[n];
    QueuedWereSubmitted(q, n);
    SurvivorsKeep(q.items, x, invalidates);
    BagHas(s, n);
  }

  lemma ProperAdd(b: multiset<LimitedBroadcast>, x: LimitedBroadcast)
    requires Proper(b) && forall n :: n in b ==> n != x && n.id != x.id && (x.name != "" ==> n.name != x.name)
    ensures Proper(b + multiset{x})
  {
  }

  /** The survivors and the new entry make a proper, sorted queue. */
  lemma SubmitPlaces(q: Queue, x: LimitedBroadcast, transmits: int, invalidates: Broadcast -> bool)
    requires Inv(q) && NewEntry(q, x)
    ensures var s := Survivors(q.items, x, invalidates); var p := Submit(q, x, transmits, invalidates);
            && Sorted(p.items) && Proper(Bag(p.items)) && Bag(p.items) == Bag(s) + multiset{x}
            && forall n :: n in Bag(s) ==> n in Bag(q.items)
  {
    var s := Survivors(q.items, x, invalidates);
    VictimsSplit(q.items, x, invalidates);
    SurvivorsKeep(q.items, x, invalidates);
    ProperPart(Bag(s), Bag(q.items));
    forall n | n in Bag(s) ensures n in Bag(q.items) && n != x && n.id != x.id && (x.name != "" ==> n.name != x.name) {
      SurvivorsApart(q, x, invalidates, n);
    }
    ProperAdd(Bag(s), x);
    PlaceKeeps(s, Item(x, transmits));
  }

  lemma SubmitConserves(q: Queue, x: LimitedBroadcast, transmits: int, invalidates: Broadcast -> bool)
    requires Bag(q.items) + q.finished == multiset(q.submitted) && x !in q.submitted
    ensures var p := Submit(q, x, transmits, invalidates); Bag(p.items) + p.finished == multiset(p.submitted)
  {
    VictimsSplit(q.items, x, invalidates);
    BagPlace(Survivors(q.items, x, invalidates), Item(x, transmits));
    SubmittedOneMore(q.submitted, x);
    MoveVictims(Bag(Survivors(q.items, x, invalidates)), Bag(Victims(q.items, x, invalidates)), q.finished,
                multiset{x});
  }

  lemma SubmittedOneMore(s: set<LimitedBroadcast>, x: LimitedBroadcast)
    requires x !in s
    ensures multiset(s + {x}) == multiset(s) + multiset{x}
  {
  }

  lemma MoveVictims<T>(s: multiset<T>, v: multiset<T>, f: multiset<T>, x: multiset<T>)
    ensures (s + x) + (f + v) == ((s + v) + f) + x
  {
  }

  lemma SubmitKeepsInv(q: Queue, x: LimitedBroadcast, transmits: int, invalidates: Broadcast -> bool)
    requires Inv(q) && NewEntry(q, x)
    ensures Inv(Submit(q, x, transmits, invalidates))
  {
    SubmitPlaces(q, x, transmits, invalidates);
    SubmitConserves(q, x, transmits, invalidates);
  }

  lemma GetKeepsInv(q: Queue, c: Call, tlimit: int)
    requires Inv(q)
    ensures Inv(Get(q, c, tlimit))
  {
    var r := Outcome(c, q.items);
    FillShares(c, q.items, Lowest(q.items), Highest(q.items), 0);
    BumpedOrRetired(r.0, tlimit);
    ProperPart(Bag(r.1) + Bag(Bumped(r.0, tlimit)), Bag(q.items));
    PlaceAllKeeps(r.1, Bumped(r.0, tlimit));
    assert forall n :: n in Bag(r.0) ==> n in multiset(q.submitted);
  }

  lemma PruneKeepsInv(q: Queue, keep: nat)
    requires Inv(q)
    ensures Inv(Prune(q, keep))
  {
    if |q.items| > keep {
      assert q.items == q.items[..keep] + q.items[keep..];
      BagConcat(q.items[..keep], q.items[keep..]);
      ProperPart(Bag(q.items[..keep]), Bag(q.items));
    }
  }

  lemma StepKeepsInv(q: Queue, s: Step)
    requires Inv(q) && Enabled(q, s)
    ensures Inv(Next(q, s))
  {
    match s
    case DoSubmit(x, transmits, invalidates) => SubmitKeepsInv(q, x, transmits, invalidates);
    case DoGet(c, tlimit) => GetKeepsInv(q, c, tlimit);
    case DoPrune(keep) => PruneKeepsInv(q, keep);
    case DoReset =>
  }

  lemma {:induction false} RunsKeepInv(qs: seq<Queue>, steps: seq<Step>, i: nat)
    requires IsRun(qs, steps) && i <= |steps|
    ensures Inv(qs[i])
  {
    if i > 0 {
      RunsKeepInv(qs, steps, i - 1);
      StepKeepsInv(qs[i - 1], steps[i - 1]);
    }
  }

  /** Conservation: every submission is queued, or has had Finished called, exactly once. */
  lemma EachQueuedOrFinishedOnce(qs: seq<Queue>, steps: seq<Step>, i: nat, n: LimitedBroadcast)
    requires IsRun(qs, steps) && i <= |steps|
    ensures Bag(qs[i].items)[n] + qs[i].finished[n] == if n in qs[i].submitted then 1 else 0
  {
    RunsKeepInv(qs, steps, i);
    assert (Bag(qs[i].items) + qs[i].finished)[n] == multiset(qs[i].submitted)[n];
  }

  /** A non-empty name is queued at most once. */
  lemma NamesAreUnique(qs: seq<Queue>, steps: seq<Step>, i: nat, j: nat, k: nat)
    requires IsRun(qs, steps) && i <= |steps| && j < k < |qs[i].items|
    ensures qs[i].items[j].node.name != "" ==> qs[i].items[j].node.name != qs[i].items[k].node.name
  {
    RunsKeepInv(qs, steps, i);
    var es := qs[i].items;
    BagCut(es, k);
    BagHas(es, es[k].node);
    assert es[j] == Cut(es, k)[j];
    BagHas(Cut(es, k), es[j].node);
    BagHas(es, es[j].node);
    assert Bag(es)[es[j].node] == 1;
  }

  // Which entries are where.

  /** Sent less often, or as often and longer, or of the same length and newer. */
  predicate Precedes(a: Item, b: Item) {
    || a.transmits < b.transmits
    || (a.transmits == b.transmits &&
        (a.node.msgLen > b.node.msgLen || (a.node.msgLen == b.node.msgLen && a.node.id > b.node.id)))
  }

  /** The queue is in order of precedence throughout a run. */
  lemma QueueIsOrdered(qs: seq<Queue>, steps: seq<Step>, i: nat, j: nat, k: nat)
    requires IsRun(qs, steps) && i <= |steps| && j < k < |qs[i].items|
    ensures Precedes(qs[i].items[j], qs[i].items[k])
  {
    RunsKeepInv(qs, steps, i);
    assert Before(qs[i].items[j], qs[i].items[k]);
  }

  /** The new broadcast replaces y: its namesake, or for a plain one without a name a plain one it invalidates. */
  predicate Supersedes(x: Broadcast, invalidates: Broadcast -> bool, y: LimitedBroadcast) {
    if x.kind.Named? && x.name != "" then y.name == x.name
    else (x.kind.Plain? || x.kind.Named?) && y.b.kind.Plain? && invalidates(y.b)
  }

  lemma {:induction false} SurvivorsAre(es: seq<Item>, x: LimitedBroadcast, invalidates: Broadcast -> bool, y: Item)
    ensures y in Survivors(es, x, invalidates) <==> y in es && !Victim(x, invalidates, y)
  {
    if es != [] {
      SurvivorsAre(es[1..], x, invalidates, y);
      assert y in es <==> y == es[0] || y in es[1..];
    }
  }

  lemma {:induction false} PlacedAre(es: seq<Item>, x: Item, y: Item)
    ensures y in Place(es, x) <==> y == x || y in es
  {
    if es != [] {
      PlacedAre(es[1..], x, y);
      assert y in es <==> y == es[0] || y in es[1..];
    }
  }

  /** A submission removes exactly what it supersedes, and nothing else goes or changes. */
  lemma SubmissionSupersedes(qs: seq<Queue>, steps: seq<Step>, i: nat, y: Item)
    requires IsRun(qs, steps) && i < |steps| && steps[i].DoSubmit?
    ensures var x := steps[i].x;
            y in qs[i + 1].items <==>
              y == Item(x, steps[i].transmits) || (y in qs[i].items && !Supersedes(x.b, steps[i].invalidates, y.node))
  {
    var x := steps[i].x;
    SurvivorsAre(qs[i].items, x, steps[i].invalidates, y);
    PlacedAre(Survivors(qs[i].items, x, steps[i].invalidates), Item(x, steps[i].transmits), y);
    assert qs[i + 1] == Next(qs[i], steps[i]) && Enabled(qs[i], steps[i]);
  }

  /** Pruning keeps the given number of entries, if there are that many: those that precede all it drops. */
  lemma PruneDropsTheLast(qs: seq<Queue>, steps: seq<Step>, i: nat, y: Item, z: Item)
    requires IsRun(qs, steps) && i < |steps| && steps[i].DoPrune?
    requires y in qs[i + 1].items && z in qs[i].items && z !in qs[i + 1].items
    ensures Precedes(y, z) && y in qs[i].items
    ensures |qs[i + 1].items| == steps[i].keep < |qs[i].items|
  {
    assert qs[i + 1] == Next(qs[i], steps[i]);
    var es, keep := qs[i].items, steps[i].keep;
    var j :| 0 <= j < keep && es[j] == y;
    var k :| 0 <= k < |es| && es[k] == z;
    assert z !in es[..keep];
    QueueIsOrdered(qs, steps, i, j, k);
  }

  // The transmit bound.

  ghost predicate SendInv(q: Queue, max: int) {
    && (forall x :: x in q.items ==> q.sent[x.node] <= x.transmits && (q.sent[x.node] > 0 ==> x.transmits < max))
    && forall n :: n in q.sent ==> q.sent[n] <= if max < 1 then 1 else max
  }

  ghost predicate LimitsAtMost(steps: seq<Step>, max: int) {
    forall i :: 0 <= i < |steps| && steps[i].DoGet? ==> steps[i].tlimit <= max
  }

  lemma SubmitItems(q: Queue, x: LimitedBroadcast, transmits: int, invalidates: Broadcast -> bool, y: Item)
    requires Inv(q) && NewEntry(q, x) && y in Submit(q, x, transmits, invalidates).items
    ensures y == Item(x, transmits) || y in q.items
  {
    var s := Survivors(q.items, x, invalidates);
    SurvivorsKeep(q.items, x, invalidates);
    VictimsSplit(q.items, x, invalidates);
    ProperPart(Bag(s), Bag(q.items));
    forall n | n in Bag(s) ensures n != x && n.id != x.id && (x.name != "" ==> n.name != x.name) {
      SurvivorsApart(q, x, invalidates, n);
    }
    ProperAdd(Bag(s), x);
    PlaceKeeps(s, Item(x, transmits));
  }

  lemma SubmitBounded(q: Queue, x: LimitedBroadcast, transmits: nat, invalidates: Broadcast -> bool, max: int)
    requires Inv(q) && NewEntry(q, x) && SendInv(q, max)
    ensures SendInv(Submit(q, x, transmits, invalidates), max)
  {
    var p := Submit(q, x, transmits, invalidates);
    forall y | y in p.items ensures p.sent[y.node] <= y.transmits && (p.sent[y.node] > 0 ==> y.transmits < max) {
      SubmitItems(q, x, transmits, invalidates, y);
    }
  }

  /** One call sends a queued entry at most once, and nothing else. */
  lemma SentOnce(q: Queue, c: Call, n: LimitedBroadcast)
    requires Inv(q)
    ensures var r := Outcome(c, q.items); Bag(r.0)[n] + Bag(r.1)[n] == Bag(q.items)[n] <= 1
  {
    FillShares(c, q.items, Lowest(q.items), Highest(q.items), 0);
    var r := Outcome(c, q.items);
    assert (Bag(r.0) + Bag(r.1))[n] == Bag(q.items)[n];
  }

  /** After a call an entry is one it left alone, or one it sent and moved one tier up, still under the limit. */
  lemma GetItems(q: Queue, c: Call, tlimit: int, x: Item)
    requires Inv(q) && x in Get(q, c, tlimit).items
    ensures var times := Get(q, c, tlimit).sent[x.node] - q.sent[x.node];
            || (times == 0 && x in q.items)
            || (times == 1 && x.transmits < tlimit && Item(x.node, x.transmits - 1) in q.items)
  {
    var r := Outcome(c, q.items);
    FillShares(c, q.items, Lowest(q.items), Highest(q.items), 0);
    BumpedOrRetired(r.0, tlimit);
    ProperPart(Bag(r.1) + Bag(Bumped(r.0, tlimit)), Bag(q.items));
    PlaceAllKeeps(r.1, Bumped(r.0, tlimit));
    SentOnce(q, c, x.node);
    BagHas(r.0, x.node);
    if x in r.1 {
      BagHas(r.1, x.node);
    } else {
      BumpedBelowLimit(r.0, tlimit, x);
    }
  }

  lemma GetBounded(q: Queue, c: Call, tlimit: int, max: int)
    requires Inv(q) && SendInv(q, max) && tlimit <= max
    ensures SendInv(Get(q, c, tlimit), max)
  {
    var p := Get(q, c, tlimit);
    var r := Outcome(c, q.items);
    forall x | x in p.items ensures p.sent[x.node] <= x.transmits && (p.sent[x.node] > 0 ==> x.transmits < max) {
      GetItems(q, c, tlimit, x);
    }
    forall n | n in p.sent ensures p.sent[n] <= if max < 1 then 1 else max {
      SentOnce(q, c, n);
      BagHas(q.items, n);
    }
  }

  lemma StepBounded(q: Queue, s: Step, max: int)
    requires Inv(q) && Enabled(q, s) && SendInv(q, max) && (s.DoGet? ==> s.tlimit <= max)
    ensures SendInv(Next(q, s), max)
  {
    match s
    case DoSubmit(x, transmits, invalidates) => SubmitBounded(q, x, transmits, invalidates, max);
    case DoGet(c, tlimit) => GetBounded(q, c, tlimit, max);
    case DoPrune(keep) =>
    case DoReset =>
  }

  lemma {:induction false} RunsBounded(qs: seq<Queue>, steps: seq<Step>, i: nat, max: int)
    requires IsRun(qs, steps) && i <= |steps| && LimitsAtMost(steps, max)
    ensures SendInv(qs[i], max)
  {
    if i > 0 {
      RunsBounded(qs, steps, i - 1, max);
      RunsKeepInv(qs, steps, i - 1);
      StepBounded(qs[i - 1], steps[i - 1], max);
    }
  }

  /** With every retransmit limit at most max, no submission is sent more than max(1, max) times. */
  lemma SendsAreBounded(qs: seq<Queue>, steps: seq<Step>, i: nat, max: int, n: LimitedBroadcast)
    requires IsRun(qs, steps) && i <= |steps| && LimitsAtMost(steps, max)
    ensures qs[i].sent[n] <= if max < 1 then 1 else max
  {
    RunsBounded(qs, steps, i, max);
  }

  // The exact number of sends.

  /** Submitted fresh: while n is queued its transmit count is the number of times it was sent, below the limit. */
  ghost predicate Counted(q: Queue, n: LimitedBroadcast, tlimit: int) {
    forall x :: x in q.items && x.node == n ==>
        x.transmits == q.sent[n] && (x.transmits == 0 || x.transmits < tlimit)
  }

  lemma FreshIsCounted(q: Queue, x: LimitedBroadcast, invalidates: Broadcast -> bool, tlimit: int)
    requires Inv(q) && NewEntry(q, x)
    ensures Counted(Submit(q, x, 0, invalidates), x, tlimit)
  {
    var p := Submit(q, x, 0, invalidates);
    forall y | y in p.items && y.node == x ensures y.transmits == 0 == p.sent[x] {
      SubmitItems(q, x, 0, invalidates, y);
      if y in q.items {
        BagHas(q.items, x);
        QueuedWereSubmitted(q, x);
      }
    }
  }

  lemma StepCounts(q: Queue, s: Step, n: LimitedBroadcast, tlimit: int)
    requires Inv(q) && Enabled(q, s) && Counted(q, n, tlimit) && n in q.submitted && (s.DoGet? ==> s.tlimit == tlimit)
    ensures Counted(Next(q, s), n, tlimit) && n in Next(q, s).submitted
  {
    match s
    case DoSubmit(x, transmits, invalidates) =>
      forall y | y in Next(q, s).items && y.node == n ensures y in q.items {
        SubmitItems(q, x, transmits, invalidates, y);
      }
    case DoGet(c, limit) =>
      forall y | y in Next(q, s).items && y.node == n
        ensures y.transmits == Next(q, s).sent[n] && (y.transmits == 0 || y.transmits < tlimit)
      {
        GetItems(q, c, limit, y);
      }
    case DoPrune(keep) =>
    case DoReset =>
  }

  lemma {:induction false} RetiredAtLimit(es: seq<Item>, tlimit: int, x: Item)
    requires x in Retired(es, tlimit)
    ensures x in es && x.transmits + 1 >= tlimit
  {
    if x in Retired(es[1..], tlimit) {
      RetiredAtLimit(es[1..], tlimit, x);
    }
  }

  /** A call drops only entries it has just sent, at their limit, and finishes them. */
  lemma GetDrops(q: Queue, c: Call, tlimit: int, n: LimitedBroadcast) returns (x: Item)
    requires Inv(q) && n in Bag(q.items) && n !in Bag(Get(q, c, tlimit).items)
    ensures x in q.items && x.node == n && x.transmits + 1 >= tlimit
    ensures Get(q, c, tlimit).sent[n] == q.sent[n] + 1 && Get(q, c, tlimit).finished[n] == q.finished[n] + 1
  {
    var r := Outcome(c, q.items);
    FillShares(c, q.items, Lowest(q.items), Highest(q.items), 0);
    BumpedOrRetired(r.0, tlimit);
    ProperPart(Bag(r.1) + Bag(Bumped(r.0, tlimit)), Bag(q.items));
    PlaceAllKeeps(r.1, Bumped(r.0, tlimit));
    SentOnce(q, c, n);
    var retired := Retired(r.0, tlimit);
    assert Bag(r.0)[n] == Bag(Bumped(r.0, tlimit))[n] + Bag(retired)[n] == 1;
    BagHas(retired, n);
    x :| x in retired && x.node == n;
    RetiredAtLimit(r.0, tlimit, x);
  }

  lemma {:induction false} RunCounts(qs: seq<Queue>, steps: seq<Step>, i: nat, j: nat, tlimit: int)
    requires IsRun(qs, steps) && i < j <= |steps| && steps[i].DoSubmit? && steps[i].transmits == 0
    requires forall k :: i < k < j && steps[k].DoGet? ==> steps[k].tlimit == tlimit
    ensures Counted(qs[j], steps[i].x, tlimit) && steps[i].x in qs[j].submitted
  {
    if j == i + 1 {
      RunsKeepInv(qs, steps, i);
      FreshIsCounted(qs[i], steps[i].x, steps[i].invalidates, tlimit);
    } else {
      RunCounts(qs, steps, i, j - 1, tlimit);
      RunsKeepInv(qs, steps, j - 1);
      StepCounts(qs[j - 1], steps[j - 1], steps[i].x, tlimit);
    }
  }

  /**
   Under a constant retransmit limit L an entry submitted at i that leaves the
   queue at j by being sent, neither invalidated nor pruned nor reset, has been
   sent exactly max(1, L) times, and finishes with that; as long as it is queued
   it has been sent fewer times.
   */
  lemma SendsAreExact(qs: seq<Queue>, steps: seq<Step>, i: nat, j: nat, tlimit: int)
    requires IsRun(qs, steps) && i < j < |steps| && steps[i].DoSubmit? && steps[i].transmits == 0
    requires forall k :: i < k <= j && steps[k].DoGet? ==> steps[k].tlimit == tlimit
    requires steps[i].x in Bag(qs[j].items)
    ensures var n, most := steps[i].x, if tlimit < 1 then 1 else tlimit;
            && qs[j].sent[n] < most && qs[j].finished[n] == 0
            && (steps[j].DoGet? && n !in Bag(qs[j + 1].items) ==>
                  qs[j + 1].sent[n] == most && qs[j + 1].finished[n] == 1)
  {
    var n := steps[i].x;
    RunCounts(qs, steps, i, j, tlimit);
    RunsKeepInv(qs, steps, j);
    BagHas(qs[j].items, n);
    EachQueuedOrFinishedOnce(qs, steps, j, n);
    if steps[j].DoGet? && n !in Bag(qs[j + 1].items) {
      var x := GetDrops(qs[j], steps[j].c, tlimit, n);
    }
  }

  /**
   In every reachable queue, with lengths as recorded, a call hands out what the greedy pass takes and leaves the
   rest.
   */
  lemma CallsAreGreedy(qs: seq<Queue>, steps: seq<Step>, i: nat, c: Call)
    requires IsRun(qs, steps) && i <= |steps| && qs[i].idGen <= MaxInt64
    requires c.overhead >= 0 && forall x :: x in qs[i].items ==> c.Size(x) == x.node.msgLen
    ensures Outcome(c, qs[i].items) == Greedy(c, qs[i].items, 0)
  {
    RunsKeepInv(qs, steps, i);
    forall x | x in qs[i].items ensures x.node.id <= MaxInt64 {
      BagHas(qs[i].items, x.node);
    }
    OutcomeIsGreedy(c, qs[i].items);
    ScanIsGreedy(c, qs[i].items, 0);
  }
}
