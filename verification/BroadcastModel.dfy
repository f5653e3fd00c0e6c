/**
 * TransmitLimitedQueue on values: the queue is the sorted sequence of its entries. An entry's node is its
 * identity, so the history fields say what became of every submission.
 */
module BroadcastModel {
  import opened Base
  import opened Treap

  /** submitted: every entry ever queued; finished: the Finished calls; sent: the times an entry was handed out. */
  datatype Queue = Queue(items: seq<Item>, idGen: int, submitted: set<LimitedBroadcast>,
                         finished: multiset<LimitedBroadcast>, sent: multiset<LimitedBroadcast>)

  const Empty := Queue([], 0, {}, multiset{}, multiset{})

  const MaxInt64: int := 0x7fff_ffff_ffff_ffff

  function Bag(es: seq<Item>): multiset<LimitedBroadcast> {
    if es == [] then multiset{} else multiset{es[0].node} + Bag(es[1..])
  }

  lemma {:induction false} BagConcat(a: seq<Item>, b: seq<Item>)
    ensures Bag(a + b) == Bag(a) + Bag(b)
  {
    if a == [] {
      assert a + b == b;
    } else {
      assert (a + b)[1..] == a[1..] + b;
      BagConcat(a[1..], b);
    }
  }

  lemma {:induction false} BagHas(es: seq<Item>, n: LimitedBroadcast)
    ensures n in Bag(es) <==> exists x :: x in es && x.node == n
  {
    if es != [] {
      BagHas(es[1..], n);
      assert forall x :: x in es <==> x == es[0] || x in es[1..];
    }
  }

  lemma BagCut(es: seq<Item>, i: nat)
    requires i < |es|
    ensures Bag(es) == Bag(Cut(es, i)) + multiset{es[i].node}
  {
    BagConcat(es[..i], es[i..]);
    BagConcat(es[..i], es[i + 1..]);
    assert es == es[..i] + es[i..] && es[i..][1..] == es[i + 1..];
  }

  lemma {:induction false} BagPlace(es: seq<Item>, x: Item)
    ensures Bag(Place(es, x)) == Bag(es) + multiset{x.node}
  {
    if es != [] && Before(es[0], x) {
      BagPlace(es[1..], x);
      assert ([es[0]] + Place(es[1..], x))[1..] == Place(es[1..], x);
    } else {
      assert ([x] + es)[1..] == es;
    }
  }

  // GetBroadcasts.

  /** One call: the answers of Message(), the overhead per message and the byte limit. */
  datatype Call = Call(message: Broadcast -> Bytes, overhead: int, limit: int) {
    function Size(x: Item): nat { |message(x.node.b)| }
    function Free(used: int): int { limit - used - overhead }
    /** The entry fits by its recorded length and by its length now. */
    predicate Fits(x: Item, used: int) { x.node.msgLen <= Free(used) && Size(x) <= Free(used) && 0 < Free(used) }
    function Probe(tier: int, used: int): Key { Key(tier, Free(used), MaxInt64) }
    /** The searches of one round pass over x: before the probe, or on the tier but too long now. */
    predicate Passes(x: Item, tier: int, used: int) {
      Less(x.AsKey(), Probe(tier, used)) || (x.transmits == tier && Size(x) > Free(used))
    }
  }

  /** The index of the entry a round stops at. */
  function Pick(c: Call, es: seq<Item>, tier: int, used: int): (i: nat)
    ensures i <= |es| && (forall j :: 0 <= j < i ==> c.Passes(es[j], tier, used))
    ensures i < |es| ==> !c.Passes(es[i], tier, used)
  {
    if es == [] || !c.Passes(es[0], tier, used) then 0 else 1 + Pick(c, es[1..], tier, used)
  }

  /** The tier loop: what it hands out, in order, and what it leaves. */
  function Fill(c: Call, es: seq<Item>, tier: int, maxTr: int, used: int): (r: (seq<Item>, seq<Item>))
    decreases |es|, maxTr - tier + 1
  {
    if tier > maxTr || c.Free(used) <= 0 then ([], es)
    else
      var i := Pick(c, es, tier, used);
      if i < |es| && es[i].transmits == tier then
        var r := Fill(c, Cut(es, i), tier, maxTr, used + c.overhead + c.Size(es[i]));
        ([es[i]] + r.0, r.1)
      else Fill(c, es, tier + 1, maxTr, used)
  }

  /** One greedy pass over the sorted queue: take each entry that fits in what is left. */
  function Scan(c: Call, es: seq<Item>, used: int): (seq<Item>, seq<Item>) {
    if es == [] then ([], [])
    else if c.Fits(es[0], used) then
      var r := Scan(c, es[1..], used + c.overhead + c.Size(es[0]));
      ([es[0]] + r.0, r.1)
    else
      var r := Scan(c, es[1..], used);
      (r.0, [es[0]] + r.1)
  }

  lemma {:induction false} ScanSkips(c: Call, a: seq<Item>, b: seq<Item>, used: int)
    requires forall x :: x in a ==> !c.Fits(x, used)
    ensures Scan(c, a + b, used) == (Scan(c, b, used).0, a + Scan(c, b, used).1)
  {
    if a == [] {
      assert a + b == b;
      assert a + Scan(c, b, used).1 == Scan(c, b, used).1;
    } else {
      assert (a + b)[1..] == a[1..] + b && a[0] in a;
      ScanSkips(c, a[1..], b, used);
      assert [a[0]] + (a[1..] + Scan(c, b, used).1) == a + Scan(c, b, used).1;
    }
  }

  /** Where the tier loop stands: entries before p were passed for good, entries from p on are of this tier or later. */
  ghost predicate Swept(c: Call, es: seq<Item>, p: nat, tier: int, maxTr: int, used: int) {
    && p <= |es| && Sorted(es) && (forall x :: x in es ==> x.node.id <= MaxInt64)
    && (forall i :: 0 <= i < p ==> es[i].transmits < tier || !c.Fits(es[i], used))
    && (forall i :: 0 <= i < p ==> es[i].transmits <= tier)
    && forall i :: p <= i < |es| ==> tier <= es[i].transmits <= maxTr
  }

  /** From such a point the round moves past unfit entries only. */
  lemma PickMoves(c: Call, es: seq<Item>, p: nat, tier: int, maxTr: int, used: int)
    requires Swept(c, es, p, tier, maxTr, used) && tier <= maxTr && 0 < c.Free(used)
    ensures var i := Pick(c, es, tier, used);
            && p <= i && (forall j :: p <= j < i ==> es[j].transmits == tier && !c.Fits(es[j], used))
            && (i < |es| ==> tier <= es[i].transmits && (es[i].transmits == tier ==> c.Fits(es[i], used)))
  {
  }

  lemma SweptAfterTake(c: Call, es: seq<Item>, p: nat, tier: int, maxTr: int, used: int)
    requires c.overhead >= 0 && Swept(c, es, p, tier, maxTr, used) && tier <= maxTr && 0 < c.Free(used)
    requires var i := Pick(c, es, tier, used); i < |es| && es[i].transmits == tier
    ensures var i := Pick(c, es, tier, used); Swept(c, Cut(es, i), i, tier, maxTr, used + c.overhead + c.Size(es[i]))
  {
  }

  lemma SweptAfterTier(c: Call, es: seq<Item>, p: nat, tier: int, maxTr: int, used: int)
    requires Swept(c, es, p, tier, maxTr, used) && tier <= maxTr && 0 < c.Free(used)
    requires var i := Pick(c, es, tier, used); i < |es| ==> es[i].transmits != tier
    ensures Swept(c, es, Pick(c, es, tier, used), tier + 1, maxTr, used)
  {
  }

  /** The pass over es[p..], whose entries before i do not fit. */
  lemma ScanSkipsTo(c: Call, es: seq<Item>, p: nat, i: nat, used: int)
    requires p <= i <= |es| && forall j :: p <= j < i ==> !c.Fits(es[j], used)
    ensures var r := Scan(c, es[i..], used);
            Scan(c, es[p..], used).0 == r.0 && es[..p] + Scan(c, es[p..], used).1 == es[..i] + r.1
  {
    assert es[p..] == es[p..i] + es[i..] && es[..i] == es[..p] + es[p..i];
    ScanSkips(c, es[p..i], es[i..], used);
  }

  lemma ScanTakesAt(c: Call, es: seq<Item>, i: nat, more: int, used: int)
    requires i < |es| && c.Fits(es[i], used) && more == used + c.overhead + c.Size(es[i])
    ensures Scan(c, es[i..], used).0 == [es[i]] + Scan(c, Cut(es, i)[i..], more).0
    ensures Scan(c, es[i..], used).1 == Scan(c, Cut(es, i)[i..], more).1
    ensures Cut(es, i)[..i] == es[..i]
  {
  }

  /** The tier loop from es agrees with the pass over es[p..]. */
  ghost predicate Agrees(c: Call, es: seq<Item>, p: nat, tier: int, maxTr: int, used: int)
    requires p <= |es|
  {
    && Fill(c, es, tier, maxTr, used).0 == Scan(c, es[p..], used).0
    && Fill(c, es, tier, maxTr, used).1 == es[..p] + Scan(c, es[p..], used).1
  }

  lemma FillTakes(c: Call, es: seq<Item>, i: nat, tier: int, maxTr: int, used: int, more: int)
    requires tier <= maxTr && 0 < c.Free(used) && i < |es| && i == Pick(c, es, tier, used)
    requires es[i].transmits == tier && more == used + c.overhead + c.Size(es[i])
    ensures Fill(c, es, tier, maxTr, used).0 == [es[i]] + Fill(c, Cut(es, i), tier, maxTr, more).0
    ensures Fill(c, es, tier, maxTr, used).1 == Fill(c, Cut(es, i), tier, maxTr, more).1
  {
  }

  lemma AgreesAfterTake(c: Call, es: seq<Item>, p: nat, i: nat, tier: int, maxTr: int, used: int, more: int)
    requires tier <= maxTr && 0 < c.Free(used) && p <= i < |es| && i == Pick(c, es, tier, used)
    requires es[i].transmits == tier && c.Fits(es[i], used) && more == used + c.overhead + c.Size(es[i])
    requires forall j :: p <= j < i ==> !c.Fits(es[j], used)
    requires Agrees(c, Cut(es, i), i, tier, maxTr, more)
    ensures Agrees(c, es, p, tier, maxTr, used)
  {
    FillTakes(c, es, i, tier, maxTr, used, more);
    ScanTakesAt(c, es, i, more, used);
    ScanSkipsTo(c, es, p, i, used);
  }

  lemma AgreesAfterTier(c: Call, es: seq<Item>, p: nat, tier: int, maxTr: int, used: int)
    requires tier <= maxTr && 0 < c.Free(used) && p <= Pick(c, es, tier, used)
    requires Pick(c, es, tier, used) < |es| ==> es[Pick(c, es, tier, used)].transmits != tier
    requires forall j :: p <= j < Pick(c, es, tier, used) ==> !c.Fits(es[j], used)
    requires Agrees(c, es, Pick(c, es, tier, used), tier + 1, maxTr, used)
    ensures Agrees(c, es, p, tier, maxTr, used)
  {
    ScanSkipsTo(c, es, p, Pick(c, es, tier, used), used);
  }

  lemma AgreesAtEnd(c: Call, es: seq<Item>, p: nat, tier: int, maxTr: int, used: int)
    requires p <= |es| && (tier > maxTr || c.Free(used) <= 0) && (tier > maxTr ==> p == |es|)
    ensures Agrees(c, es, p, tier, maxTr, used)
  {
    ScanSkipsTo(c, es, p, |es|, used);
    assert es[..|es|] + [] == es;
  }

  /** The tier loop, started anywhere, is the rest of the greedy pass. */
  lemma {:induction false} FillIsScan(c: Call, es: seq<Item>, p: nat, tier: int, maxTr: int, used: int)
    requires c.overhead >= 0 && Swept(c, es, p, tier, maxTr, used)
    ensures Agrees(c, es, p, tier, maxTr, used)
    decreases |es|, maxTr - tier + 1
  {
    assert p < |es| ==> tier <= es[p].transmits <= maxTr;
    if tier > maxTr || c.Free(used) <= 0 {
      AgreesAtEnd(c, es, p, tier, maxTr, used);
    } else {
      PickMoves(c, es, p, tier, maxTr, used);
      var i := Pick(c, es, tier, used);
      if i < |es| && es[i].transmits == tier {
        var more := used + c.overhead + c.Size(es[i]);
        SweptAfterTake(c, es, p, tier, maxTr, used);
        FillIsScan(c, Cut(es, i), i, tier, maxTr, more);
        AgreesAfterTake(c, es, p, i, tier, maxTr, used, more);
      } else {
        SweptAfterTier(c, es, p, tier, maxTr, used);
        FillIsScan(c, es, i, tier + 1, maxTr, used);
        AgreesAfterTier(c, es, p, tier, maxTr, used);
      }
    }
  }

  /** t and l share out es, and l is still sorted. */
  ghost predicate Shares(es: seq<Item>, t: seq<Item>, l: seq<Item>) {
    Sorted(l) && Bag(t) + Bag(l) == Bag(es) && (forall x :: x in t ==> x in es) && forall x :: x in l ==> x in es
  }

  lemma SharesOne(es: seq<Item>, i: nat, t: seq<Item>, l: seq<Item>)
    requires i < |es| && Shares(Cut(es, i), t, l)
    ensures Shares(es, [es[i]] + t, l)
  {
    BagCut(es, i);
    assert ([es[i]] + t)[1..] == t;
    assert Bag([es[i]] + t) == multiset{es[i].node} + Bag(t);
    forall x | x in Cut(es, i) ensures x in es {
    }
  }

  /** The tier loop shares out the queue, whatever the overhead. */
  lemma {:induction false} FillShares(c: Call, es: seq<Item>, tier: int, maxTr: int, used: int)
    requires Sorted(es)
    ensures Shares(es, Fill(c, es, tier, maxTr, used).0, Fill(c, es, tier, maxTr, used).1)
    decreases |es|, maxTr - tier + 1
  {
    if tier <= maxTr && 0 < c.Free(used) {
      var i := Pick(c, es, tier, used);
      if i < |es| && es[i].transmits == tier {
        var more := used + c.overhead + c.Size(es[i]);
        FillTakes(c, es, i, tier, maxTr, used, more);
        FillShares(c, Cut(es, i), tier, maxTr, more);
        SharesOne(es, i, Fill(c, Cut(es, i), tier, maxTr, more).0, Fill(c, Cut(es, i), tier, maxTr, more).1);
      } else {
        FillShares(c, es, tier + 1, maxTr, used);
      }
    }
  }

  /** The room entries take, overhead included. */
  function Room(c: Call, es: seq<Item>): int {
    if es == [] then 0 else c.overhead + c.Size(es[0]) + Room(c, es[1..])
  }

  /** Whatever is handed out fits, with its overhead. Any overhead. */
  lemma {:induction false} FillWithinLimit(c: Call, es: seq<Item>, tier: int, maxTr: int, used: int)
    ensures var r := Fill(c, es, tier, maxTr, used); r.0 != [] ==> used + Room(c, r.0) <= c.limit
    decreases |es|, maxTr - tier + 1
  {
    if tier <= maxTr && 0 < c.Free(used) {
      var i := Pick(c, es, tier, used);
      if i < |es| && es[i].transmits == tier {
        var more := used + c.overhead + c.Size(es[i]);
        FillTakes(c, es, i, tier, maxTr, used, more);
        FillWithinLimit(c, Cut(es, i), tier, maxTr, more);
        assert ([es[i]] + Fill(c, Cut(es, i), tier, maxTr, more).0)[1..] == Fill(c, Cut(es, i), tier, maxTr, more).0;
      } else {
        FillWithinLimit(c, es, tier + 1, maxTr, used);
      }
    }
  }

  function Lowest(es: seq<Item>): int { if es == [] then 0 else es[0].transmits }

  function Highest(es: seq<Item>): int { if es == [] then 0 else es[|es| - 1].transmits }

  /** What one call hands out, and what it leaves in the treap while it runs. */
  function Outcome(c: Call, es: seq<Item>): (seq<Item>, seq<Item>) {
    Fill(c, es, Lowest(es), Highest(es), 0)
  }

  /** GetBroadcasts hands out exactly what one greedy pass over the sorted queue takes. */
  lemma OutcomeIsGreedy(c: Call, es: seq<Item>)
    requires c.overhead >= 0 && Sorted(es) && forall x :: x in es ==> x.node.id <= MaxInt64
    ensures Outcome(c, es) == Scan(c, es, 0)
  {
    forall i | 0 <= i < |es| ensures Lowest(es) <= es[i].transmits <= Highest(es) {
      assert i == 0 || Before(es[0], es[i]);
      assert i == |es| - 1 || Before(es[i], es[|es| - 1]);
    }
    FillIsScan(c, es, 0, Lowest(es), Highest(es), 0);
    assert es[0..] == es && es[..0] + Scan(c, es, 0).1 == Scan(c, es, 0).1;
  }

  /**
   * With a negative overhead every message handed out makes room, so the tier loop comes back to an entry it passed and
   * the greedy pass does not: whatever the overhead below zero, it fails on these two entries.
   */
  lemma NegativeOverheadComesBack(c: Call, a: Item, b: Item)
    requires c.overhead < 0 && c.limit == 1 && a.transmits == b.transmits == 0
    requires a.node.msgLen == c.Size(a) == 1 - 2 * c.overhead && b.node.msgLen == c.Size(b) == 0
    requires a.node.id <= MaxInt64 && b.node.id <= MaxInt64
    ensures Sorted([a, b]) && Outcome(c, [a, b]).0 == [b, a] && Scan(c, [a, b], 0).0 == [b]
  {
    var es := [a, b];
    assert es[..1] == [a] && es[2..] == [] && [a] + [] == [a] && Cut(es, 1) == [a];
    assert Pick(c, es[1..], 0, 0) == 0 && Pick(c, es, 0, 0) == 1;
    assert [a][..0] == [] && [a][1..] == [] && |Cut([a], 0)| == 0;
    assert Pick(c, [a], 0, c.overhead) == 0;
    FillTakes(c, es, 1, 0, 0, 0, c.overhead);
    FillTakes(c, [a], 0, 0, 0, c.overhead, 1);
    assert Fill(c, [], 0, 0, 1).0 == [];
    assert Fill(c, [a], 0, 0, c.overhead).0 == [a];
    assert es[1..] == [b] && [b][1..] == [] && Scan(c, [], c.overhead).0 == [];
    assert Scan(c, [b], 0).0 == [b];
  }

  /** One greedy pass by the messages alone: each that fits, while there is room. */
  function Greedy(c: Call, es: seq<Item>, used: int): (seq<Item>, seq<Item>) {
    if es == [] then ([], [])
    else if 0 < c.Free(used) && c.Size(es[0]) <= c.Free(used) then
      var r := Greedy(c, es[1..], used + c.overhead + c.Size(es[0]));
      ([es[0]] + r.0, r.1)
    else
      var r := Greedy(c, es[1..], used);
      (r.0, [es[0]] + r.1)
  }

  lemma {:induction false} ScanIsGreedy(c: Call, es: seq<Item>, used: int)
    requires forall x :: x in es ==> c.Size(x) == x.node.msgLen
    ensures Scan(c, es, used) == Greedy(c, es, used)
  {
    if es != [] {
      assert es[0] in es;
      ScanIsGreedy(c, es[1..], used);
      ScanIsGreedy(c, es[1..], used + c.overhead + c.Size(es[0]));
    }
  }

  /** No call exceeds its limit, whatever the overhead. */
  lemma OutcomeWithinLimit(c: Call, es: seq<Item>)
    ensures Outcome(c, es).0 != [] ==> Room(c, Outcome(c, es).0) <= c.limit
  {
    FillWithinLimit(c, es, Lowest(es), Highest(es), 0);
  }

  /** Entries that reach the limit retire; the others come back one tier later. */
  function Bumped(es: seq<Item>, tlimit: int): seq<Item> {
    if es == [] then []
    else if es[0].transmits + 1 >= tlimit then Bumped(es[1..], tlimit)
    else [Item(es[0].node, es[0].transmits + 1)] + Bumped(es[1..], tlimit)
  }

  function Retired(es: seq<Item>, tlimit: int): seq<Item> {
    if es == [] then []
    else if es[0].transmits + 1 >= tlimit then [es[0]] + Retired(es[1..], tlimit)
    else Retired(es[1..], tlimit)
  }

  lemma {:induction false} BumpedOrRetired(es: seq<Item>, tlimit: int)
    ensures Bag(es) == Bag(Bumped(es, tlimit)) + Bag(Retired(es, tlimit))
  {
    if es != [] {
      BumpedOrRetired(es[1..], tlimit);
      BagConcat([es[0]], Retired(es[1..], tlimit));
      BagConcat([Item(es[0].node, es[0].transmits + 1)], Bumped(es[1..], tlimit));
    }
  }

  lemma {:induction false} BumpedBelowLimit(es: seq<Item>, tlimit: int, x: Item)
    requires x in Bumped(es, tlimit)
    ensures x.transmits < tlimit && Item(x.node, x.transmits - 1) in es
  {
    if x in Bumped(es[1..], tlimit) {
      BumpedBelowLimit(es[1..], tlimit, x);
    } else {
      assert Item(x.node, x.transmits - 1) == es[0];
    }
  }

  function PlaceAll(es: seq<Item>, xs: seq<Item>): seq<Item>
    decreases xs
  {
    if xs == [] then es else PlaceAll(Place(es, xs[0]), xs[1..])
  }

  // The invariant.

  /** No entry twice, no id twice, no non-empty name twice. */
  ghost predicate Proper(b: multiset<LimitedBroadcast>) {
    && (forall n :: n in b ==> b[n] == 1)
    && (forall m, n :: m in b && n in b && m.id == n.id ==> m == n)
    && forall m, n :: m in b && n in b && m.name == n.name && m.name != "" ==> m == n
  }

  lemma ProperPart(a: multiset<LimitedBroadcast>, b: multiset<LimitedBroadcast>)
    requires Proper(b) && a <= b
    ensures Proper(a)
  {
  }

  lemma PlaceKeeps(es: seq<Item>, x: Item)
    requires Sorted(es) && Proper(Bag(es) + multiset{x.node})
    ensures Sorted(Place(es, x)) && Bag(Place(es, x)) == Bag(es) + multiset{x.node}
    ensures forall y :: y in Place(es, x) <==> y == x || y in es
  {
    forall y | y in es ensures y.AsKey() != x.AsKey() {
      BagHas(es, y.node);
    }
    PlaceSorts(es, x);
    BagPlace(es, x);
    forall y ensures y in Place(es, x) <==> y == x || y in es {
      assert y in multiset(Place(es, x)) <==> y == x || y in multiset(es);
    }
  }

  lemma {:induction false} PlaceAllKeeps(es: seq<Item>, xs: seq<Item>)
    requires Sorted(es) && Proper(Bag(es) + Bag(xs))
    ensures Sorted(PlaceAll(es, xs)) && Bag(PlaceAll(es, xs)) == Bag(es) + Bag(xs)
    ensures forall y :: y in PlaceAll(es, xs) <==> y in es || y in xs
    decreases xs
  {
    if xs != [] {
      assert Bag(es) + Bag(xs) == (Bag(es) + multiset{xs[0].node}) + Bag(xs[1..]);
      ProperPart(Bag(es) + multiset{xs[0].node}, Bag(es) + Bag(xs));
      PlaceKeeps(es, xs[0]);
      PlaceAllKeeps(Place(es, xs[0]), xs[1..]);
    }
  }
}