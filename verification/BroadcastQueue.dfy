/**
 * TransmitLimitedQueue in place: the treap, the name index, the id counter and the length, changed as queue.go
 * changes them. `finished` is the log of the Finished calls. Every method is proved to do to the object what the
 * value model does to the sorted queue.
 */
module BroadcastQueue {
  import opened Base
  import opened Treap
  import opened BroadcastModel
  import opened BroadcastRuns

  /** tm maps exactly the non-empty queued names, each to its entry. */
  ghost predicate Indexed(tm: map<string, LimitedBroadcast>, es: seq<Item>) {
    && (forall x :: x in es && x.node.name != "" ==> x.node.name in tm && tm[x.node.name] == x.node)
    && forall name :: name in tm ==> name != "" && tm[name].name == name && tm[name] in Bag(es)
  }

  lemma FromIndex(es: seq<Item>, k: Key, after: bool) returns (i: nat)
    ensures i <= |es| && From(es, k, after) == es[i..]
    ensures (forall j :: 0 <= j < i ==> Skips(es[j], k, after)) && (i < |es| ==> !Skips(es[i], k, after))
  {
    i := 0;
    while i < |es| && Skips(es[i], k, after)
      invariant i <= |es| && From(es, k, after) == From(es[i..], k, after)
      invariant forall j :: 0 <= j < i ==> Skips(es[j], k, after)
    {
      assert es[i..][1..] == es[i + 1..];
      i := i + 1;
    }
  }

  /** Search order, heap order, distinct entries and the name index. */
  ghost predicate Sound(tm: map<string, LimitedBroadcast>, s: Tree) {
    Heap(s) && Sorted(Elems(s)) && Proper(Bag(Elems(s))) && Indexed(tm, Elems(s))
  }

  lemma KeysApart(es: seq<Item>, x: Item)
    requires Proper(Bag(es) + multiset{x.node})
    ensures Apart(es, x)
  {
    forall y | y in es ensures y.AsKey() != x.AsKey() {
      BagHas(es, y.node);
    }
  }

  function Noted(tm: map<string, LimitedBroadcast>, x: LimitedBroadcast): map<string, LimitedBroadcast> {
    if x.name == "" then tm else tm[x.name := x]
  }

  function Forgotten(tm: map<string, LimitedBroadcast>, x: LimitedBroadcast): map<string, LimitedBroadcast> {
    if x.name == "" then tm else tm - {x.name}
  }

  /** Another entry with a name has another name. */
  lemma OtherName(b: multiset<LimitedBroadcast>, x: LimitedBroadcast, y: LimitedBroadcast)
    requires Proper(b + multiset{x}) && y in b
    ensures y != x && (x.name != "" ==> y.name != x.name)
  {
  }

  lemma PlacedIsOldOrNew(es: seq<Item>, x: Item, y: Item)
    requires y in Place(es, x)
    ensures y == x || y in es
  {
  }

  lemma IndexedAdd(tm: map<string, LimitedBroadcast>, es: seq<Item>, x: Item)
    requires Indexed(tm, es) && (x.node.name != "" ==> forall y :: y in es ==> y.node.name != x.node.name)
    ensures Indexed(Noted(tm, x.node), Place(es, x))
  {
    var now, placed := Noted(tm, x.node), Place(es, x);
    forall y | y in placed && y.node.name != "" ensures y.node.name in now && now[y.node.name] == y.node {
      PlacedIsOldOrNew(es, x, y);
    }
    BagPlace(es, x);
    forall name | name in now ensures name != "" && now[name].name == name && now[name] in Bag(placed) {
      assert now[name] == x.node || now[name] in Bag(es);
    }
  }

  lemma IndexedCut(tm: map<string, LimitedBroadcast>, es: seq<Item>, i: nat)
    requires Indexed(tm, es) && Proper(Bag(es)) && i < |es|
    ensures Indexed(Forgotten(tm, es[i].node), Cut(es, i))
  {
    BagCut(es, i);
    var x := es[i].node;
    forall y | y in Cut(es, i) ensures y in es && y.node != x && (x.name != "" ==> y.node.name != x.name) {
      BagHas(Cut(es, i), y.node);
      OtherName(Bag(Cut(es, i)), x, y.node);
    }
  }

  lemma SoundAdd(tm: map<string, LimitedBroadcast>, s: Tree, x: Item, p: nat)
    requires Sound(tm, s) && Proper(Bag(Elems(s)) + multiset{x.node})
    ensures Sound(Noted(tm, x.node), InsertShape(s, x, p))
    ensures Elems(InsertShape(s, x, p)) == Place(Elems(s), x) && |Place(Elems(s), x)| == |Elems(s)| + 1
  {
    KeysApart(Elems(s), x);
    InsertPlaces(s, x, p);
    PlaceSorts(Elems(s), x);
    BagPlace(Elems(s), x);
    forall y | y in Elems(s) && x.node.name != "" ensures y.node.name != x.node.name {
      BagHas(Elems(s), y.node);
      OtherName(Bag(Elems(s)), x.node, y.node);
    }
    IndexedAdd(tm, Elems(s), x);
  }

  lemma SoundCut(tm: map<string, LimitedBroadcast>, s: Tree, i: nat)
    requires Sound(tm, s) && i < |Elems(s)|
    ensures var x := Elems(s)[i];
            Sound(Forgotten(tm, x.node), DeleteShape(s, x)) && Elems(DeleteShape(s, x)) == Cut(Elems(s), i)
  {
    var es := Elems(s);
    forall y | y in es && y.node == es[i].node ensures y == es[i] {
      SameNodeSameItem(es, i, y);
    }
    DeleteRemoves(s, es[i], i);
    IndexedCut(tm, es, i);
    ProperCut(es, i);
  }

  lemma ProperCut(es: seq<Item>, i: nat)
    requires Proper(Bag(es)) && Sorted(es) && i < |es|
    ensures Proper(Bag(Cut(es, i))) && Sorted(Cut(es, i))
  {
    BagCut(es, i);
    ProperPart(Bag(Cut(es, i)), Bag(es));
  }

  lemma SameNodeSameItem(es: seq<Item>, i: nat, y: Item)
    requires Proper(Bag(es)) && i < |es| && y in es && y.node == es[i].node
    ensures y == es[i]
  {
    BagCut(es, i);
    BagHas(Cut(es, i), y.node);
    BagHas(es, y.node);
    assert y in Cut(es, i) || y == es[i];
  }

  /** Insert cur at a random priority. */
  method InsertAnywhere(t: LimitedBroadcast?, cur: LimitedBroadcast, ghost s: Tree)
    returns (root: LimitedBroadcast, ghost p: nat)
    requires Tied(t, s) && cur !in Nodes(s)
    modifies Nodes(s), cur
    ensures Tied(root, InsertShape(s, old(cur.Held()), p)) && cur.transmits == old(cur.transmits)
  {
    ShapeAllocated(s);
    cur.prio := *;
    p := cur.prio;
    root := Insert(t, cur, s);
  }

  class TransmitLimitedQueue {
    var root: LimitedBroadcast?
    var n: int
    var tm: map<string, LimitedBroadcast>
    var idGen: int
    var finished: seq<LimitedBroadcast>
    ghost var shape: Tree
    ghost var model: Queue

    /** The treap, the count and the index agree. */
    ghost predicate Linked()
      reads `root, `n, `tm, `shape, Nodes(shape)
    {
      Tied(root, shape) && Sound(tm, shape) && n == |Elems(shape)|
    }

    ghost predicate Valid()
      reads this, Nodes(shape)
    {
      && Linked() && Inv(model) && model.items == Elems(shape) && model.idGen == idGen <= MaxInt64
      && model.finished == multiset(finished)
    }

    constructor ()
      ensures Valid() && model == Empty && finished == []
    {
      root, n, tm, idGen, finished := null, 0, map[], 0, [];
      shape, model := Leaf, Empty;
    }

    ghost method Record(q: Queue)
      requires Linked() && Inv(q) && q.items == Elems(shape) && q.idGen == idGen <= MaxInt64 &&
               q.finished == multiset(finished)
      modifies `model
      ensures Valid() && model == q
    {
      ShapeAllocated(shape);
      model := q;
      assert Tied(root, shape);
    }

    /** The Finished callback of an entry. */
    method Finish(cur: LimitedBroadcast)
      requires Linked()
      modifies `finished
      ensures Linked() && multiset(finished) == multiset(old(finished)) + multiset{cur}
    {
      ShapeAllocated(shape);
      finished := finished + [cur];
      assert Tied(root, shape);
    }

    method FinishAll(list: seq<LimitedBroadcast>)
      requires Linked()
      modifies `finished
      ensures Linked() && multiset(finished) == multiset(old(finished)) + multiset(list)
    {
      ShapeAllocated(shape);
      finished := finished + list;
      assert Tied(root, shape);
    }

    method Relink(r: LimitedBroadcast?, size: int, index: map<string, LimitedBroadcast>, ghost s: Tree)
      requires Tied(r, s) && Sound(index, s) && size == |Elems(s)|
      modifies `root, `n, `tm, `shape
      ensures Linked() && shape == s
    {
      ShapeAllocated(s);
      root, n, tm, shape := r, size, index, s;
      assert Tied(root, shape);
    }

    /** addItem, at a random priority. */
    method AddItem(cur: LimitedBroadcast)
      requires Linked() && cur !in Nodes(shape) && Proper(Bag(Elems(shape)) + multiset{cur})
      modifies this`root, this`n, this`tm, this`shape, Nodes(shape), cur
      ensures Linked() && Elems(shape) == Place(old(Elems(shape)), old(cur.Held()))
      ensures Nodes(shape) == old(Nodes(shape)) + {cur} && cur.transmits == old(cur.transmits)
    {
      ghost var s, x := shape, cur.Held();
      var r;
      ghost var p;
      r, p := InsertAnywhere(root, cur, s);
      SoundAdd(tm, s, x, p);
      Relink(r, n + 1, if cur.name != "" then tm[cur.name := cur] else tm, InsertShape(s, x, p));
    }

    /** deleteItem */
    method DeleteItem(cur: LimitedBroadcast, ghost i: nat)
      requires Linked() && i < |Elems(shape)| && Elems(shape)[i].node == cur
      modifies this`root, this`n, this`tm, this`shape, Nodes(shape)
      ensures Linked() && Elems(shape) == Cut(old(Elems(shape)), i)
      ensures Nodes(shape) <= old(Nodes(shape)) && cur !in Nodes(shape) && cur.Held() == old(cur.Held())
    {
      ghost var s, x := shape, cur.Held();
      assert x == Elems(s)[i] && cur in Nodes(s) by { HeldIsListed(root, s); }
      var r := Delete(root, cur, s);
      SoundCut(tm, s, i);
      Relink(r, n - 1, if cur.name != "" then tm - {cur.name} else tm, DeleteShape(s, x));
    }

    method AddHead(list: seq<LimitedBroadcast>, ghost xs: seq<Item>)
      requires Linked() && Waiting(list, xs, Nodes(shape)) && Proper(Bag(Elems(shape)) + Bag(xs)) && |list| > 0
      modifies this`root, this`n, this`tm, this`shape, Nodes(shape), list[0]
      ensures Linked() && Elems(shape) == Place(old(Elems(shape)), xs[0]) &&
              Nodes(shape) == old(Nodes(shape)) + {list[0]}
      ensures Waiting(list[1..], xs[1..], Nodes(shape)) && Proper(Bag(Elems(shape)) + Bag(xs[1..]))
    {
      WaitingHead(list, xs, Nodes(shape), Bag(Elems(shape)));
      BagPlace(Elems(shape), xs[0]);
      AddItem(list[0]);
    }

    /** The loop's last part: put the bumped entries back. */
    method Reinsert(list: seq<LimitedBroadcast>, ghost xs: seq<Item>)
      requires Linked() && Waiting(list, xs, Nodes(shape)) && Proper(Bag(Elems(shape)) + Bag(xs))
      modifies this`root, this`n, this`tm, this`shape, Nodes(shape), list
      ensures Linked() && Elems(shape) == PlaceAll(old(Elems(shape)), xs)
    {
      var rest := list;
      ghost var ys, may := xs, Nodes(shape) + set r | r in list;
      while |rest| > 0
        invariant Linked() && Waiting(rest, ys, Nodes(shape)) && Proper(Bag(Elems(shape)) + Bag(ys))
        invariant PlaceAll(Elems(shape), ys) == PlaceAll(old(Elems(shape)), xs)
        invariant Nodes(shape) <= may && forall i :: 0 <= i < |rest| ==> rest[i] in may
      {
        AddHead(rest, ys);
        rest, ys := rest[1..], ys[1..];
      }
    }

    /** Retire an unlinked entry, or keep it for later one tier up. */
    method Settle(keep: LimitedBroadcast, tlimit: int, list: seq<LimitedBroadcast>, ghost x: Item,
                  ghost taken: seq<Item>, ghost linked: set<LimitedBroadcast>)
      returns (more: seq<LimitedBroadcast>)
      requires Waiting(list, Bumped(taken, tlimit), linked) && x == keep.Held() && keep !in list && keep !in linked
      modifies this`finished, keep`transmits
      ensures Waiting(more, Bumped(taken + [x], tlimit), linked)
      ensures multiset(finished) == multiset(old(finished)) + Bag(Retired([x], tlimit))
      ensures forall j :: 0 <= j < |more| ==> more[j] == keep || more[j] in list
    {
      BumpedAppend(taken, x, tlimit);
      OneTaken(x, tlimit);
      if keep.transmits + 1 >= tlimit {
        finished := finished + [keep];
        more := list;
      } else {
        keep.transmits := keep.transmits + 1;
        more := list + [keep];
      }
    }

    /** What the loop does with the entry a round found. */
    method Take(keep: LimitedBroadcast, tlimit: int, list: seq<LimitedBroadcast>, ghost i: nat, ghost taken: seq<Item>)
      returns (more: seq<LimitedBroadcast>)
      requires Linked() && i < |Elems(shape)| && At(keep, Elems(shape), i)
      requires Waiting(list, Bumped(taken, tlimit), Nodes(shape))
      modifies this`root, this`n, this`tm, this`shape, this`finished, Nodes(shape)
      ensures Linked() && Elems(shape) == Cut(old(Elems(shape)), i) && Nodes(shape) <= old(Nodes(shape))
      ensures var x := old(Elems(shape))[i];
              && Waiting(more, Bumped(taken + [x], tlimit), Nodes(shape))
              && multiset(finished) == multiset(old(finished)) + Bag(Retired([x], tlimit))
      ensures forall j :: 0 <= j < |more| ==> more[j] in old(Nodes(shape)) || more[j] in list
    {
      ghost var x := Elems(shape)[i];
      assert keep in Nodes(shape) by { HeldIsListed(root, shape); }
      DeleteItem(keep, i);
      ShapeAllocated(shape);
      more := Settle(keep, tlimit, list, x, taken, Nodes(shape));
    }

    /** Midway through the tier loop. */
    ghost predicate Taking(c: Call, tlimit: int, es: seq<Item>, all: set<LimitedBroadcast>,
                           before: multiset<LimitedBroadcast>,
                           taken: seq<Item>, toSend: seq<Bytes>, list: seq<LimitedBroadcast>)
      reads this, Nodes(shape), list
    {
      && Linked() && Nodes(shape) <= all && (forall j :: 0 <= j < |list| ==> list[j] in all)
      && toSend == Messages(c, taken) && multiset(finished) == before + Bag(Retired(taken, tlimit))
      && Waiting(list, Bumped(taken, tlimit), Nodes(shape))
    }

    method TakeFound(c: Call, tlimit: int, keep: LimitedBroadcast, toSend: seq<Bytes>, list: seq<LimitedBroadcast>,
                     ghost i: nat, ghost es: seq<Item>, ghost all: set<LimitedBroadcast>,
                     ghost before: multiset<LimitedBroadcast>, ghost taken: seq<Item>)
      returns (sent: seq<Bytes>, more: seq<LimitedBroadcast>)
      requires Taking(c, tlimit, es, all, before, taken, toSend, list) && i < |Elems(shape)| &&
               At(keep, Elems(shape), i)
      modifies this`root, this`n, this`tm, this`shape, this`finished, Nodes(shape)
      ensures Elems(shape) == Cut(old(Elems(shape)), i)
      ensures Taking(c, tlimit, es, all, before, taken + [old(Elems(shape))[i]], sent, more)
    {
      TakenOneMore(c, taken, Elems(shape)[i], tlimit);
      sent := toSend + [c.message(keep.b)];
      more := Take(keep, tlimit, list, i, taken);
    }

    /** One round of the tier loop: move to the next tier, or take an entry. */
    method Round(c: Call, tlimit: int, tier: int, maxTr: int, used: int, toSend: seq<Bytes>,
                 list: seq<LimitedBroadcast>,
                 ghost es: seq<Item>, ghost all: set<LimitedBroadcast>, ghost before: multiset<LimitedBroadcast>,
                 ghost taken: seq<Item>)
      returns (next: int, total: int, sent: seq<Bytes>, more: seq<LimitedBroadcast>, ghost got: seq<Item>)
      requires Taking(c, tlimit, es, all, before, taken, toSend, list) && tier <= maxTr && 0 < c.Free(used)
      requires Onward(c, es, taken, Elems(shape), tier, maxTr, used)
      modifies this`root, this`n, this`tm, this`shape, this`finished, Nodes(shape)
      ensures Taking(c, tlimit, es, all, before, got, sent, more) &&
              Onward(c, es, got, Elems(shape), next, maxTr, total)
      ensures |Elems(shape)| < |old(Elems(shape))| || (Elems(shape) == old(Elems(shape)) && next == tier + 1)
    {
      next, total, sent, more, got := tier, used, toSend, list, taken;
      ShapeAllocated(shape);
      ghost var i := Pick(c, Elems(shape), tier, used);
      var keep := Search(c, tier, used, root, shape);
      if keep == null || keep.transmits != tier {
        OnwardTier(c, es, taken, Elems(shape), tier, maxTr, used);
        next := tier + 1;
      } else {
        total := used + c.overhead + |c.message(keep.b)|;
        OnwardTake(c, es, taken, Elems(shape), i, tier, maxTr, used, total);
        got := taken + [Elems(shape)[i]];
        sent, more := TakeFound(c, tlimit, keep, toSend, list, i, es, all, before, taken);
      }
    }

    /** The tier loop. */
    method TakeTiers(c: Call, tlimit: int)
      returns (toSend: seq<Bytes>, list: seq<LimitedBroadcast>, ghost taken: seq<Item>)
      requires Linked()
      modifies this`root, this`n, this`tm, this`shape, this`finished, Nodes(shape)
      ensures Taking(c, tlimit, old(Elems(shape)), old(Nodes(shape)), multiset(old(finished)), taken, toSend, list)
      ensures taken == Outcome(c, old(Elems(shape))).0 && Elems(shape) == Outcome(c, old(Elems(shape))).1
    {
      toSend, list, taken := [], [], [];
      ghost var es, all, before := Elems(shape), Nodes(shape), multiset(finished);
      var used := 0;
      var tier, maxTr := TransmitRange();
      OnwardStart(c, es);
      while tier <= maxTr
        invariant Taking(c, tlimit, es, all, before, taken, toSend, list)
        invariant Onward(c, es, taken, Elems(shape), tier, maxTr, used)
        decreases |Elems(shape)|, maxTr - tier + 1
      {
        if c.Free(used) <= 0 {
          break;
        }
        tier, used, toSend, list, taken := Round(c, tlimit, tier, maxTr, used, toSend, list, es, all, before, taken);
      }
      OnwardEnd(c, es, taken, Elems(shape), tier, maxTr, used);
    }

    /** The loop and the reinsertion. */
    method TakeAndReinsert(c: Call, tlimit: int) returns (toSend: seq<Bytes>)
      requires Linked() && var r := Outcome(c, Elems(shape)); Proper(Bag(r.1) + Bag(Bumped(r.0, tlimit)))
      modifies this`root, this`n, this`tm, this`shape, this`finished, Nodes(shape)
      ensures var r := Outcome(c, old(Elems(shape)));
              && Linked() && Elems(shape) == PlaceAll(r.1, Bumped(r.0, tlimit)) && toSend == Messages(c, r.0)
              && multiset(finished) == multiset(old(finished)) + Bag(Retired(r.0, tlimit))
    {
      ShapeAllocated(shape);
      var list;
      ghost var taken;
      toSend, list, taken := TakeTiers(c, tlimit);
      Reinsert(list, Bumped(taken, tlimit));
    }

    /** GetBroadcasts: hand out what the tier loop takes, then put back what may be sent again. */
    method GetBroadcasts(c: Call, tlimit: int) returns (toSend: seq<Bytes>)
      requires Valid()
      modifies this, Nodes(shape)
      ensures Valid() && model == Get(old(model), c, tlimit)
      ensures toSend == Messages(c, Outcome(c, old(model.items)).0)
    {
      ghost var q := model;
      if n == 0 {
        toSend := [];
        EmptyOutcome(c, tlimit);
      } else {
        LeftAndBumped(q, c, tlimit);
        toSend := TakeAndReinsert(c, tlimit);
      }
      GetKeepsInv(q, c, tlimit);
      Record(Get(q, c, tlimit));
    }

    /** A walk whose callback never stops sees every entry, in order. */
    method WalkAll() returns (seen: seq<LimitedBroadcast>)
      requires Linked()
      ensures Linked() && Listed(seen, Elems(shape)) && multiset(seen) == Bag(Elems(shape))
    {
      ShapeAllocated(shape);
      seen := AscendFrom(root, None, Anything, shape);
      SeenAll(Elems(shape));
      assert Tied(root, shape);
    }

    method Clear()
      modifies `root, `n, `tm, `shape, `idGen
      ensures Linked() && Elems(shape) == [] && idGen == 0
    {
      idGen := 0;
      Relink(null, 0, map[], Leaf);
    }

    /** Reset: every queued entry is finished, in order, and the queue starts over. */
    method Reset()
      requires Valid()
      modifies this
      ensures Valid() && model == BroadcastRuns.Reset(old(model))
    {
      ghost var q := BroadcastRuns.Reset(model);
      assert Inv(q) by { ResetKeepsInv(model); }
      var seen := WalkAll();
      FinishAll(seen);
      Clear();
      Record(q);
    }

    /** The walk of queueBroadcast: the victims, each finished as it is noted. */
    method FinishInvalidated(x: LimitedBroadcast, invalidates: Broadcast -> bool)
      returns (remove: seq<LimitedBroadcast>)
      requires Linked() && x.name == "" && !x.b.kind.Unique?
      modifies `finished
      ensures Linked() && Listed(remove, Victims(Elems(shape), x, invalidates))
      ensures multiset(finished) == multiset(old(finished)) + Bag(Victims(Elems(shape), x, invalidates))
    {
      var seen := WalkAll();
      ShapeAllocated(shape);
      remove := Invalidated(seen, x, invalidates, Elems(shape));
      ListedBag(remove, Victims(Elems(shape), x, invalidates));
      FinishAll(remove);
    }

    method DeleteOne(cur: LimitedBroadcast, ghost es: seq<Item>, ghost vs: seq<Item>, ghost v: Item)
      requires Linked() && Elems(shape) == RemoveAll(es, vs) && Sorted(es) && v in es && v !in vs && v.node == cur
      modifies `root, `n, `tm, `shape, Nodes(shape)
      ensures Linked() && Elems(shape) == RemoveAll(es, vs + [v]) && Nodes(shape) <= old(Nodes(shape))
    {
      ghost var i := RemoveOne(es, vs, v);
      DeleteItem(cur, i);
    }

    /** Delete the listed entries. */
    method DeleteAll(remove: seq<LimitedBroadcast>, ghost vs: seq<Item>)
      requires Linked() && Listed(remove, vs) && Sorted(vs) && forall v :: v in vs ==> v in Elems(shape)
      modifies `root, `n, `tm, `shape, Nodes(shape)
      ensures Linked() && Elems(shape) == RemoveAll(old(Elems(shape)), vs) && Nodes(shape) <= old(Nodes(shape))
    {
      ghost var es, all := Elems(shape), Nodes(shape);
      RemoveNone(es);
      for k := 0 to |remove|
        invariant Linked() && Nodes(shape) <= all && Elems(shape) == RemoveAll(es, vs[..k])
      {
        PrefixGrows(vs, k);
        DeleteOne(remove[k], es, vs[..k], vs[k]);
      }
      assert vs[..|vs|] == vs;
    }

    /** The slow path of queueBroadcast: a plain broadcast removes the plain entries it invalidates. */
    method RemoveInvalidated(x: LimitedBroadcast, invalidates: Broadcast -> bool)
      requires Linked() && x.name == "" && !x.b.kind.Unique?
      modifies `root, `n, `tm, `shape, `finished, Nodes(shape)
      ensures Linked() && Elems(shape) == Survivors(old(Elems(shape)), x, invalidates) &&
              Nodes(shape) <= old(Nodes(shape))
      ensures multiset(finished) == multiset(old(finished)) + Bag(Victims(old(Elems(shape)), x, invalidates))
    {
      VictimsAreVictims(Elems(shape), x, invalidates);
      ghost var vs := Victims(Elems(shape), x, invalidates);
      RemoveVictims(Elems(shape), vs, x, invalidates);
      var remove := FinishInvalidated(x, invalidates);
      DeleteAll(remove, vs);
    }

    /** The fast path: a named broadcast replaces the queued one of that name. */
    method RemoveNamed(x: LimitedBroadcast, invalidates: Broadcast -> bool)
      requires Linked() && x.name != ""
      modifies `root, `n, `tm, `shape, `finished, Nodes(shape)
      ensures Linked() && Elems(shape) == Survivors(old(Elems(shape)), x, invalidates) &&
              Nodes(shape) <= old(Nodes(shape))
      ensures multiset(finished) == multiset(old(finished)) + Bag(Victims(old(Elems(shape)), x, invalidates))
    {
      if x.name in tm {
        var cur := tm[x.name];
        ghost var i := IndexOf(Elems(shape), cur);
        NamedVictim(Elems(shape), x, invalidates, i);
        Finish(cur);
        DeleteItem(cur, i);
      } else {
        NoVictims(Elems(shape), x, invalidates);
      }
    }

    /** What queueing x removes. */
    method RemoveVictimsOf(x: LimitedBroadcast, invalidates: Broadcast -> bool)
      requires Linked()
      modifies `root, `n, `tm, `shape, `finished, Nodes(shape)
      ensures Linked() && Elems(shape) == Survivors(old(Elems(shape)), x, invalidates) &&
              Nodes(shape) <= old(Nodes(shape))
      ensures multiset(finished) == multiset(old(finished)) + Bag(Victims(old(Elems(shape)), x, invalidates))
    {
      if x.name != "" {
        RemoveNamed(x, invalidates);
      } else if !x.b.kind.Unique? {
        RemoveInvalidated(x, invalidates);
      } else {
        NoneAreVictims(Elems(shape), x, invalidates);
      }
    }

    /** A new entry, stamped with the next id. */
    method Stamp(b: Broadcast, msgLen: nat, transmits: int) returns (x: LimitedBroadcast)
      requires Valid()
      modifies `idGen
      ensures Linked() && idGen == old(idGen) + 1
      ensures fresh(x) && x !in Nodes(shape) && NewEntry(model, x) && x.b == b && x.msgLen == msgLen &&
              x.transmits == transmits
    {
      ShapeAllocated(shape);
      idGen := idGen + 1;
      x := new LimitedBroadcast(transmits, msgLen, idGen, b, if b.kind.Named? then b.name else "");
      assert Tied(root, shape);
    }

    /** Remove x's victims and link x. */
    method Enqueue(x: LimitedBroadcast, invalidates: Broadcast -> bool)
      requires Linked() && x !in Nodes(shape) && Proper(Bag(Survivors(Elems(shape), x, invalidates)) + multiset{x})
      modifies `root, `n, `tm, `shape, `finished, Nodes(shape), x
      ensures Linked() && Elems(shape) == Place(Survivors(old(Elems(shape)), x, invalidates), old(x.Held()))
      ensures multiset(finished) == multiset(old(finished)) + Bag(Victims(old(Elems(shape)), x, invalidates))
    {
      RemoveVictimsOf(x, invalidates);
      AddItem(x);
    }

    method EnqueueAndRecord(x: LimitedBroadcast, invalidates: Broadcast -> bool)
      requires Linked() && x !in Nodes(shape) && Inv(model) && model.items == Elems(shape) && NewEntry(model, x)
      requires model.idGen + 1 == idGen <= MaxInt64 && model.finished == multiset(finished)
      modifies `root, `n, `tm, `shape, `finished, `model, Nodes(shape), x
      ensures Valid() && model == Submit(old(model), x, old(x.transmits), invalidates)
    {
      ghost var q := Submit(model, x, x.transmits, invalidates);
      assert Inv(q) by { SubmitKeepsInv(model, x, x.transmits, invalidates); }
      SurvivorsAdmit(model, x, invalidates);
      Enqueue(x, invalidates);
      Record(q);
    }

    /** queueBroadcast; the answers of Message and Invalidates are parameters. */
    method QueueBroadcast(b: Broadcast, message: Broadcast -> Bytes, invalidates: Broadcast -> bool,
                          initialTransmits: nat)
      returns (ghost lb: LimitedBroadcast)
      requires Valid() && idGen < MaxInt64
      modifies this, Nodes(shape)
      ensures fresh(lb) && lb.b == b && lb.msgLen == |message(b)| && NewEntry(old(model), lb)
      ensures Valid() && model == Submit(old(model), lb, initialTransmits, invalidates)
    {
      var x := Stamp(b, |message(b)|, initialTransmits);
      lb := x;
      EnqueueAndRecord(x, invalidates);
    }

    /** NumQueued */
    method NumQueued() returns (r: int)
      requires Valid()
      ensures r == |model.items|
    {
      return n;
    }

    /** All but the first n of es have been dropped. */
    ghost predicate Dropping(es: seq<Item>, all: set<LimitedBroadcast>, before: multiset<LimitedBroadcast>)
      reads this, Nodes(shape)
    {
      Linked() && Nodes(shape) <= all && Dropped(es, n, Elems(shape), before, multiset(finished))
    }

    method LastEntry() returns (cur: LimitedBroadcast)
      requires Linked() && n > 0
      ensures Linked() && cur == Elems(shape)[n - 1].node
    {
      ShapeAllocated(shape);
      cur := Treap.Max(root, shape);
      assert Tied(root, shape);
    }

    /** One iteration of Prune. */
    method DropMax()
      requires Linked() && n > 0
      modifies `root, `n, `tm, `shape, `finished, Nodes(shape)
      ensures Linked() && Nodes(shape) <= old(Nodes(shape)) && n == old(n) - 1
      ensures Elems(shape) == Cut(old(Elems(shape)), old(n) - 1)
      ensures multiset(finished) == multiset(old(finished)) + multiset{old(Elems(shape))[old(n) - 1].node}
    {
      ghost var last := n - 1;
      var cur := LastEntry();
      Finish(cur);
      DeleteItem(cur, last);
    }

    method DropLast(ghost es: seq<Item>, ghost all: set<LimitedBroadcast>, ghost before: multiset<LimitedBroadcast>)
      requires Dropping(es, all, before) && n > 0
      modifies `root, `n, `tm, `shape, `finished, Nodes(shape)
      ensures Dropping(es, all, before) && n == old(n) - 1
    {
      DroppedOne(es, n - 1, Elems(shape), before, multiset(finished));
      DropMax();
    }

    /** The loop of Prune. */
    method DropTo(keep: nat)
      requires Linked()
      modifies `root, `n, `tm, `shape, `finished, Nodes(shape)
      ensures Dropping(old(Elems(shape)), old(Nodes(shape)), multiset(old(finished)))
      ensures n == if old(n) <= keep then old(n) else keep
    {
      ghost var es, all, before := Elems(shape), Nodes(shape), multiset(finished);
      while n > keep
        invariant Dropping(es, all, before) && if old(n) <= keep then n == old(n) else keep <= n
      {
        DropLast(es, all, before);
      }
    }

    /** Prune: drop the entries that order last until at most keep are left. */
    method Prune(keep: nat)
      requires Valid()
      modifies this, Nodes(shape)
      ensures Valid() && model == BroadcastRuns.Prune(old(model), keep)
    {
      ghost var q := BroadcastRuns.Prune(model, keep);
      PruneKeepsInv(model, keep);
      PrunedParts(model, keep);
      DropTo(keep);
      Record(q);
    }

    /** getTransmitRange */
    method TransmitRange() returns (low: int, high: int)
      requires Linked()
      ensures Linked() && low == Lowest(Elems(shape)) && high == Highest(Elems(shape))
    {
      if n == 0 {
        return 0, 0;
      }
      ShapeAllocated(shape);
      var first := Treap.Min(root, shape);
      var last := Treap.Max(root, shape);
      HeldIsListed(root, shape);
      low, high := first.transmits, last.transmits;
      assert Tied(root, shape);
    }
  }

  function Messages(c: Call, es: seq<Item>): seq<Bytes> {
    if es == [] then [] else [c.message(es[0].node.b)] + Messages(c, es[1..])
  }

  /** The whole outcome from es0 is what was taken so far, then the outcome of going on from es. */
  ghost predicate Onward(c: Call, es0: seq<Item>, taken: seq<Item>, es: seq<Item>, tier: int, maxTr: int, used: int) {
    && Outcome(c, es0).0 == taken + Fill(c, es, tier, maxTr, used).0
    && Outcome(c, es0).1 == Fill(c, es, tier, maxTr, used).1
  }

  lemma OnwardStart(c: Call, es: seq<Item>)
    ensures Onward(c, es, [], es, Lowest(es), Highest(es), 0)
  {
  }

  lemma OnwardEnd(c: Call, es0: seq<Item>, taken: seq<Item>, es: seq<Item>, tier: int, maxTr: int, used: int)
    requires Onward(c, es0, taken, es, tier, maxTr, used) && (tier > maxTr || c.Free(used) <= 0)
    ensures taken == Outcome(c, es0).0 && es == Outcome(c, es0).1
  {
  }

  lemma OnwardTier(c: Call, es0: seq<Item>, taken: seq<Item>, es: seq<Item>, tier: int, maxTr: int, used: int)
    requires Onward(c, es0, taken, es, tier, maxTr, used) && tier <= maxTr && 0 < c.Free(used)
    requires var i := Pick(c, es, tier, used); i < |es| ==> es[i].transmits != tier
    ensures Onward(c, es0, taken, es, tier + 1, maxTr, used)
  {
  }

  lemma OnwardTake(c: Call, es0: seq<Item>, taken: seq<Item>, es: seq<Item>, i: nat, tier: int, maxTr: int, used: int,
                   more: int)
    requires Onward(c, es0, taken, es, tier, maxTr, used) && tier <= maxTr && 0 < c.Free(used)
    requires i == Pick(c, es, tier, used) && i < |es| && es[i].transmits == tier &&
             more == used + c.overhead + c.Size(es[i])
    ensures Onward(c, es0, taken + [es[i]], Cut(es, i), tier, maxTr, more)
  {
  }

  lemma {:induction false} MessagesAppend(c: Call, es: seq<Item>, x: Item)
    ensures Messages(c, es + [x]) == Messages(c, es) + [c.message(x.node.b)]
  {
    if es == [] {
      assert es + [x] == [x];
    } else {
      assert (es + [x])[1..] == es[1..] + [x];
      MessagesAppend(c, es[1..], x);
    }
  }

  lemma TakenOneMore(c: Call, taken: seq<Item>, x: Item, tlimit: int)
    ensures Messages(c, taken + [x]) == Messages(c, taken) + [c.message(x.node.b)]
    ensures Bag(Retired(taken + [x], tlimit)) == Bag(Retired(taken, tlimit)) + Bag(Retired([x], tlimit))
  {
    MessagesAppend(c, taken, x);
    RetiredAppend(taken, x, tlimit);
    BagConcat(Retired(taken, tlimit), Retired([x], tlimit));
  }

  lemma EmptyOutcome(c: Call, tlimit: int)
    ensures Outcome(c, []) == ([], []) && PlaceAll([], Bumped([], tlimit)) == []
  {
  }

  /** What a call leaves and what it puts back are part of what was queued. */
  lemma LeftAndBumped(q: Queue, c: Call, tlimit: int)
    requires Inv(q)
    ensures var r := Outcome(c, q.items); Proper(Bag(r.1) + Bag(Bumped(r.0, tlimit)))
  {
    var r := Outcome(c, q.items);
    FillShares(c, q.items, Lowest(q.items), Highest(q.items), 0);
    BumpedOrRetired(r.0, tlimit);
    ProperPart(Bag(r.1) + Bag(Bumped(r.0, tlimit)), Bag(q.items));
  }

  ghost predicate Dropped(es: seq<Item>, k: int, left: seq<Item>, before: multiset<LimitedBroadcast>,
                          log: multiset<LimitedBroadcast>) {
    0 <= k <= |es| && left == es[..k] && log == before + Bag(es[k..])
  }

  lemma DroppedOne(es: seq<Item>, k: nat, left: seq<Item>, before: multiset<LimitedBroadcast>,
                   log: multiset<LimitedBroadcast>)
    requires Dropped(es, k + 1, left, before, log)
    ensures Dropped(es, k, Cut(left, k), before, log + multiset{left[k].node})
  {
    assert es[k..][1..] == es[k + 1..];
  }

  lemma PrunedParts(q: Queue, keep: nat)
    ensures var p := BroadcastRuns.Prune(q, keep); var m := if |q.items| <= keep then |q.items| else keep;
            p.items == q.items[..m] && p.finished == q.finished + Bag(q.items[m..]) && p.idGen == q.idGen
  {
  }

  predicate Anything(n: LimitedBroadcast) { true }

  ghost predicate Listed(list: seq<LimitedBroadcast>, es: seq<Item>) {
    |list| == |es| && forall i :: 0 <= i < |es| ==> list[i] == es[i].node
  }

  lemma {:induction false} SeenAll(es: seq<Item>)
    ensures Listed(UpTo(es, Anything), es) && multiset(UpTo(es, Anything)) == Bag(es)
  {
    if es != [] {
      SeenAll(es[1..]);
      assert Anything(es[0].node);
    }
  }

  lemma {:induction false} ListedBag(list: seq<LimitedBroadcast>, es: seq<Item>)
    requires Listed(list, es)
    ensures multiset(list) == Bag(es)
  {
    if es != [] {
      ListedBag(list[1..], es[1..]);
      assert list == [list[0]] + list[1..];
    }
  }

  /** The callback of the walk: note the plain entries the new broadcast invalidates. */
  method Invalidated(seen: seq<LimitedBroadcast>, x: LimitedBroadcast, invalidates: Broadcast -> bool,
                     ghost es: seq<Item>)
    returns (remove: seq<LimitedBroadcast>)
    requires Listed(seen, es) && x.name == "" && !x.b.kind.Unique?
    ensures Listed(remove, Victims(es, x, invalidates))
  {
    remove := [];
    for i := 0 to |seen|
      invariant Listed(remove, Victims(es[..i], x, invalidates))
    {
      VictimsAppend(es, i, x, invalidates);
      if seen[i].b.kind.Plain? && invalidates(seen[i].b) {
        remove := remove + [seen[i]];
      }
    }
    assert es[..|es|] == es;
  }

  lemma VictimsAppend(es: seq<Item>, i: nat, x: LimitedBroadcast, invalidates: Broadcast -> bool)
    requires i < |es|
    ensures var was, now := Victims(es[..i], x, invalidates), Victims(es[..i + 1], x, invalidates);
            now == if Victim(x, invalidates, es[i]) then was + [es[i]] else was
  {
    assert es[..i + 1] == es[..i] + [es[i]];
    VictimsConcat(es[..i], es[i], x, invalidates);
  }

  lemma {:induction false} VictimsConcat(es: seq<Item>, y: Item, x: LimitedBroadcast, invalidates: Broadcast -> bool)
    ensures Victims(es + [y], x, invalidates) ==
              Victims(es, x, invalidates) + if Victim(x, invalidates, y) then [y] else []
  {
    if es == [] {
      assert es + [y] == [y];
    } else {
      assert (es + [y])[1..] == es[1..] + [y];
      VictimsConcat(es[1..], y, x, invalidates);
    }
  }

  function RemoveAll(es: seq<Item>, vs: seq<Item>): seq<Item> {
    if es == [] then [] else if es[0] in vs then RemoveAll(es[1..], vs) else [es[0]] + RemoveAll(es[1..], vs)
  }

  lemma {:induction false} RemoveNone(es: seq<Item>)
    ensures RemoveAll(es, []) == es
  {
    if es != [] {
      RemoveNone(es[1..]);
    }
  }

  lemma {:induction false} RemoveAbsent(es: seq<Item>, vs: seq<Item>, v: Item)
    requires v !in es
    ensures RemoveAll(es, vs + [v]) == RemoveAll(es, vs)
  {
    if es != [] {
      RemoveAbsent(es[1..], vs, v);
    }
  }

  /** Removing one more entry cuts one position. */
  lemma {:induction false} RemoveOne(es: seq<Item>, vs: seq<Item>, v: Item) returns (i: nat)
    requires Sorted(es) && v in es && v !in vs
    ensures i < |RemoveAll(es, vs)| && RemoveAll(es, vs)[i] == v && RemoveAll(es, vs + [v]) == Cut(RemoveAll(es, vs), i)
  {
    if es[0] == v {
      i := 0;
      assert v !in es[1..];
      RemoveAbsent(es[1..], vs, v);
    } else {
      assert v in es[1..];
      var j := RemoveOne(es[1..], vs, v);
      if es[0] in vs {
        i := j;
      } else {
        i := j + 1;
        CutMiddle([], es[0], RemoveAll(es[1..], vs), i);
      }
    }
  }

  lemma {:induction false} VictimsAreVictims(es: seq<Item>, x: LimitedBroadcast, invalidates: Broadcast -> bool)
    requires Sorted(es)
    ensures Sorted(Victims(es, x, invalidates))
    ensures forall y :: y in Victims(es, x, invalidates) ==> y in es && Victim(x, invalidates, y)
  {
    if es != [] {
      VictimsAreVictims(es[1..], x, invalidates);
      var vs := Victims(es[1..], x, invalidates);
      if vs != [] {
        assert vs[0] in es[1..];
      }
      PrependSorts(es[0], vs);
    }
  }

  lemma {:induction false} VictimIsListed(es: seq<Item>, x: LimitedBroadcast, invalidates: Broadcast -> bool, y: Item)
    requires y in es && Victim(x, invalidates, y)
    ensures y in Victims(es, x, invalidates)
  {
    if es[0] != y {
      VictimIsListed(es[1..], x, invalidates, y);
    }
  }

  /** Removing the victims leaves the survivors. */
  lemma RemoveVictims(es: seq<Item>, vs: seq<Item>, x: LimitedBroadcast, invalidates: Broadcast -> bool)
    requires vs == Victims(es, x, invalidates) && forall y :: y in vs ==> Victim(x, invalidates, y)
    ensures RemoveAll(es, vs) == Survivors(es, x, invalidates)
  {
    forall i | 0 <= i < |es| ensures es[i] in vs <==> Victim(x, invalidates, es[i]) {
      if Victim(x, invalidates, es[i]) {
        VictimIsListed(es, x, invalidates, es[i]);
      }
    }
    RemoveMarked(es, vs, x, invalidates);
  }

  lemma {:induction false} RemoveMarked(es: seq<Item>, vs: seq<Item>, x: LimitedBroadcast,
                                        invalidates: Broadcast -> bool)
    requires forall i :: 0 <= i < |es| ==> (es[i] in vs <==> Victim(x, invalidates, es[i]))
    ensures RemoveAll(es, vs) == Survivors(es, x, invalidates)
  {
    if es != [] {
      RemoveMarked(es[1..], vs, x, invalidates);
    }
  }

  lemma IndexOf(es: seq<Item>, n: LimitedBroadcast) returns (i: nat)
    requires n in Bag(es)
    ensures i < |es| && es[i].node == n
  {
    BagHas(es, n);
    i :| i < |es| && es[i].node == n;
  }

  lemma {:induction false} NoneAreVictims(es: seq<Item>, x: LimitedBroadcast, invalidates: Broadcast -> bool)
    requires forall i :: 0 <= i < |es| ==> !Victim(x, invalidates, es[i])
    ensures Survivors(es, x, invalidates) == es && Victims(es, x, invalidates) == []
  {
    if es != [] {
      NoneAreVictims(es[1..], x, invalidates);
    }
  }

  lemma {:induction false} OneIsVictim(es: seq<Item>, x: LimitedBroadcast, invalidates: Broadcast -> bool, i: nat)
    requires i < |es| && forall j :: 0 <= j < |es| ==> (Victim(x, invalidates, es[j]) <==> j == i)
    ensures Survivors(es, x, invalidates) == Cut(es, i) && Victims(es, x, invalidates) == [es[i]]
  {
    if i == 0 {
      NoneAreVictims(es[1..], x, invalidates);
    } else {
      OneIsVictim(es[1..], x, invalidates, i - 1);
      assert es == [] + [es[0]] + es[1..];
      CutMiddle([], es[0], es[1..], i);
    }
  }

  /** A queued name has one victim. */
  lemma NamedVictim(es: seq<Item>, x: LimitedBroadcast, invalidates: Broadcast -> bool, i: nat)
    requires Proper(Bag(es)) && i < |es| && x.name != "" && es[i].node.name == x.name
    ensures Survivors(es, x, invalidates) == Cut(es, i) && Bag(Victims(es, x, invalidates)) == multiset{es[i].node}
  {
    forall j | 0 <= j < |es| ensures Victim(x, invalidates, es[j]) <==> j == i {
      BagCut(es, i);
      if j != i {
        var k := if j < i then j else j - 1;
        assert Cut(es, i)[k] == es[j];
        BagHas(Cut(es, i), es[j].node);
        OtherName(Bag(Cut(es, i)), es[i].node, es[j].node);
      }
    }
    OneIsVictim(es, x, invalidates, i);
    assert Bag([es[i]]) == multiset{es[i].node} + Bag([]);
  }

  /** A name the index does not have has none. */
  lemma NoVictims(es: seq<Item>, x: LimitedBroadcast, invalidates: Broadcast -> bool)
    requires x.name != "" && forall y :: y in es ==> y.node.name != x.name
    ensures Survivors(es, x, invalidates) == es && Bag(Victims(es, x, invalidates)) == multiset{}
  {
  }

  /** Next to the survivors the new entry is distinct. */
  lemma SurvivorsAdmit(q: Queue, x: LimitedBroadcast, invalidates: Broadcast -> bool)
    requires Inv(q) && NewEntry(q, x)
    ensures Proper(Bag(Survivors(q.items, x, invalidates)) + multiset{x})
  {
    var s := Survivors(q.items, x, invalidates);
    VictimsSplit(q.items, x, invalidates);
    ProperPart(Bag(s), Bag(q.items));
    forall n | n in Bag(s) ensures n != x && n.id != x.id && (x.name != "" ==> n.name != x.name) {
      SurvivorsApart(q, x, invalidates, n);
    }
    ProperAdd(Bag(s), x);
  }

  lemma PrefixGrows(vs: seq<Item>, k: nat)
    requires Sorted(vs) && k < |vs|
    ensures vs[..k] + [vs[k]] == vs[..k + 1] && vs[k] !in vs[..k]
  {
  }

  lemma ResetKeepsInv(q: Queue)
    requires Inv(q)
    ensures Inv(BroadcastRuns.Reset(q))
  {
  }

  lemma OneTaken(x: Item, tlimit: int)
    ensures Bumped([x], tlimit) == if x.transmits + 1 >= tlimit then [] else [Item(x.node, x.transmits + 1)]
    ensures Bag(Retired([x], tlimit)) == if x.transmits + 1 >= tlimit then multiset{x.node} else multiset{}
  {
  }

  lemma {:induction false} BumpedAppend(taken: seq<Item>, x: Item, tlimit: int)
    ensures Bumped(taken + [x], tlimit) == Bumped(taken, tlimit) + Bumped([x], tlimit)
  {
    if taken == [] {
      assert taken + [x] == [x];
    } else {
      assert (taken + [x])[1..] == taken[1..] + [x];
      BumpedAppend(taken[1..], x, tlimit);
    }
  }

  lemma {:induction false} RetiredAppend(taken: seq<Item>, x: Item, tlimit: int)
    ensures Retired(taken + [x], tlimit) == Retired(taken, tlimit) + Retired([x], tlimit)
  {
    if taken == [] {
      assert taken + [x] == [x];
    } else {
      assert (taken + [x])[1..] == taken[1..] + [x];
      RetiredAppend(taken[1..], x, tlimit);
    }
  }

  /** The unlinked nodes in list hold xs. */
  ghost predicate Waiting(list: seq<LimitedBroadcast>, xs: seq<Item>, linked: set<LimitedBroadcast>)
    reads list
  {
    |list| == |xs| && forall i :: 0 <= i < |xs| ==>
        list[i] == xs[i].node && list[i].Held() == xs[i] && list[i] !in linked
  }

  /** The head of a waiting list is apart from the queue and from the rest of the list. */
  lemma WaitingHead(list: seq<LimitedBroadcast>, xs: seq<Item>, linked: set<LimitedBroadcast>,
                    b: multiset<LimitedBroadcast>)
    requires Waiting(list, xs, linked) && xs != [] && Proper(b + Bag(xs))
    ensures Proper(b + multiset{list[0]}) && list[0] !in list[1..] && Waiting(list[1..], xs[1..], linked)
    ensures Proper(b + multiset{list[0]} + Bag(xs[1..]))
  {
    assert b + Bag(xs) == b + multiset{list[0]} + Bag(xs[1..]);
    ProperPart(b + multiset{list[0]}, b + Bag(xs));
    forall i | 0 <= i < |list[1..]| ensures list[1..][i] != list[0] {
      var n := xs[1..][i].node;
      BagHas(xs[1..], n);
      assert (b + Bag(xs))[n] == 1;
    }
  }

  ghost predicate At(keep: LimitedBroadcast?, es: seq<Item>, i: nat)
    reads keep
  {
    if i < |es| then keep == es[i].node && keep.Held() == es[i] else keep == null
  }

  lemma AtIndex(t: LimitedBroadcast?, s: Tree, i: nat, keep: LimitedBroadcast?)
    requires Tied(t, s) && keep == if i < |Elems(s)| then Elems(s)[i].node else null
    ensures At(keep, Elems(s), i)
  {
    HeldIsListed(t, s);
  }

  /** treapCeil, by index. */
  method CeilAt(root: LimitedBroadcast?, k: Key, ghost s: Tree) returns (keep: LimitedBroadcast?, ghost i: nat)
    requires Tied(root, s) && Sorted(Elems(s))
    ensures i <= |Elems(s)| && At(keep, Elems(s), i)
    ensures (forall j :: 0 <= j < i ==> Less(Elems(s)[j].AsKey(), k)) &&
            (i < |Elems(s)| ==> !Less(Elems(s)[i].AsKey(), k))
  {
    ShapeAllocated(s);
    keep := Ceil(root, k, s);
    i := FromIndex(Elems(s), k, false);
    AtIndex(root, s, i, keep);
  }

  /** treapNext, by index. */
  method NextAt(root: LimitedBroadcast?, cur: LimitedBroadcast, ghost s: Tree, ghost i: nat)
    returns (keep: LimitedBroadcast?)
    requires Tied(root, s) && Sorted(Elems(s)) && i < |Elems(s)| && At(cur, Elems(s), i)
    ensures At(keep, Elems(s), i + 1)
  {
    ShapeAllocated(s);
    keep := Treap.Next(root, cur.Held().AsKey(), s);
    ghost var next := FromIndex(Elems(s), cur.Held().AsKey(), true);
    NextIndex(Elems(s), i, next);
    AtIndex(root, s, next, keep);
  }

  /** One round's search: the ceiling of the probe, then past entries too long now. */
  method Search(c: Call, tier: int, used: int, root: LimitedBroadcast?, ghost s: Tree) returns (keep: LimitedBroadcast?)
    requires Tied(root, s) && Sorted(Elems(s))
    ensures At(keep, Elems(s), Pick(c, Elems(s), tier, used))
  {
    ShapeAllocated(s);
    ghost var es, i := Elems(s), 0;
    keep, i := CeilAt(root, c.Probe(tier, used), s);
    while keep != null && keep.transmits == tier && |c.message(keep.b)| > c.Free(used)
      invariant i <= |es| && At(keep, es, i)
      invariant forall j :: 0 <= j < i ==> c.Passes(es[j], tier, used)
      invariant i < |es| ==> !Less(es[i].AsKey(), c.Probe(tier, used))
      decreases |es| - i
    {
      keep := NextAt(root, keep, s, i);
      i := i + 1;
      ProbeMonotone(es, i, c.Probe(tier, used));
    }
    PickUnique(c, es, tier, used, i);
  }

  /** The first entry after es[i] is es[i + 1]. */
  lemma NextIndex(es: seq<Item>, i: nat, next: nat)
    requires Sorted(es) && i < |es| && next <= |es|
    requires forall j :: 0 <= j < next ==> Skips(es[j], es[i].AsKey(), true)
    requires next < |es| ==> !Skips(es[next], es[i].AsKey(), true)
    ensures next == i + 1
  {
    assert forall j :: 0 <= j < i ==> Before(es[j], es[i]);
    assert i + 1 < |es| ==> Before(es[i], es[i + 1]);
  }

  lemma ProbeMonotone(es: seq<Item>, i: nat, k: Key)
    requires Sorted(es) && 0 < i <= |es| && !Less(es[i - 1].AsKey(), k)
    ensures i < |es| ==> !Less(es[i].AsKey(), k)
  {
  }

  lemma {:induction false} PickUnique(c: Call, es: seq<Item>, tier: int, used: int, i: nat)
    requires i <= |es| && forall j :: 0 <= j < i ==> c.Passes(es[j], tier, used)
    requires i < |es| ==> !c.Passes(es[i], tier, used)
    ensures i == Pick(c, es, tier, used)
  {
  }
}