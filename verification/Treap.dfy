/**
 * The intrusive treap of queue.go: queued broadcasts ordered by (transmits ascending, length descending,
 * id descending), heap-ordered by priority. A ghost Tree value records the shape and what each linked node
 * holds; every operation is specified on the sorted sequence Elems(tree).
 */
module Treap {
  import opened Base

  datatype Kind = Named | Unique | Plain

  /** A Broadcast behind its interface: which object it is, and which optional interfaces it implements. */
  datatype Broadcast = Broadcast(handle: nat, kind: Kind, name: string)

  datatype Key = Key(transmits: int, msgLen: int, id: int)

  predicate Less(a: Key, b: Key) {
    if a.transmits != b.transmits then a.transmits < b.transmits
    else if a.msgLen != b.msgLen then a.msgLen > b.msgLen
    else a.id > b.id
  }

  class LimitedBroadcast {
    var transmits: int
    const msgLen: int
    const id: int
    const b: Broadcast
    const name: string
    var left: LimitedBroadcast?
    var right: LimitedBroadcast?
    var prio: nat

    constructor (transmits: int, msgLen: int, id: int, b: Broadcast, name: string)
      ensures this.transmits == transmits && this.msgLen == msgLen && this.id == id && this.b == b && this.name == name
    {
      this.transmits, this.msgLen, this.id, this.b, this.name := transmits, msgLen, id, b, name;
      left, right, prio := null, null, 0;
    }

    function Held(): Item
      reads this
    {
      Item(this, transmits)
    }
  }

  /** A node together with the one part of its key that changes while it lives. */
  datatype Item = Item(node: LimitedBroadcast, transmits: int) {
    function AsKey(): Key { Key(transmits, node.msgLen, node.id) }
  }

  predicate Before(x: Item, y: Item) { Less(x.AsKey(), y.AsKey()) }

  datatype Tree = Leaf | Node(left: Tree, item: Item, prio: nat, right: Tree)

  function Elems(s: Tree): seq<Item> {
    if s.Leaf? then [] else Elems(s.left) + [s.item] + Elems(s.right)
  }

  function Nodes(s: Tree): set<LimitedBroadcast> {
    if s.Leaf? then {} else Nodes(s.left) + {s.item.node} + Nodes(s.right)
  }

  predicate Sorted(es: seq<Item>) {
    forall i, j :: 0 <= i < j < |es| ==> Before(es[i], es[j])
  }

  predicate Under(s: Tree, p: nat) { s.Leaf? || s.prio <= p }

  predicate Heap(s: Tree) {
    s.Node? ==> Under(s.left, s.prio) && Under(s.right, s.prio) && Heap(s.left) && Heap(s.right)
  }

  /** The pointers below t have exactly the shape s, and no node occurs twice. */
  ghost predicate Tied(t: LimitedBroadcast?, s: Tree)
    reads Nodes(s)
    decreases s
  {
    match s
    case Leaf => t == null
    case Node(l, x, p, r) =>
      && t == x.node && t.Held() == x && t.prio == p
      && t !in Nodes(l) && t !in Nodes(r) && Nodes(l) !! Nodes(r)
      && Tied(t.left, l) && Tied(t.right, r)
  }

  ghost predicate AllBefore(es: seq<Item>, k: Key) { forall x :: x in es ==> Less(x.AsKey(), k) }

  ghost predicate NoneBefore(es: seq<Item>, k: Key) { forall x :: x in es ==> !Less(x.AsKey(), k) }

  lemma AroundPivot(es: seq<Item>, n: nat)
    requires n < |es| && Sorted(es)
    ensures forall x :: x in es[..n] ==> Before(x, es[n])
    ensures forall x :: x in es[n + 1..] ==> Before(es[n], x)
  {
    forall x | x in es[..n] ensures Before(x, es[n]) {
      var i :| 0 <= i < n && es[i] == x;
    }
    forall x | x in es[n + 1..] ensures Before(es[n], x) {
      var i :| 0 <= i < |es| - n - 1 && es[n + 1..][i] == x;
      assert es[n + 1 + i] == x;
    }
  }

  lemma SortedParts(s: Tree)
    requires s.Node? && Sorted(Elems(s))
    ensures Sorted(Elems(s.left)) && Sorted(Elems(s.right))
    ensures AllBefore(Elems(s.left), s.item.AsKey())
    ensures forall x :: x in Elems(s.right) ==> Before(s.item, x)
  {
    var es, n := Elems(s), |Elems(s.left)|;
    assert es[n] == s.item && es[..n] == Elems(s.left) && es[n + 1..] == Elems(s.right);
    AroundPivot(es, n);
  }

  /** What the linked nodes hold is what the sequence lists. */
  lemma {:induction false} HeldIsListed(t: LimitedBroadcast?, s: Tree)
    requires Tied(t, s)
    ensures forall n :: n in Nodes(s) ==> n.Held() in Elems(s)
    ensures forall x :: x in Elems(s) ==> x.node in Nodes(s) && x == x.node.Held()
    decreases s
  {
    if s.Node? {
      HeldIsListed(t.left, s.left);
      HeldIsListed(t.right, s.right);
    }
  }

  /** The order tells on which side of the root a linked node is. */
  lemma SideOf(t: LimitedBroadcast, x: LimitedBroadcast, s: Tree)
    requires Tied(t, s) && Sorted(Elems(s)) && x in Nodes(s) && x != t
    ensures Sorted(Elems(s.left)) && Sorted(Elems(s.right))
    ensures x in if Before(x.Held(), t.Held()) then Nodes(s.left) else Nodes(s.right)
  {
    SortedParts(s);
    HeldIsListed(t.left, s.left);
    HeldIsListed(t.right, s.right);
  }

  // The shapes the four operations produce.

  function SplitShape(s: Tree, k: Key): (r: (Tree, Tree))
    ensures Nodes(r.0) + Nodes(r.1) == Nodes(s)
  {
    if s.Leaf? then (Leaf, Leaf)
    else if Less(s.item.AsKey(), k) then
      var r := SplitShape(s.right, k);
      (Node(s.left, s.item, s.prio, r.0), r.1)
    else
      var r := SplitShape(s.left, k);
      (r.0, Node(r.1, s.item, s.prio, s.right))
  }

  function InsertShape(s: Tree, x: Item, p: nat): (r: Tree)
    ensures Nodes(r) == Nodes(s) + {x.node}
  {
    if s.Leaf? then Node(Leaf, x, p, Leaf)
    else if p > s.prio then
      var r := SplitShape(s, x.AsKey());
      Node(r.0, x, p, r.1)
    else if Before(x, s.item) then Node(InsertShape(s.left, x, p), s.item, s.prio, s.right)
    else Node(s.left, s.item, s.prio, InsertShape(s.right, x, p))
  }

  function MergeShape(lo: Tree, hi: Tree): (r: Tree)
    ensures Nodes(r) == Nodes(lo) + Nodes(hi)
  {
    if lo.Leaf? then hi
    else if hi.Leaf? then lo
    else if lo.prio > hi.prio then Node(lo.left, lo.item, lo.prio, MergeShape(lo.right, hi))
    else Node(MergeShape(lo, hi.left), hi.item, hi.prio, hi.right)
  }

  function DeleteShape(s: Tree, x: Item): (r: Tree)
    ensures Nodes(r) <= Nodes(s)
  {
    if s.Leaf? then Leaf
    else if s.item.node == x.node then MergeShape(s.left, s.right)
    else if Before(x, s.item) then Node(DeleteShape(s.left, x), s.item, s.prio, s.right)
    else Node(s.left, s.item, s.prio, DeleteShape(s.right, x))
  }

  /** Splitting cuts the sorted sequence at k. */
  lemma SplitCuts(s: Tree, k: Key)
    requires Sorted(Elems(s)) && Heap(s)
    ensures var r := SplitShape(s, k);
            && Elems(r.0) + Elems(r.1) == Elems(s) && AllBefore(Elems(r.0), k) && NoneBefore(Elems(r.1), k)
            && Heap(r.0) && Heap(r.1) && forall p :: Under(s, p) ==> Under(r.0, p) && Under(r.1, p)
  {
    SplitKeeps(s, k);
    SplitSeparates(s, k);
  }

  lemma {:induction false} SplitKeeps(s: Tree, k: Key)
    requires Heap(s)
    ensures var r := SplitShape(s, k);
            && Elems(r.0) + Elems(r.1) == Elems(s)
            && Heap(r.0) && Heap(r.1) && forall p :: Under(s, p) ==> Under(r.0, p) && Under(r.1, p)
  {
    if s.Node? {
      if Less(s.item.AsKey(), k) {
        SplitKeeps(s.right, k);
      } else {
        SplitKeeps(s.left, k);
      }
    }
  }

  lemma {:induction false} SplitSeparates(s: Tree, k: Key)
    requires Sorted(Elems(s))
    ensures AllBefore(Elems(SplitShape(s, k).0), k) && NoneBefore(Elems(SplitShape(s, k).1), k)
  {
    if s.Node? {
      SortedParts(s);
      if Less(s.item.AsKey(), k) {
        SplitSeparates(s.right, k);
      } else {
        SplitSeparates(s.left, k);
      }
    }
  }

  /** Where x goes in a sorted sequence. */
  function Place(es: seq<Item>, x: Item): seq<Item> {
    if es == [] || !Before(es[0], x) then [x] + es else [es[0]] + Place(es[1..], x)
  }

  lemma {:induction false} PlaceBetween(a: seq<Item>, b: seq<Item>, x: Item)
    requires AllBefore(a, x.AsKey()) && NoneBefore(b, x.AsKey())
    ensures Place(a + b, x) == a + [x] + b
  {
    if a == [] {
      assert a + b == b;
    } else {
      assert (a + b)[1..] == a[1..] + b;
      PlaceBetween(a[1..], b, x);
    }
  }

  lemma {:induction false} PlaceLeft(a: seq<Item>, y: Item, b: seq<Item>, x: Item)
    requires Before(x, y)
    ensures Place(a + [y] + b, x) == Place(a, x) + [y] + b
  {
    if a == [] {
      assert a + [y] + b == [y] + b;
    } else {
      assert (a + [y] + b)[1..] == a[1..] + [y] + b;
      PlaceLeft(a[1..], y, b, x);
    }
  }

  lemma {:induction false} PlaceRight(a: seq<Item>, y: Item, b: seq<Item>, x: Item)
    requires AllBefore(a, x.AsKey()) && Before(y, x)
    ensures Place(a + [y] + b, x) == a + [y] + Place(b, x)
  {
    if a == [] {
      assert a + [y] + b == [y] + b;
      assert ([y] + b)[1..] == b;
    } else {
      assert (a + [y] + b)[1..] == a[1..] + [y] + b;
      PlaceRight(a[1..], y, b, x);
    }
  }

  /** No entry shares x's key: ids are unique among queued entries. */
  ghost predicate Apart(es: seq<Item>, x: Item) { forall y :: y in es ==> y.AsKey() != x.AsKey() }

  /** Inserting puts x in its place, whatever its priority. */
  lemma {:induction false} InsertPlaces(s: Tree, x: Item, p: nat)
    requires Sorted(Elems(s)) && Heap(s) && Apart(Elems(s), x)
    ensures var r := InsertShape(s, x, p);
            Elems(r) == Place(Elems(s), x) && Heap(r) && forall q :: Under(s, q) && p <= q ==> Under(r, q)
  {
    if s.Node? {
      if p > s.prio {
        SplitCuts(s, x.AsKey());
        var r := SplitShape(s, x.AsKey());
        PlaceBetween(Elems(r.0), Elems(r.1), x);
      } else {
        SortedParts(s);
        if Before(x, s.item) {
          InsertPlaces(s.left, x, p);
          PlaceLeft(Elems(s.left), s.item, Elems(s.right), x);
        } else {
          InsertPlaces(s.right, x, p);
          assert s.item in Elems(s);
          PlaceRight(Elems(s.left), s.item, Elems(s.right), x);
        }
      }
    }
  }

  lemma PrependSorts(x: Item, es: seq<Item>)
    requires Sorted(es) && (es != [] ==> Before(x, es[0]))
    ensures Sorted([x] + es)
  {
  }

  /** What comes first after placing x is x, or what came first before. */
  lemma PlaceHead(es: seq<Item>, x: Item)
    ensures Place(es, x) != [] && (Place(es, x)[0] == x || (es != [] && Place(es, x)[0] == es[0]))
  {
  }

  /** Placing keeps the order and adds exactly x. */
  lemma {:induction false} PlaceSorts(es: seq<Item>, x: Item)
    requires Sorted(es) && Apart(es, x)
    ensures Sorted(Place(es, x)) && multiset(Place(es, x)) == multiset(es) + multiset{x}
    ensures |Place(es, x)| == |es| + 1
  {
    if es == [] || !Before(es[0], x) {
      PrependSorts(x, es);
    } else {
      assert es == [es[0]] + es[1..];
      PlaceSorts(es[1..], x);
      PlaceHead(es[1..], x);
      PrependSorts(es[0], Place(es[1..], x));
    }
  }

  /** Merging concatenates. */
  lemma {:induction false} MergeConcatenates(lo: Tree, hi: Tree)
    requires Heap(lo) && Heap(hi)
    ensures var r := MergeShape(lo, hi);
            Elems(r) == Elems(lo) + Elems(hi) && Heap(r) && forall p :: Under(lo, p) && Under(hi, p) ==> Under(r, p)
  {
    MergeElems(lo, hi);
    MergeHeap(lo, hi);
  }

  lemma {:induction false} MergeElems(lo: Tree, hi: Tree)
    ensures Elems(MergeShape(lo, hi)) == Elems(lo) + Elems(hi)
  {
    if lo.Node? && hi.Node? {
      if lo.prio > hi.prio {
        MergeElems(lo.right, hi);
      } else {
        MergeElems(lo, hi.left);
      }
    }
  }

  lemma {:induction false} MergeHeap(lo: Tree, hi: Tree)
    requires Heap(lo) && Heap(hi)
    ensures Heap(MergeShape(lo, hi)) && forall p :: Under(lo, p) && Under(hi, p) ==> Under(MergeShape(lo, hi), p)
  {
    if lo.Node? && hi.Node? {
      if lo.prio > hi.prio {
        MergeHeap(lo.right, hi);
      } else {
        MergeHeap(lo, hi.left);
      }
    }
  }

  function Cut<T>(es: seq<T>, i: nat): seq<T>
    requires i < |es|
  {
    es[..i] + es[i + 1..]
  }

  lemma CutMiddle<T>(a: seq<T>, x: T, b: seq<T>, i: nat)
    requires i <= |a| + |b|
    ensures i < |a| ==> Cut(a + [x] + b, i) == Cut(a, i) + [x] + b && (a + [x] + b)[i] == a[i]
    ensures i == |a| ==> Cut(a + [x] + b, i) == a + b && (a + [x] + b)[i] == x
    ensures i > |a| ==> Cut(a + [x] + b, i) == a + [x] + Cut(b, i - |a| - 1) && (a + [x] + b)[i] == b[i - |a| - 1]
  {
  }

  /** Deleting a linked entry removes exactly that entry. */
  lemma {:induction false} DeleteRemoves(s: Tree, x: Item, i: nat)
    requires Sorted(Elems(s)) && Heap(s) && i < |Elems(s)| && Elems(s)[i] == x
    requires forall y :: y in Elems(s) && y.node == x.node ==> y == x
    ensures var r := DeleteShape(s, x);
            Elems(r) == Cut(Elems(s), i) && Heap(r) && forall p :: Under(s, p) ==> Under(r, p)
  {
    SortedParts(s);
    var n := |Elems(s.left)|;
    CutMiddle(Elems(s.left), s.item, Elems(s.right), i);
    assert s.item == Elems(s)[n] && s.item in Elems(s);
    if i == n {
      MergeConcatenates(s.left, s.right);
    } else if i < n {
      assert x == Elems(s.left)[i];
      DeleteRemoves(s.left, x, i);
    } else {
      assert x == Elems(s.right)[i - n - 1] && Before(s.item, x);
      DeleteRemoves(s.right, x, i - n - 1);
    }
  }

  // The pointer operations build exactly those shapes.

  /** A shape in hand mentions allocated nodes only. */
  lemma {:induction false} ShapeAllocated(s: Tree)
    ensures forall n :: n in Nodes(s) ==> allocated(n)
  {
    if s.Node? {
      ShapeAllocated(s.left);
      ShapeAllocated(s.right);
    }
  }

  /** Hang l under t on the left. */
  method LinkLeft(t: LimitedBroadcast, l: LimitedBroadcast?, ghost s: Tree, ghost u: Tree)
    requires s.Node? && t == s.item.node && t.Held() == s.item && t.prio == s.prio && Tied(t.right, s.right) &&
             Tied(l, u)
    requires t !in Nodes(u) && t !in Nodes(s.right) && Nodes(u) !! Nodes(s.right)
    modifies t`left
    ensures Tied(t, Node(u, s.item, s.prio, s.right))
  {
    ShapeAllocated(s);
    ShapeAllocated(u);
    t.left := l;
  }

  /** Hang r under t on the right. */
  method LinkRight(t: LimitedBroadcast, r: LimitedBroadcast?, ghost s: Tree, ghost u: Tree)
    requires s.Node? && t == s.item.node && t.Held() == s.item && t.prio == s.prio && Tied(t.left, s.left) && Tied(r, u)
    requires t !in Nodes(u) && t !in Nodes(s.left) && Nodes(u) !! Nodes(s.left)
    modifies t`right
    ensures Tied(t, Node(s.left, s.item, s.prio, u))
  {
    ShapeAllocated(s);
    ShapeAllocated(u);
    t.right := r;
  }

  /** treapSplit */
  method Split(t: LimitedBroadcast?, k: Key, ghost s: Tree) returns (lo: LimitedBroadcast?, hi: LimitedBroadcast?)
    requires Tied(t, s)
    modifies Nodes(s)
    ensures Tied(lo, SplitShape(s, k).0) && Tied(hi, SplitShape(s, k).1)
    ensures Nodes(SplitShape(s, k).0) !! Nodes(SplitShape(s, k).1)
    decreases s
  {
    if t == null {
      return null, null;
    }
    ShapeAllocated(s);
    if Less(t.Held().AsKey(), k) {
      var r;
      r, hi := Split(t.right, k, s.right);
      ShapeAllocated(SplitShape(s.right, k).1);
      LinkRight(t, r, s, SplitShape(s.right, k).0);
      lo := t;
    } else {
      var l;
      lo, l := Split(t.left, k, s.left);
      ShapeAllocated(SplitShape(s.left, k).0);
      LinkLeft(t, l, s, SplitShape(s.left, k).1);
      hi := t;
    }
  }

  /** The branch of treapInsert where x becomes the root. */
  method InsertAtRoot(t: LimitedBroadcast, x: LimitedBroadcast, ghost s: Tree)
    requires Tied(t, s) && x !in Nodes(s)
    modifies Nodes(s), x`left, x`right
    ensures var r := SplitShape(s, x.Held().AsKey()); Tied(x, Node(r.0, x.Held(), x.prio, r.1))
  {
    ShapeAllocated(s);
    var lo, hi := Split(t, x.Held().AsKey(), s);
    ghost var r := SplitShape(s, x.Held().AsKey());
    ShapeAllocated(r.0);
    ShapeAllocated(r.1);
    x.left, x.right := lo, hi;
  }

  /** treapInsert */
  method Insert(t: LimitedBroadcast?, x: LimitedBroadcast, ghost s: Tree) returns (root: LimitedBroadcast)
    requires Tied(t, s) && x !in Nodes(s)
    modifies Nodes(s), x`left, x`right
    ensures Tied(root, InsertShape(s, x.Held(), x.prio))
    decreases s
  {
    if t == null {
      x.left, x.right := null, null;
      return x;
    }
    if x.prio > t.prio {
      InsertAtRoot(t, x, s);
      return x;
    }
    ShapeAllocated(s);
    if Before(x.Held(), t.Held()) {
      var l := Insert(t.left, x, s.left);
      LinkLeft(t, l, s, InsertShape(s.left, x.Held(), x.prio));
    } else {
      var r := Insert(t.right, x, s.right);
      LinkRight(t, r, s, InsertShape(s.right, x.Held(), x.prio));
    }
    return t;
  }

  /** treapMerge */
  method Merge(lo: LimitedBroadcast?, hi: LimitedBroadcast?, ghost a: Tree, ghost b: Tree)
    returns (root: LimitedBroadcast?)
    requires Tied(lo, a) && Tied(hi, b) && Nodes(a) !! Nodes(b)
    modifies Nodes(a), Nodes(b)
    ensures Tied(root, MergeShape(a, b))
    decreases a, b
  {
    if lo == null {
      return hi;
    }
    if hi == null {
      return lo;
    }
    ShapeAllocated(a);
    ShapeAllocated(b);
    if lo.prio > hi.prio {
      var r := Merge(lo.right, hi, a.right, b);
      LinkRight(lo, r, a, MergeShape(a.right, b));
      return lo;
    } else {
      var l := Merge(lo, hi.left, a, b.left);
      LinkLeft(hi, l, b, MergeShape(a, b.left));
      return hi;
    }
  }

  /** treapDelete; x keeps its key. */
  method Delete(t: LimitedBroadcast, x: LimitedBroadcast, ghost s: Tree) returns (root: LimitedBroadcast?)
    requires Tied(t, s) && Sorted(Elems(s)) && x in Nodes(s)
    modifies Nodes(s)
    ensures Tied(root, DeleteShape(s, old(x.Held()))) && x.Held() == old(x.Held())
    ensures x !in Nodes(DeleteShape(s, old(x.Held())))
    decreases s
  {
    ShapeAllocated(s);
    ghost var y := x.Held();
    if t == x {
      root := Merge(t.left, t.right, s.left, s.right);
      ShapeAllocated(MergeShape(s.left, s.right));
      x.left, x.right := null, null;
      return;
    }
    SideOf(t, x, s);
    if Before(x.Held(), t.Held()) {
      var l := Delete(t.left, x, s.left);
      LinkLeft(t, l, s, DeleteShape(s.left, y));
    } else {
      var r := Delete(t.right, x, s.right);
      LinkRight(t, r, s, DeleteShape(s.right, y));
    }
    return t;
  }

  // Queries.

  /** x lies before the probe k; with `after`, at or before it. */
  predicate Skips(x: Item, k: Key, after: bool) {
    if after then !Less(k, x.AsKey()) else Less(x.AsKey(), k)
  }

  /** The sequence from the probe on. */
  function From(es: seq<Item>, k: Key, after: bool): seq<Item> {
    if es != [] && Skips(es[0], k, after) then From(es[1..], k, after) else es
  }

  lemma {:induction false} FromAt(l: seq<Item>, x: Item, r: seq<Item>, k: Key, after: bool)
    requires AllBefore(l, x.AsKey())
    ensures From(l + [x] + r, k, after) == if Skips(x, k, after) then From(r, k, after) else From(l, k, after) + [x] + r
  {
    if l == [] {
      assert l + [x] + r == [x] + r;
      assert ([x] + r)[1..] == r;
    } else {
      assert (l + [x] + r)[1..] == l[1..] + [x] + r;
      assert l[0] in l;
      FromAt(l[1..], x, r, k, after);
    }
  }

  function First(es: seq<Item>, otherwise: LimitedBroadcast?): LimitedBroadcast? {
    if es == [] then otherwise else es[0].node
  }

  /** treapCeil: the first entry not before k. */
  method Ceil(root: LimitedBroadcast?, k: Key, ghost s: Tree) returns (best: LimitedBroadcast?)
    requires Tied(root, s) && Sorted(Elems(s))
    ensures best == First(From(Elems(s), k, false), null)
  {
    best := null;
    var t := root;
    ghost var u := s;
    while t != null
      invariant Tied(t, u) && Sorted(Elems(u))
      invariant First(From(Elems(u), k, false), best) == First(From(Elems(s), k, false), null)
      decreases u
    {
      SortedParts(u);
      FromAt(Elems(u.left), u.item, Elems(u.right), k, false);
      if Less(t.Held().AsKey(), k) {
        t, u := t.right, u.right;
      } else {
        best, t, u := t, t.left, u.left;
      }
    }
  }

  /** treapNext: the first entry after k. */
  method Next(root: LimitedBroadcast?, k: Key, ghost s: Tree) returns (best: LimitedBroadcast?)
    requires Tied(root, s) && Sorted(Elems(s))
    ensures best == First(From(Elems(s), k, true), null)
  {
    best := null;
    var t := root;
    ghost var u := s;
    while t != null
      invariant Tied(t, u) && Sorted(Elems(u))
      invariant First(From(Elems(u), k, true), best) == First(From(Elems(s), k, true), null)
      decreases u
    {
      SortedParts(u);
      FromAt(Elems(u.left), u.item, Elems(u.right), k, true);
      if Less(k, t.Held().AsKey()) {
        best, t, u := t, t.left, u.left;
      } else {
        t, u := t.right, u.right;
      }
    }
  }

  /** treapMin */
  method Min(root: LimitedBroadcast?, ghost s: Tree) returns (t: LimitedBroadcast?)
    requires Tied(root, s)
    ensures t == First(Elems(s), null)
  {
    t := root;
    ghost var u := s;
    while t != null && t.left != null
      invariant Tied(t, u) && First(Elems(u), null) == First(Elems(s), null)
      decreases u
    {
      t, u := t.left, u.left;
    }
  }

  function Last(es: seq<Item>): LimitedBroadcast? {
    if es == [] then null else es[|es| - 1].node
  }

  /** treapMax */
  method Max(root: LimitedBroadcast?, ghost s: Tree) returns (t: LimitedBroadcast?)
    requires Tied(root, s)
    ensures t == Last(Elems(s))
  {
    t := root;
    ghost var u := s;
    while t != null && t.right != null
      invariant Tied(t, u) && Last(Elems(u)) == Last(Elems(s))
      decreases u
    {
      t, u := t.right, u.right;
    }
  }

  /** The nodes a callback sees: up to and including the first it refuses. */
  function UpTo(es: seq<Item>, f: LimitedBroadcast -> bool): seq<LimitedBroadcast> {
    if es == [] then [] else if f(es[0].node) then [es[0].node] + UpTo(es[1..], f) else [es[0].node]
  }

  /** What the stacked nodes still have to give: each one, then its right side. */
  function Unwind(us: seq<Tree>): seq<Item>
    requires forall u :: u in us ==> u.Node?
  {
    if us == [] then [] else var u := us[|us| - 1]; [u.item] + Elems(u.right) + Unwind(us[..|us| - 1])
  }

  function Begin(es: seq<Item>, k: Option<Key>): seq<Item> {
    if k.None? then es else From(es, k.value, false)
  }

  /** What an ascending walk at u, with the stack us, still has to visit. */
  function Ahead(u: Tree, k: Option<Key>, us: seq<Tree>): seq<Item>
    requires forall w :: w in us ==> w.Node?
  {
    Begin(Elems(u), k) + Unwind(us)
  }

  lemma AheadRight(u: Tree, k: Key, us: seq<Tree>)
    requires u.Node? && Sorted(Elems(u)) && Less(u.item.AsKey(), k) && forall w :: w in us ==> w.Node?
    ensures Ahead(u.right, Some(k), us) == Ahead(u, Some(k), us)
  {
    SortedParts(u);
    FromAt(Elems(u.left), u.item, Elems(u.right), k, false);
  }

  lemma AheadPush(u: Tree, k: Option<Key>, us: seq<Tree>)
    requires u.Node? && Sorted(Elems(u)) && forall w :: w in us ==> w.Node?
    requires k.Some? ==> !Less(u.item.AsKey(), k.value)
    ensures Ahead(u.left, k, us + [u]) == Ahead(u, k, us)
    ensures |Elems(u.left)| + |Unwind(us + [u])| == |Elems(u)| + |Unwind(us)|
  {
    UnwindPush(us, u);
    BeginAt(u, k);
    Regroup(Begin(Elems(u.left), k), u.item, Elems(u.right), Unwind(us));
  }

  lemma BeginAt(u: Tree, k: Option<Key>)
    requires u.Node? && Sorted(Elems(u)) && (k.Some? ==> !Less(u.item.AsKey(), k.value))
    ensures Begin(Elems(u), k) == Begin(Elems(u.left), k) + [u.item] + Elems(u.right)
  {
    if k.Some? {
      SortedParts(u);
      FromAt(Elems(u.left), u.item, Elems(u.right), k.value, false);
    }
  }

  lemma Regroup(a: seq<Item>, x: Item, b: seq<Item>, c: seq<Item>)
    ensures a + [x] + b + c == a + ([x] + b + c)
  {
  }

  lemma UnwindPush(us: seq<Tree>, u: Tree)
    requires u.Node? && forall w :: w in us ==> w.Node?
    ensures Unwind(us + [u]) == [u.item] + Elems(u.right) + Unwind(us)
  {
    assert (us + [u])[..|us|] == us;
  }

  lemma UnwindPop(us: seq<Tree>)
    requires us != [] && forall w :: w in us ==> w.Node?
    ensures var u, rest := us[|us| - 1], us[..|us| - 1]; Unwind(us) == [u.item] + Ahead(u.right, None, rest)
  {
  }

  /** The walk's pointers have the recorded shapes. */
  ghost predicate Walking(t: LimitedBroadcast?, u: Tree, stack: seq<LimitedBroadcast>, us: seq<Tree>)
    reads Nodes(u), set w, n | w in us && n in Nodes(w) :: n
  {
    && Tied(t, u) && Sorted(Elems(u)) && |stack| == |us|
    && (forall w :: w in us ==> w.Node?)
    && forall i :: 0 <= i < |us| ==> Tied(stack[i], us[i]) && Sorted(Elems(us[i]))
  }

  /** The inner loop of ascendFrom: stack the way down to the next entry. */
  method Lower(t0: LimitedBroadcast?, k: Option<Key>, stack0: seq<LimitedBroadcast>, ghost u0: Tree,
               ghost us0: seq<Tree>)
    returns (stack: seq<LimitedBroadcast>, ghost us: seq<Tree>)
    requires Walking(t0, u0, stack0, us0)
    ensures Walking(null, Leaf, stack, us)
    ensures Unwind(us) == Ahead(u0, k, us0) && |Unwind(us)| <= |Elems(u0)| + |Unwind(us0)|
  {
    var t := t0;
    ghost var u := u0;
    stack, us := stack0, us0;
    while t != null
      invariant Walking(t, u, stack, us)
      invariant Ahead(u, k, us) == Ahead(u0, k, us0)
      invariant |Elems(u)| + |Unwind(us)| <= |Elems(u0)| + |Unwind(us0)|
      decreases u
    {
      SortedParts(u);
      if k.Some? && Less(t.Held().AsKey(), k.value) {
        AheadRight(u, k.value, us);
        t, u := t.right, u.right;
        continue;
      }
      AheadPush(u, k, us);
      stack, us := stack + [t], us + [u];
      t, u := t.left, u.left;
    }
  }

  /** Take the next entry off the stack. */
  method Raise(stack: seq<LimitedBroadcast>, ghost us: seq<Tree>)
    returns (t: LimitedBroadcast, rest: seq<LimitedBroadcast>, ghost u: Tree, ghost ws: seq<Tree>, ghost x: Item)
    requires Walking(null, Leaf, stack, us) && |stack| > 0
    ensures Walking(t.right, u, rest, ws) && x.node == t
    ensures Unwind(us) == [x] + Ahead(u, None, ws)
  {
    UnwindPop(us);
    ghost var top := us[|us| - 1];
    t := stack[|stack| - 1];
    assert Tied(t, top) && Sorted(Elems(top));
    SortedParts(top);
    rest, u, ws, x := stack[..|stack| - 1], top.right, us[..|us| - 1], top.item;
  }

  lemma UpToNext(seen: seq<LimitedBroadcast>, x: Item, rest: seq<Item>, f: LimitedBroadcast -> bool)
    ensures seen + UpTo([x] + rest, f) == seen + [x.node] + if f(x.node) then UpTo(rest, f) else []
  {
  }

  /** ascendFrom: the callback sees, in order, the entries not before k until it refuses one. */
  method AscendFrom(root: LimitedBroadcast?, from: Option<Key>, f: LimitedBroadcast -> bool, ghost s: Tree)
    returns (seen: seq<LimitedBroadcast>)
    requires Tied(root, s) && Sorted(Elems(s))
    ensures seen == UpTo(Begin(Elems(s), from), f)
  {
    seen := [];
    var t, k, stack := root, from, [];
    ghost var u, us: seq<Tree> := s, [];
    ghost var all := UpTo(Begin(Elems(s), from), f);
    assert Ahead(u, k, us) == Begin(Elems(s), from);
    while t != null || |stack| > 0
      invariant Walking(t, u, stack, us)
      invariant seen + UpTo(Ahead(u, k, us), f) == all
      decreases |Elems(u)| + |Unwind(us)|
    {
      stack, us := Lower(t, k, stack, u, us);
      if |stack| == 0 {
        return;
      }
      var n;
      ghost var x;
      n, stack, u, us, x := Raise(stack, us);
      UpToNext(seen, x, Ahead(u, None, us), f);
      seen := seen + [n];
      if !f(n) {
        return;
      }
      t, k := n.right, None;
    }
  }

  function Backward(es: seq<Item>): seq<Item> {
    seq(|es|, i requires 0 <= i < |es| => es[|es| - 1 - i])
  }

  function UnwindDown(us: seq<Tree>): seq<Item>
    requires forall u :: u in us ==> u.Node?
  {
    if us == [] then [] else var u := us[|us| - 1]; [u.item] + Backward(Elems(u.left)) + UnwindDown(us[..|us| - 1])
  }

  /** What a descending walk at u, with the stack us, still has to visit. */
  function Behind(u: Tree, us: seq<Tree>): seq<Item>
    requires forall w :: w in us ==> w.Node?
  {
    Backward(Elems(u)) + UnwindDown(us)
  }

  lemma BehindPush(u: Tree, us: seq<Tree>)
    requires u.Node? && forall w :: w in us ==> w.Node?
    ensures Behind(u.right, us + [u]) == Behind(u, us)
  {
  }

  method LowerRight(t0: LimitedBroadcast?, stack0: seq<LimitedBroadcast>, ghost u0: Tree, ghost us0: seq<Tree>)
    returns (stack: seq<LimitedBroadcast>, ghost us: seq<Tree>)
    requires Walking(t0, u0, stack0, us0)
    ensures Walking(null, Leaf, stack, us) && UnwindDown(us) == Behind(u0, us0)
  {
    var t := t0;
    ghost var u := u0;
    stack, us := stack0, us0;
    while t != null
      invariant Walking(t, u, stack, us) && Behind(u, us) == Behind(u0, us0)
      decreases u
    {
      SortedParts(u);
      BehindPush(u, us);
      stack, us := stack + [t], us + [u];
      t, u := t.right, u.right;
    }
  }

  method RaiseLeft(stack: seq<LimitedBroadcast>, ghost us: seq<Tree>)
    returns (t: LimitedBroadcast, rest: seq<LimitedBroadcast>, ghost u: Tree, ghost ws: seq<Tree>, ghost x: Item)
    requires Walking(null, Leaf, stack, us) && |stack| > 0
    ensures Walking(t.left, u, rest, ws) && x.node == t
    ensures UnwindDown(us) == [x] + Behind(u, ws)
  {
    ghost var top := us[|us| - 1];
    t := stack[|stack| - 1];
    assert Tied(t, top) && Sorted(Elems(top));
    SortedParts(top);
    rest, u, ws, x := stack[..|stack| - 1], top.left, us[..|us| - 1], top.item;
  }

  /** descend: the callback sees the entries from the last to the first until it refuses one. */
  method Descend(root: LimitedBroadcast?, f: LimitedBroadcast -> bool, ghost s: Tree)
    returns (seen: seq<LimitedBroadcast>)
    requires Tied(root, s) && Sorted(Elems(s))
    ensures seen == UpTo(Backward(Elems(s)), f)
  {
    seen := [];
    var t, stack := root, [];
    ghost var u, us: seq<Tree> := s, [];
    assert Behind(u, us) == Backward(Elems(s));
    while t != null || |stack| > 0
      invariant Walking(t, u, stack, us)
      invariant seen + UpTo(Behind(u, us), f) == UpTo(Backward(Elems(s)), f)
      decreases |Behind(u, us)|
    {
      stack, us := LowerRight(t, stack, u, us);
      var n;
      ghost var x;
      n, stack, u, us, x := RaiseLeft(stack, us);
      UpToNext(seen, x, Behind(u, us), f);
      seen := seen + [n];
      if !f(n) {
        return;
      }
      t := n.left;
    }
  }
}
