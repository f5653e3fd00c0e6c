/**
 The exact Mann-Whitney test of the benchmark comparer.

 An arrangement lists the pooled observations from smallest to largest, `true`
 for an observation of x. The dynamic programme of `exactU` is shown to count
 arrangements, and the ranking loop to compute the pair statistic, ties included.
 */
module MannWhitney {
  import opened Base

  type Arrangement = seq<bool>

  function Xs(a: Arrangement): nat { if a == [] then 0 else Xs(Init(a)) + (if Last(a) then 1 else 0) }

  function Ys(a: Arrangement): nat { if a == [] then 0 else Ys(Init(a)) + (if Last(a) then 0 else 1) }

  function Init<T>(a: seq<T>): seq<T> requires a != [] { a[..|a| - 1] }

  function Last<T>(a: seq<T>): T requires a != [] { a[|a| - 1] }

  /** The U statistic: every x counts the y's ranked below it. */
  function U(a: Arrangement): nat {
    if a == [] then 0 else U(Init(a)) + (if Last(a) then Ys(Init(a)) else 0)
  }

  /** The index pairs in which a y ranks below an x. */
  ghost function InvertedPairs(a: Arrangement): set<(nat, nat)> {
    set i: nat, j: nat | i < j < |a| && !a[i] && a[j] :: (i, j)
  }

  /** The positions of the y's. */
  ghost function YPositions(a: Arrangement): set<nat> { set i: nat | i < |a| && !a[i] }

  lemma {:induction false} YsCountsPositions(a: Arrangement)
    ensures Ys(a) == |YPositions(a)|
  {
    if a != [] {
      YsCountsPositions(Init(a));
      var n := |a| - 1;
      assert YPositions(a) == YPositions(Init(a)) + (if a[n] then {} else {n});
    }
  }

  ghost function PairedWith(s: set<nat>, n: nat): set<(nat, nat)> { set i | i in s :: (i, n) }

  lemma {:induction false} PairedWithCard(s: set<nat>, n: nat)
    ensures |PairedWith(s, n)| == |s|
  {
    if s != {} {
      var x :| x in s;
      PairedWithCard(s - {x}, n);
      assert PairedWith(s, n) == PairedWith(s - {x}, n) + {(x, n)};
      assert (x, n) !in PairedWith(s - {x}, n);
    }
  }

  /** A largest item adds one pair per y below it if it is an x, and none if it is a y. */
  lemma PairsByLargest(p: Arrangement, x: bool)
    ensures InvertedPairs(p + [x]) == InvertedPairs(p) + (if x then PairedWith(YPositions(p), |p|) else {})
  {
  }

  /** U is the number of pairs where x ranks above y. */
  lemma {:induction false} UCountsPairs(a: Arrangement)
    ensures U(a) == |InvertedPairs(a)|
  {
    if a == [] {
      assert InvertedPairs(a) == {};
    } else {
      var p := Init(a);
      assert a == p + [Last(a)];
      UCountsPairs(p);
      PairsByLargest(p, Last(a));
      YsCountsPositions(p);
      PairedWithCard(YPositions(p), |p|);
      assert InvertedPairs(p) !! PairedWith(YPositions(p), |p|);
    }
  }

  // ---------------------------------------------------------------- arrangements

  ghost function Extend(s: set<Arrangement>, b: bool): set<Arrangement> { set a | a in s :: a + [b] }

  ghost function Lists(n: nat): set<Arrangement> {
    if n == 0 then {[]} else Extend(Lists(n - 1), true) + Extend(Lists(n - 1), false)
  }

  /** All arrangements of i x's and j y's. */
  ghost function Arrangements(i: nat, j: nat): set<Arrangement> { set a | a in Lists(i + j) && Xs(a) == i }

  lemma {:induction false} InLists(n: nat, a: Arrangement)
    ensures a in Lists(n) <==> |a| == n
    decreases |a|
  {
    if a != [] && n > 0 {
      InLists(n - 1, Init(a));
      InExtend(Lists(n - 1), a);
      NotInExtend(Lists(n - 1), a, !Last(a));
    }
  }

  lemma {:induction false} XsAndYs(a: Arrangement)
    ensures Xs(a) + Ys(a) == |a|
  {
    if a != [] {
      XsAndYs(Init(a));
    }
  }

  lemma ArrangementsAreAll(i: nat, j: nat, a: Arrangement)
    ensures a in Arrangements(i, j) <==> Xs(a) == i && Ys(a) == j
  {
    InLists(i + j, a);
    XsAndYs(a);
  }

  lemma InExtend(s: set<Arrangement>, a: Arrangement)
    requires a != []
    ensures a in Extend(s, Last(a)) <==> Init(a) in s
  {
    assert a == Init(a) + [Last(a)];
    forall c | c in s && a == c + [Last(a)] ensures Init(a) == c {
    }
  }

  lemma NotInExtend(s: set<Arrangement>, a: Arrangement, b: bool)
    requires a != [] && Last(a) != b
    ensures a !in Extend(s, b)
  {
  }

  lemma {:induction false} ExtendCard(s: set<Arrangement>, b: bool)
    ensures |Extend(s, b)| == |s|
  {
    if s != {} {
      var x :| x in s;
      ExtendCard(s - {x}, b);
      assert Extend(s, b) == Extend(s - {x}, b) + {x + [b]};
      forall c | c in s - {x} ensures c + [b] != x + [b] {
        assert (c + [b])[..|c|] == c && (x + [b])[..|x|] == x;
      }
    }
  }

  /** The arrangements of i x's and j y's with U = k. */
  ghost function WithU(i: nat, j: nat, k: int): set<Arrangement> { set a | a in Arrangements(i, j) && U(a) == k }

  ghost function Ways(i: nat, j: nat, k: int): nat { |WithU(i, j, k)| }

  lemma OnlyYsStep(j: nat)
    requires j > 0
    ensures Arrangements(0, j) == Extend(Arrangements(0, j - 1), false)
  {
  }

  lemma {:induction false} OnlyYs(j: nat)
    ensures forall a :: a in Arrangements(0, j) ==> U(a) == 0
    ensures |Arrangements(0, j)| == 1
  {
    if j == 0 {
      assert Lists(0) == {[]} && Arrangements(0, 0) == {[]};
    } else {
      OnlyYs(j - 1);
      OnlyYsStep(j);
      ExtendKeepsZero(Arrangements(0, j - 1), Arrangements(0, j));
    }
  }

  lemma ExtendKeepsZero(s: set<Arrangement>, t: set<Arrangement>)
    requires t == Extend(s, false) && |s| == 1 && forall a :: a in s ==> U(a) == 0
    ensures |t| == 1 && forall a :: a in t ==> U(a) == 0
  {
    ExtendCard(s, false);
    forall a | a in t ensures U(a) == 0 {
      var c :| c in s && a == c + [false];
      assert Init(a) == c;
    }
  }

  /** With no x there is one arrangement, of U zero: the programme's first table. */
  lemma WaysWithoutX(j: nat, k: int)
    ensures Ways(0, j, k) == if k == 0 then 1 else 0
  {
    OnlyYs(j);
    if k == 0 {
      assert WithU(0, j, 0) == Arrangements(0, j);
    } else {
      assert WithU(0, j, k) == {};
    }
  }

  /** The largest item is an x above all j y's, or a y. */
  lemma WaysByLargest(i: nat, j: nat, k: int)
    requires i > 0
    ensures Ways(i, j, k) == Ways(i - 1, j, k - j) + (if j > 0 then Ways(i, j - 1, k) else 0)
  {
    var x, y := WithU(i - 1, j, k - j), if j > 0 then WithU(i, j - 1, k) else {};
    forall a ensures a in WithU(i, j, k) <==> a in Extend(x, true) || a in Extend(y, false) {
      SplitByLargest(i, j, k, a);
    }
    UnionCard(WithU(i, j, k), x, y);
  }

  lemma SplitByLargest(i: nat, j: nat, k: int, a: Arrangement)
    requires i > 0
    ensures a in WithU(i, j, k) <==>
              || a in Extend(WithU(i - 1, j, k - j), true)
              || (j > 0 && a in Extend(WithU(i, j - 1, k), false))
  {
    if a == [] {
      ArrangementsAreAll(i, j, a);
    } else {
      ArrangementsAreAll(i, j, a);
      ArrangementsAreAll(i - 1, j, Init(a));
      if j > 0 { ArrangementsAreAll(i, j - 1, Init(a)); }
      if Last(a) {
        InExtend(WithU(i - 1, j, k - j), a);
        if j > 0 { NotInExtend(WithU(i, j - 1, k), a, false); }
      } else {
        NotInExtend(WithU(i - 1, j, k - j), a, true);
        if j > 0 { InExtend(WithU(i, j - 1, k), a); }
      }
    }
  }

  // ---------------------------------------------------------------- total and symmetry

  lemma {:induction false} UBound(a: Arrangement)
    ensures U(a) <= Xs(a) * Ys(a)
  {
    if a != [] {
      UBound(Init(a));
      if Last(a) {
        assert (Xs(Init(a)) + 1) * Ys(a) == Xs(Init(a)) * Ys(a) + Ys(a);
      } else {
        assert Xs(a) * (Ys(Init(a)) + 1) == Xs(a) * Ys(Init(a)) + Xs(a);
      }
    }
  }

  /** Pascal's triangle. */
  function Choose(n: nat, k: nat): nat {
    if k == 0 then 1 else if n == 0 then 0 else Choose(n - 1, k - 1) + Choose(n - 1, k)
  }

  lemma {:induction false} ChooseAll(n: nat, k: nat)
    ensures k > n ==> Choose(n, k) == 0
    ensures k == n ==> Choose(n, k) == 1
  {
    if n > 0 && k > 0 {
      ChooseAll(n - 1, k - 1);
      ChooseAll(n - 1, k);
    }
  }

  lemma {:induction false} ChooseByLargest(i: nat, j: nat)
    requires i > 0
    ensures Choose(i + j, i) == Choose(i - 1 + j, i - 1) + (if j > 0 then Choose(i + (j - 1), i) else 0)
  {
    assert i + j - 1 == i - 1 + j;
    ChooseAll(i - 1 + j, i);
  }

  /** Splitting by the largest item, without regard to U. */
  lemma SplitAll(i: nat, j: nat, a: Arrangement)
    requires i > 0
    ensures a in Arrangements(i, j) <==>
              a in Extend(Arrangements(i - 1, j), true) || (j > 0 && a in Extend(Arrangements(i, j - 1), false))
  {
    ArrangementsAreAll(i, j, a);
    if a != [] {
      ArrangementsAreAll(i - 1, j, Init(a));
      if j > 0 { ArrangementsAreAll(i, j - 1, Init(a)); }
      if Last(a) {
        InExtend(Arrangements(i - 1, j), a);
        if j > 0 { NotInExtend(Arrangements(i, j - 1), a, false); }
      } else {
        NotInExtend(Arrangements(i - 1, j), a, true);
        if j > 0 { InExtend(Arrangements(i, j - 1), a); }
      }
    }
  }

  lemma UnionCard(s: set<Arrangement>, x: set<Arrangement>, y: set<Arrangement>)
    requires forall a :: a in s <==> a in Extend(x, true) || a in Extend(y, false)
    ensures |s| == |x| + |y|
  {
    ExtendCard(x, true);
    ExtendCard(y, false);
    assert s == Extend(x, true) + Extend(y, false);
    forall a | a in Extend(x, true) ensures a !in Extend(y, false) {
      NotInExtend(y, a, false);
    }
  }

  lemma TotalByLargest(i: nat, j: nat)
    requires i > 0
    ensures |Arrangements(i, j)| == |Arrangements(i - 1, j)| + (if j > 0 then |Arrangements(i, j - 1)| else 0)
  {
    var x, y := Arrangements(i - 1, j), if j > 0 then Arrangements(i, j - 1) else {};
    forall a ensures a in Arrangements(i, j) <==> a in Extend(x, true) || a in Extend(y, false) {
      SplitAll(i, j, a);
    }
    UnionCard(Arrangements(i, j), x, y);
  }

  /** The count, by the largest item. */
  ghost function Total(i: nat, j: nat): nat {
    if i == 0 then 1 else Total(i - 1, j) + if j > 0 then Total(i, j - 1) else 0
  }

  lemma {:induction false} TotalIsCard(i: nat, j: nat)
    ensures |Arrangements(i, j)| == Total(i, j)
  {
    if i == 0 {
      OnlyYs(j);
    } else {
      TotalIsCard(i - 1, j);
      if j > 0 {
        TotalIsCard(i, j - 1);
      }
      TotalByLargest(i, j);
    }
  }

  lemma {:induction false} TotalIsChoose(i: nat, j: nat)
    ensures Total(i, j) == Choose(i + j, i)
  {
    if i > 0 {
      TotalIsChoose(i - 1, j);
      if j > 0 {
        TotalIsChoose(i, j - 1);
      }
      ChooseByLargest(i, j);
    }
  }

  /** There are C(i + j, i) arrangements. */
  lemma ArrangementsCount(i: nat, j: nat)
    ensures |Arrangements(i, j)| == Choose(i + j, i)
  {
    TotalIsCard(i, j);
    TotalIsChoose(i, j);
  }

  /** Arrangements whose U is below n and passes the test f. */
  ghost function Passing(i: nat, j: nat, n: nat, f: int -> bool): set<Arrangement> {
    set a | a in Arrangements(i, j) && U(a) < n && f(U(a))
  }

  function SumPassing(table: seq<nat>, f: int -> bool): nat {
    if table == [] then 0
    else SumPassing(Init(table), f) + (if f(|table| - 1) then Last(table) else 0)
  }

  predicate Always(k: int) { true }

  lemma {:induction false} SumCountsPassing(i: nat, j: nat, table: seq<nat>, f: int -> bool)
    requires forall k :: 0 <= k < |table| ==> table[k] == Ways(i, j, k)
    ensures SumPassing(table, f) == |Passing(i, j, |table|, f)|
  {
    if table == [] {
      assert Passing(i, j, 0, f) == {};
    } else {
      var k := |table| - 1;
      SumCountsPassing(i, j, Init(table), f);
      if f(k) {
        assert Passing(i, j, k + 1, f) == Passing(i, j, k, f) + WithU(i, j, k);
        assert Passing(i, j, k, f) !! WithU(i, j, k);
      } else {
        assert Passing(i, j, k + 1, f) == Passing(i, j, k, f);
      }
    }
  }

  ghost function Passed(s: set<Arrangement>, f: int -> bool): set<Arrangement> { set a | a in s && f(U(a)) }

  /** Every arrangement has some U between 0 and i * j. */
  lemma AllPass(i: nat, j: nat, f: int -> bool)
    ensures Passing(i, j, i * j + 1, f) == Passed(Arrangements(i, j), f)
  {
    forall a | a in Arrangements(i, j) ensures U(a) < i * j + 1 {
      ArrangementsAreAll(i, j, a);
      UBound(a);
    }
  }

  /** The distribution sums to C(i + j, i). */
  lemma WaysSum(i: nat, j: nat, table: seq<nat>)
    requires |table| == i * j + 1 && forall k :: 0 <= k < |table| ==> table[k] == Ways(i, j, k)
    ensures SumPassing(table, Always) == Choose(i + j, i)
  {
    SumCountsPassing(i, j, table, Always);
    AllPass(i, j, Always);
    assert Passed(Arrangements(i, j), Always) == Arrangements(i, j);
    ArrangementsCount(i, j);
  }

  function Reverse(a: Arrangement): Arrangement { if a == [] then [] else [Last(a)] + Reverse(Init(a)) }

  lemma {:induction false} Prepend(x: bool, a: Arrangement)
    ensures Xs([x] + a) == Xs(a) + (if x then 1 else 0)
    ensures Ys([x] + a) == Ys(a) + (if x then 0 else 1)
    ensures U([x] + a) == U(a) + (if x then 0 else Xs(a))
  {
    if a == [] {
      assert Init([x] + a) == [];
    } else {
      assert Init([x] + a) == [x] + Init(a);
      Prepend(x, Init(a));
    }
  }

  lemma {:induction false} ReversePrepend(x: bool, a: Arrangement)
    ensures Reverse([x] + a) == Reverse(a) + [x]
  {
    if a == [] {
      assert Init([x] + a) == [];
    } else {
      assert Init([x] + a) == [x] + Init(a);
      ReversePrepend(x, Init(a));
    }
  }

  /** Reading an arrangement backwards complements U within i * j, and is its own inverse. */
  lemma {:induction false} ReverseComplements(a: Arrangement)
    ensures Xs(Reverse(a)) == Xs(a) && Ys(Reverse(a)) == Ys(a)
    ensures U(Reverse(a)) + U(a) == Xs(a) * Ys(a)
    ensures Reverse(Reverse(a)) == a
  {
    if a != [] {
      var p := Init(a);
      ReverseComplements(p);
      Prepend(Last(a), Reverse(p));
      ReversePrepend(Last(a), Reverse(p));
      assert a == p + [Last(a)];
      assert (Xs(p) + 1) * Ys(p) == Xs(p) * Ys(p) + Ys(p);
      assert Xs(p) * (Ys(p) + 1) == Xs(p) * Ys(p) + Xs(p);
    }
  }

  ghost function Reversed(s: set<Arrangement>): set<Arrangement> { set a | a in s :: Reverse(a) }

  lemma {:induction false} ReversedCard(s: set<Arrangement>)
    ensures |Reversed(s)| == |s|
  {
    if s != {} {
      var x :| x in s;
      ReversedCard(s - {x});
      assert Reversed(s) == Reversed(s - {x}) + {Reverse(x)};
      forall c | c in s - {x} ensures Reverse(c) != Reverse(x) {
        ReverseComplements(c);
        ReverseComplements(x);
      }
    }
  }

  /** The distribution is symmetric about i * j / 2. */
  lemma WaysSymmetric(i: nat, j: nat, k: int)
    ensures Ways(i, j, k) == Ways(i, j, i * j - k)
  {
    ReversedCard(WithU(i, j, k));
    forall a ensures a in Reversed(WithU(i, j, k)) <==> a in WithU(i, j, i * j - k) {
      ReverseComplements(a);
      ReverseComplements(Reverse(a));
      ArrangementsAreAll(i, j, a);
      ArrangementsAreAll(i, j, Reverse(a));
      if a in Reversed(WithU(i, j, k)) {
        var c :| c in WithU(i, j, k) && a == Reverse(c);
        ReverseComplements(c);
      }
      if a in WithU(i, j, i * j - k) {
        assert Reverse(a) in WithU(i, j, k);
        assert a == Reverse(Reverse(a));
      }
    }
    assert Reversed(WithU(i, j, k)) == WithU(i, j, i * j - k);
  }

  // ---------------------------------------------------------------- exactU

  /** The share of arrangements at least as far from the mean as the observed u, up to the comparison tolerance. */
  ghost predicate Extreme(u: real, n1: nat, n2: nat, k: int) {
    Abs(k as real - Mean(n1, n2)) >= Abs(u - Mean(n1, n2)) - 0.000000001
  }

  function Abs(x: real): real { if x < 0.0 then -x else x }

  function Mean(n1: nat, n2: nat): real { (n1 * n2) as real / 2.0 }

  ghost function ExtremeArrangements(u: real, n1: nat, n2: nat): set<Arrangement> {
    set a | a in Arrangements(n1, n2) && Extreme(u, n1, n2, U(a))
  }

  /** Row i of the dynamic programme, computed from row i - 1. */
  method NextTable(prev: array2<nat>, ghost i: nat, n2: nat, maxU: nat) returns (cur: array2<nat>)
    requires i > 0 && prev.Length0 == n2 + 1 && prev.Length1 == maxU + 1
    requires forall j, k :: 0 <= j <= n2 && 0 <= k <= maxU ==> prev[j, k] == Ways(i - 1, j, k)
    ensures cur.Length0 == n2 + 1 && cur.Length1 == maxU + 1
    ensures forall j, k :: 0 <= j <= n2 && 0 <= k <= maxU ==> cur[j, k] == Ways(i, j, k)
  {
    cur := new nat[n2 + 1, maxU + 1];
    for j := 0 to n2 + 1
      invariant forall b, k :: 0 <= b < j && 0 <= k <= maxU ==> cur[b, k] == Ways(i, b, k)
    {
      for k := 0 to maxU + 1
        invariant forall b, c :: 0 <= b < j && 0 <= c <= maxU ==> cur[b, c] == Ways(i, b, c)
        invariant forall c :: 0 <= c < k ==> cur[j, c] == Ways(i, j, c)
      {
        WaysByLargest(i, j, k);
        var ways := 0;
        if k >= j {
          ways := ways + prev[j, k - j];
        } else {
          NegativeU(i - 1, j, k - j);
        }
        if j > 0 {
          ways := ways + cur[j - 1, k];
        }
        cur[j, k] := ways;
      }
    }
  }

  lemma NegativeU(i: nat, j: nat, k: int)
    requires k < 0
    ensures Ways(i, j, k) == 0
  {
  }

  /** The final table row of `exactU` is the U distribution. */
  method Distribution(n1: nat, n2: nat) returns (dist: seq<nat>)
    ensures |dist| == n1 * n2 + 1
    ensures forall k :: 0 <= k <= n1 * n2 ==> dist[k] == Ways(n1, n2, k)
  {
    var maxU := n1 * n2;
    var prev := new nat[n2 + 1, maxU + 1];
    forall j, k | 0 <= j <= n2 && 0 <= k <= maxU {
      prev[j, k] := if k == 0 then 1 else 0;
    }
    forall j: nat, k ensures Ways(0, j, k) == if k == 0 then 1 else 0 {
      WaysWithoutX(j, k);
    }
    for i := 1 to n1 + 1
      invariant prev.Length0 == n2 + 1 && prev.Length1 == maxU + 1
      invariant forall j, k :: 0 <= j <= n2 && 0 <= k <= maxU ==> prev[j, k] == Ways(i - 1, j, k)
    {
      prev := NextTable(prev, i, n2, maxU);
    }
    dist := [];
    for k := 0 to maxU + 1
      invariant |dist| == k
      invariant forall c :: 0 <= c < k ==> dist[c] == Ways(n1, n2, c)
    {
      dist := dist + [prev[n2, k]];
    }
  }

  ghost function ExtremeTest(u: real, n1: nat, n2: nat): int -> bool { k => Extreme(u, n1, n2, k) }

  lemma ExtremeCount(u: real, n1: nat, n2: nat, dist: seq<nat>)
    requires |dist| == n1 * n2 + 1 && forall k :: 0 <= k < |dist| ==> dist[k] == Ways(n1, n2, k)
    ensures SumPassing(dist, ExtremeTest(u, n1, n2)) == |ExtremeArrangements(u, n1, n2)|
  {
    SumCountsPassing(n1, n2, dist, ExtremeTest(u, n1, n2));
    AllPass(n1, n2, ExtremeTest(u, n1, n2));
    SameTest(u, n1, n2);
  }

  lemma SameTest(u: real, n1: nat, n2: nat)
    ensures Passed(Arrangements(n1, n2), ExtremeTest(u, n1, n2)) == ExtremeArrangements(u, n1, n2)
  {
  }

  /** The summing loop of `exactU`. */
  method Tally(dist: seq<nat>, u: real, n1: nat, n2: nat) returns (total: nat, tail: nat)
    ensures total == SumPassing(dist, Always) && tail == SumPassing(dist, ExtremeTest(u, n1, n2))
  {
    total, tail := 0, 0;
    var mean := Mean(n1, n2);
    var deviation := Abs(u - mean);
    for k := 0 to |dist|
      invariant total == SumPassing(dist[..k], Always)
      invariant tail == SumPassing(dist[..k], ExtremeTest(u, n1, n2))
    {
      assert Init(dist[..k + 1]) == dist[..k] && Last(dist[..k + 1]) == dist[k];
      total := total + dist[k];
      if Abs(k as real - mean) >= deviation - 0.000000001 {
        tail := tail + dist[k];
      }
    }
    assert dist[..|dist|] == dist;
  }

  /** `exactU` returns the fraction of all C(n1 + n2, n1) arrangements that are at least as extreme as u. */
  method ExactU(u: real, n1: nat, n2: nat) returns (p: real)
    ensures Choose(n1 + n2, n1) > 0
    ensures p == |ExtremeArrangements(u, n1, n2)| as real / Choose(n1 + n2, n1) as real
  {
    var dist := Distribution(n1, n2);
    var total, tail := Tally(dist, u, n1, n2);
    WaysSum(n1, n2, dist);
    ExtremeCount(u, n1, n2, dist);
    ChoosePositive(n1, n2);
    p := tail as real / total as real;
  }

  lemma {:induction false} ChoosePositive(i: nat, j: nat)
    ensures Choose(i + j, i) > 0
  {
    if i > 0 {
      ChooseByLargest(i, j);
      ChoosePositive(i - 1, j);
    }
  }

  // ---------------------------------------------------------------- ranking

  datatype Observation = Observation(v: real, fromX: bool)

  predicate Sorted(all: seq<Observation>) { forall p, q :: 0 <= p < q < |all| ==> all[p].v <= all[q].v }

  predicate HasTies(all: seq<Observation>) { exists p, q :: 0 <= p < q < |all| && all[p].v == all[q].v }

  function XCount(all: seq<Observation>): nat {
    if all == [] then 0 else XCount(Init(all)) + (if Last(all).fromX then 1 else 0)
  }

  function YCount(all: seq<Observation>): nat {
    if all == [] then 0 else YCount(Init(all)) + (if Last(all).fromX then 0 else 1)
  }

  /** Twice the score of the value v against the y's: two for each smaller y, one for each equal y. */
  function Above(all: seq<Observation>, v: real): nat {
    if all == [] then 0
    else Above(Init(all), v) +
         (if Last(all).fromX || Last(all).v > v then 0 else if Last(all).v < v then 2 else 1)
  }

  /** Twice the pair statistic of the x's in `xs` against the y's in `all`. */
  function PairScore(xs: seq<Observation>, all: seq<Observation>): nat {
    if xs == [] then 0
    else PairScore(Init(xs), all) + (if Last(xs).fromX then Above(all, Last(xs).v) else 0)
  }

  lemma {:induction false} AboveOfGroups(all: seq<Observation>, i: nat, j: nat, n: nat, v: real)
    requires i <= j <= |all| && n <= |all|
    requires forall p :: 0 <= p < i ==> all[p].v < v
    requires forall p :: i <= p < j ==> all[p].v == v
    requires forall p :: j <= p < |all| ==> all[p].v > v
    ensures n <= i ==> Above(all[..n], v) == 2 * YCount(all[..n])
    ensures i <= n <= j ==> Above(all[..n], v) == YCount(all[..i]) + YCount(all[..n])
    ensures j <= n ==> Above(all[..n], v) == YCount(all[..i]) + YCount(all[..j])
  {
    if n > 0 {
      AboveOfGroups(all, i, j, n - 1, v);
      assert Init(all[..n]) == all[..n - 1] && Last(all[..n]) == all[n - 1];
    }
  }

  lemma {:induction false} CountsAddUp(all: seq<Observation>)
    ensures XCount(all) + YCount(all) == |all|
  {
    if all != [] {
      CountsAddUp(Init(all));
    }
  }

  /** Summing the x's of one group of equal values. */
  lemma {:induction false} GroupScore(all: seq<Observation>, i: nat, n: nat, v: real)
    requires i <= n <= |all| && forall p :: i <= p < n ==> all[p].v == v
    ensures PairScore(all[..n], all) ==
              PairScore(all[..i], all) + (XCount(all[..n]) - XCount(all[..i])) * Above(all, v)
    decreases n
  {
    if i < n {
      GroupScore(all, i, n - 1, v);
      assert Init(all[..n]) == all[..n - 1] && Last(all[..n]) == all[n - 1];
      if all[n - 1].fromX {
        var d := XCount(all[..n - 1]) - XCount(all[..i]);
        assert (d + 1) * Above(all, v) == d * Above(all, v) + Above(all, v);
      }
    }
  }

  /** Average ranks turn into pair scores, one group at a time. */
  lemma RankOfGroup(x0: int, y0: int, x1: int, y1: int)
    ensures (x1 - x0) * (x0 + y0 + x1 + y1 + 1) == x1 * (x1 + 1) - x0 * (x0 + 1) + (x1 - x0) * (y0 + y1)
  {
  }

  /**
   The ranking loop: average ranks over tie groups, summed over x. Twice the
   resulting u is the pair score: two for every x above a y, one for every tie.
   */
  method RankSum(all: seq<Observation>) returns (u: real, ties: bool)
    requires Sorted(all)
    ensures 2.0 * u == PairScore(all, all) as real
    ensures ties <==> HasTies(all)
  {
    var n1 := 0;
    for k := 0 to |all|
      invariant n1 == XCount(all[..k])
    {
      assert Init(all[..k + 1]) == all[..k];
      n1 := n1 + (if all[k].fromX then 1 else 0);
    }
    assert all[..|all|] == all;

    var rankX := 0.0;
    ties := false;
    var i := 0;
    while i < |all|
      invariant 0 <= i <= |all|
      invariant forall p, q :: 0 <= p < i <= q < |all| ==> all[p].v < all[q].v
      invariant ties <==> exists p, q :: 0 <= p < q < i && all[p].v == all[q].v
      invariant 2.0 * rankX == Gained(all, i) as real
    {
      var j := GroupEnd(all, i);
      var added := GroupRank(all, i, j);
      if j - i > 1 {
        assert all[i].v == all[i + 1].v;
        ties := true;
      }
      rankX := rankX + added;
      i := j;
    }
    u := rankX - (n1 * (n1 + 1)) as real / 2.0;
  }

  /** The inner scan: the end of the group of values equal to all[i]. */
  method GroupEnd(all: seq<Observation>, i: nat) returns (j: nat)
    requires Sorted(all) && i < |all|
    ensures i < j <= |all|
    ensures forall p :: i <= p < j ==> all[p].v == all[i].v
    ensures forall p :: j <= p < |all| ==> all[p].v > all[i].v
  {
    j := i;
    while j < |all| && all[j].v == all[i].v
      invariant i <= j <= |all|
      invariant forall p :: i <= p < j ==> all[p].v == all[i].v
    {
      j := j + 1;
    }
  }

  /** The inner sum: every x of the group gets the average rank. */
  method GroupRank(all: seq<Observation>, i: nat, j: nat) returns (added: real)
    requires i < j <= |all|
    requires forall p :: 0 <= p < i ==> all[p].v < all[i].v
    requires forall p :: i <= p < j ==> all[p].v == all[i].v
    requires forall p :: j <= p < |all| ==> all[p].v > all[i].v
    ensures 2.0 * added == (Gained(all, j) - Gained(all, i)) as real
  {
    var rank := (i + j + 1) as real / 2.0;
    added := AddRanks(all, i, j, rank);
    GroupTotal(all, i, j);
    TwiceRank(XCount(all[..j]) - XCount(all[..i]), i + j + 1, added, rank);
  }

  lemma XCountNext(all: seq<Observation>, k: nat)
    requires k < |all|
    ensures XCount(all[..k + 1]) == XCount(all[..k]) + (if all[k].fromX then 1 else 0)
  {
    assert Init(all[..k + 1]) == all[..k];
  }

  /** Add the rank once for every x of the group. */
  method AddRanks(all: seq<Observation>, i: nat, j: nat, rank: real) returns (added: real)
    requires i <= j <= |all|
    ensures added == (XCount(all[..j]) - XCount(all[..i])) as real * rank
  {
    added := 0.0;
    ghost var count := 0;
    for k := i to j
      invariant count == XCount(all[..k]) - XCount(all[..i])
      invariant added == count as real * rank
    {
      XCountNext(all, k);
      if all[k].fromX {
        OneMore(count, rank);
        added, count := added + rank, count + 1;
      }
    }
  }

  /** Twice the rank sum of the first i observations: the rank sum of as many lowest ranks, plus the pair score. */
  function Gained(all: seq<Observation>, i: nat): int
    requires i <= |all|
  {
    XCount(all[..i]) * (XCount(all[..i]) + 1) + PairScore(all[..i], all)
  }

  lemma GroupTotal(all: seq<Observation>, i: nat, j: nat)
    requires i < j <= |all|
    requires forall p :: 0 <= p < i ==> all[p].v < all[i].v
    requires forall p :: i <= p < j ==> all[p].v == all[i].v
    requires forall p :: j <= p < |all| ==> all[p].v > all[i].v
    ensures (XCount(all[..j]) - XCount(all[..i])) * (i + j + 1) == Gained(all, j) - Gained(all, i)
  {
    var x0, y0, x1, y1 := XCount(all[..i]), YCount(all[..i]), XCount(all[..j]), YCount(all[..j]);
    CountsAddUp(all[..i]);
    CountsAddUp(all[..j]);
    GroupScore(all, i, j, all[i].v);
    AboveOfGroups(all, i, j, |all|, all[i].v);
    assert all[..|all|] == all;
    RankOfGroup(x0, y0, x1, y1);
    assert i + j + 1 == x0 + y0 + x1 + y1 + 1;
  }

  lemma OneMore(d: int, rank: real)
    ensures (d + 1) as real * rank == d as real * rank + rank
  {
  }

  lemma TwiceRank(d: int, n: int, added: real, rank: real)
    requires rank == n as real / 2.0 && added == d as real * rank
    ensures 2.0 * added == (d * n) as real
  {
  }

  /** The arrangement the sorted observations show. */
  function Tags(all: seq<Observation>): (a: Arrangement)
    ensures |a| == |all|
  {
    if all == [] then [] else Tags(Init(all)) + [Last(all).fromX]
  }

  lemma {:induction false} TagsCount(all: seq<Observation>)
    ensures Ys(Tags(all)) == YCount(all) && Xs(Tags(all)) == XCount(all)
  {
    if all != [] {
      TagsCount(Init(all));
      assert Init(Tags(all)) == Tags(Init(all));
    }
  }

  /** Without ties the pair score is twice the U of the arrangement. */
  lemma {:induction false} ScoreIsTwiceU(all: seq<Observation>, n: nat)
    requires Sorted(all) && !HasTies(all) && n <= |all|
    ensures PairScore(all[..n], all) == 2 * U(Tags(all[..n]))
  {
    if n > 0 {
      ScoreIsTwiceU(all, n - 1);
      assert Init(all[..n]) == all[..n - 1] && Last(all[..n]) == all[n - 1];
      assert Init(Tags(all[..n])) == Tags(all[..n - 1]);
      TagsCount(all[..n - 1]);
      if all[n - 1].fromX {
        AboveOfGroups(all, n - 1, n, |all|, all[n - 1].v);
        assert all[..|all|] == all;
      }
    }
  }

  /**
   The test on pooled, sorted observations. The exact path returns the fraction
   of arrangements at least as extreme as the observed one; there is no result
   where the normal approximation takes over.
   */
  method PValue(all: seq<Observation>, n1: nat, n2: nat) returns (p: Option<real>)
    requires Sorted(all) && n1 == XCount(all) && n2 == YCount(all)
    ensures p.Some? <==> n1 == 0 || n2 == 0 || (!HasTies(all) && n1 * n2 <= 400)
    ensures n1 == 0 || n2 == 0 ==> p == Some(1.0)
    ensures p.Some? && n1 > 0 && n2 > 0 ==>
              && Tags(all) in Arrangements(n1, n2)
              && Choose(n1 + n2, n1) > 0
              && p.value == |ExtremeArrangements(U(Tags(all)) as real, n1, n2)| as real / Choose(n1 + n2, n1) as real
  {
    if n1 == 0 || n2 == 0 {
      return Some(1.0);
    }
    var u, ties := RankSum(all);
    if !ties && n1 * n2 <= 400 {
      ScoreIsTwiceU(all, |all|);
      assert all[..|all|] == all;
      TagsCount(all);
      ArrangementsAreAll(n1, n2, Tags(all));
      var share := ExactU(u, n1, n2);
      return Some(share);
    }
    return None;
  }
}
