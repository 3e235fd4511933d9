/** Laws of the aggregations over every list of readings. */
module AggregationLaws {
  import opened OrderStatistics
  import opened Aggregation

  // ----- Sorting -----

  lemma {:induction false} InsertSorts(s: seq<real>, x: real)
    requires Sorted(s)
    ensures Sorted(Insert(s, x))
    ensures multiset(Insert(s, x)) == multiset(s) + multiset{x}
  {
    if s == [] || s[|s| - 1] <= x {
    } else {
      var init, last := s[..|s| - 1], s[|s| - 1];
      InsertSorts(init, x);
      assert s == init + [last];
      SortedAppend(Insert(init, x), init, x, last);
    }
  }

  lemma SortedAppend(t: seq<real>, init: seq<real>, x: real, last: real)
    requires Sorted(t) && multiset(t) == multiset(init) + multiset{x}
    requires x <= last && forall y :: y in init ==> y <= last
    ensures Sorted(t + [last])
  {
    forall i | 0 <= i < |t|
      ensures t[i] <= last
    {
      assert t[i] in multiset(t);
      assert t[i] in multiset(init) + multiset{x};
      assert t[i] in init || t[i] == x;
    }
  }

  lemma {:induction false} AscendingSorts(xs: seq<real>)
    ensures Sorted(Ascending(xs)) && multiset(Ascending(xs)) == multiset(xs)
  {
    if xs == [] {
    } else {
      var init, last := xs[..|xs| - 1], xs[|xs| - 1];
      AscendingSorts(init);
      InsertSorts(Ascending(init), last);
      assert xs == init + [last];
    }
  }

  // ----- Nearest rank -----

  /** For a level in (0, 1] and at least one reading neither index clamp is ever taken. */
  lemma ClampsUnreachable(p: real, n: nat)
    requires 0.0 < p <= 1.0 && n > 0
    ensures 0 < NearestRank(p, n) <= n
    ensures PercentileIndex(p, n) == NearestRank(p, n) - 1
  {
    var x := p * n as real;
    assert 0.0 < x <= n as real by {
      assert p * n as real <= 1.0 * n as real;
    }
  }

  /** The percentile is exactly the reading of rank ceil(p * n). */
  lemma PercentileIsNearestRank(xs: seq<real>, p: real)
    requires xs != [] && 0.0 < p <= 1.0
    ensures 0 < NearestRank(p, |xs|) <= |xs|
    ensures IsRank(xs, NearestRank(p, |xs|), PercentileOf(xs, p))
  {
    ClampsUnreachable(p, |xs|);
    AscendingSorts(xs);
    var k := NearestRank(p, |xs|);
    SortedRank(Ascending(xs), k);
    RankPermuted(Ascending(xs), xs, k, PercentileOf(xs, p));
  }

  /** The converse: whatever has rank ceil(p * n) is the percentile. */
  lemma {:induction false} NearestRankIsPercentile(xs: seq<real>, p: real, r: real)
    requires xs != [] && 0.0 < p <= 1.0
    requires 0 < NearestRank(p, |xs|) && IsRank(xs, NearestRank(p, |xs|), r)
    ensures r == PercentileOf(xs, p)
  {
    hide NearestRank, PercentileOf;
    PercentileIsNearestRank(xs, p);
    RankUnique(xs, NearestRank(p, |xs|), r, PercentileOf(xs, p));
  }

  // ----- Order of the devices does not matter -----

  lemma {:induction false} TotalConcat(xs: seq<real>, ys: seq<real>)
    ensures Total(xs + ys) == Total(xs) + Total(ys)
  {
    if ys == [] {
      assert xs + ys == xs;
    } else {
      TotalConcat(xs, ys[..|ys| - 1]);
      assert (xs + ys)[..|xs + ys| - 1] == xs + ys[..|ys| - 1];
    }
  }

  lemma TotalAppend(xs: seq<real>, x: real)
    ensures Total(xs + [x]) == Total(xs) + x
  {
    assert (xs + [x])[..|xs|] == xs;
  }

  lemma {:induction false} TotalWithout(xs: seq<real>, i: nat)
    requires i < |xs|
    ensures Total(xs) == Total(Without(xs, i)) + xs[i]
  {
    hide Total;
    assert xs == xs[..i] + [xs[i]] + xs[i + 1..];
    TotalConcat(xs[..i] + [xs[i]], xs[i + 1..]);
    TotalAppend(xs[..i], xs[i]);
    TotalConcat(xs[..i], xs[i + 1..]);
  }

  lemma {:induction false} TotalPermuted(xs: seq<real>, ys: seq<real>)
    requires multiset(xs) == multiset(ys)
    ensures Total(xs) == Total(ys)
  {
    if xs == [] {
      assert |multiset(ys)| == 0;
    } else {
      assert xs[0] in multiset(ys);
      var i :| 0 <= i < |ys| && ys[i] == xs[0];
      TotalWithout(xs, 0);
      TotalWithout(ys, i);
      TotalPermuted(Without(xs, 0), Without(ys, i));
    }
  }

  lemma SameMembers(xs: seq<real>, ys: seq<real>)
    requires multiset(xs) == multiset(ys)
    ensures |xs| == |ys| && forall x :: x in xs <==> x in ys
  {
    assert |xs| == |multiset(xs)| && |ys| == |multiset(ys)|;
    assert forall x :: x in xs <==> x in multiset(xs);
    assert forall x :: x in ys <==> x in multiset(ys);
  }

  /** Every accepted aggregation ignores the order in which the devices are listed. */
  lemma DeviceOrderIrrelevant(xs: seq<real>, ys: seq<real>, m: Method)
    requires m.Accepted() && multiset(xs) == multiset(ys)
    ensures Value(xs, m) == Value(ys, m)
  {
    SameMembers(xs, ys);
    if xs != [] {
      match m
      case Max =>
      case Min =>
      case Avg => TotalPermuted(xs, ys);
      case Sum => TotalPermuted(xs, ys);
      case P95 => PercentilePermuted(xs, ys, P95_LEVEL);
      case P99 => PercentilePermuted(xs, ys, P99_LEVEL);
    }
  }

  lemma PercentilePermuted(xs: seq<real>, ys: seq<real>, p: real)
    requires xs != [] && ys != [] && multiset(xs) == multiset(ys) && 0.0 < p <= 1.0
    ensures PercentileOf(xs, p) == PercentileOf(ys, p)
  {
    hide NearestRank, PercentileOf;
    SameMembers(xs, ys);
    PercentileIsNearestRank(xs, p);
    RankPermuted(xs, ys, NearestRank(p, |xs|), PercentileOf(xs, p));
    NearestRankIsPercentile(ys, p, PercentileOf(xs, p));
  }

  /** The default branch, which no accepted configuration reaches, does depend on the order. */
  lemma DefaultBranchDependsOnOrder(text: string)
    ensures multiset([1.0, 2.0]) == multiset([2.0, 1.0])
    ensures Value([1.0, 2.0], Unrecognized(text)) != Value([2.0, 1.0], Unrecognized(text))
  {
  }

  // ----- Monotonicity -----

  ghost predicate NoLower(ys: seq<real>, xs: seq<real>) {
    |xs| == |ys| && forall i :: 0 <= i < |xs| ==> xs[i] <= ys[i]
  }

  lemma {:induction false} TotalMonotone(xs: seq<real>, ys: seq<real>)
    requires NoLower(ys, xs)
    ensures Total(xs) <= Total(ys)
  {
    if xs == [] {
    } else {
      TotalMonotone(xs[..|xs| - 1], ys[..|ys| - 1]);
    }
  }

  lemma PercentileMonotone(xs: seq<real>, ys: seq<real>, p: real)
    requires xs != [] && NoLower(ys, xs) && 0.0 < p <= 1.0
    ensures PercentileOf(xs, p) <= PercentileOf(ys, p)
  {
    hide NearestRank, PercentileOf;
    PercentileIsNearestRank(xs, p);
    PercentileIsNearestRank(ys, p);
    RankMonotone(xs, ys, NearestRank(p, |xs|), PercentileOf(xs, p), PercentileOf(ys, p));
  }

  /** If no GPU reads lower, no aggregation reads lower. */
  lemma AggregateMonotone(xs: seq<real>, ys: seq<real>, m: Method)
    requires NoLower(ys, xs)
    ensures Value(xs, m) <= Value(ys, m)
  {
    if xs != [] {
      match m
      case Max =>
        var i :| 0 <= i < |xs| && xs[i] == Maximum(xs);
        assert ys[i] in ys;
      case Min =>
        var i :| 0 <= i < |ys| && ys[i] == Minimum(ys);
        assert xs[i] in xs;
      case Avg =>
        TotalMonotone(xs, ys);
        DivMonotone(Total(xs), Total(ys), |xs| as real);
      case Sum => TotalMonotone(xs, ys);
      case P95 => PercentileMonotone(xs, ys, P95_LEVEL);
      case P99 => PercentileMonotone(xs, ys, P99_LEVEL);
      case Unrecognized(_) =>
    }
  }

  lemma DivMonotone(a: real, b: real, n: real)
    requires a <= b && n > 0.0
    ensures a / n <= b / n
  {
  }

  // ----- Ordering of the aggregations among themselves -----

  lemma {:induction false} TotalBounds(xs: seq<real>, lo: real, hi: real)
    requires forall x :: x in xs ==> lo <= x <= hi
    ensures |xs| as real * lo <= Total(xs) <= |xs| as real * hi
  {
    if xs == [] {
    } else {
      var init := xs[..|xs| - 1];
      assert forall x :: x in init ==> x in xs;
      TotalBounds(init, lo, hi);
      assert xs[|xs| - 1] in xs;
      assert |xs| as real == |init| as real + 1.0;
      assert |xs| as real * lo == |init| as real * lo + lo;
      assert |xs| as real * hi == |init| as real * hi + hi;
    }
  }

  lemma MeanBounds(total: real, n: real, lo: real, hi: real)
    requires n > 0.0 && n * lo <= total <= n * hi
    ensures lo <= total / n <= hi
  {
    var mean := total / n;
    assert mean * n == total;
    MulOrder(lo, mean, n);
    MulOrder(mean, hi, n);
  }

  lemma MulOrder(a: real, b: real, n: real)
    requires n > 0.0 && a * n <= b * n
    ensures a <= b
  {
  }

  /** min <= avg <= max and min <= p95 <= p99 <= max on every non-empty list. */
  lemma AggregationsAreOrdered(xs: seq<real>)
    requires xs != []
    ensures Value(xs, Min) <= Value(xs, Avg) <= Value(xs, Max)
    ensures Value(xs, Min) <= Value(xs, P95) <= Value(xs, P99) <= Value(xs, Max)
  {
    TotalBounds(xs, Minimum(xs), Maximum(xs));
    MeanBounds(Total(xs), |xs| as real, Minimum(xs), Maximum(xs));
    PercentileIsNearestRank(xs, P95_LEVEL);
    PercentileIsNearestRank(xs, P99_LEVEL);
    var n := |xs| as real;
    assert P95_LEVEL * n <= P99_LEVEL * n;
    RankOrdered(xs, NearestRank(P95_LEVEL, |xs|), Value(xs, P95), NearestRank(P99_LEVEL, |xs|), Value(xs, P99));
  }

  // ----- Outlier robustness -----

  /** How many readings lie above the nearest rank. */
  lemma RanksAbove(n: nat)
    ensures n - NearestRank(P95_LEVEL, n) == n / 20
    ensures n - NearestRank(P99_LEVEL, n) == n / 100
  {
    assert P95_LEVEL * n as real == n as real - n as real / 20.0;
    assert P99_LEVEL * n as real == n as real - n as real / 100.0;
  }

  /** Deleting any n/20 readings leaves one at least as high as p95, and any n/100 one as p99. */
  lemma {:induction false} OutlierRobust(xs: seq<real>, kept: seq<real>)
    requires xs != [] && multiset(kept) <= multiset(xs)
    ensures |kept| >= |xs| - |xs| / 20 ==> kept != [] && Value(xs, P95) <= Value(kept, Max)
    ensures |kept| >= |xs| - |xs| / 100 ==> kept != [] && Value(xs, P99) <= Value(kept, Max)
  {
    hide NearestRank, PercentileOf;
    RanksAbove(|xs|);
    if |kept| >= |xs| - |xs| / 20 {
      PercentileIsNearestRank(xs, P95_LEVEL);
      RankSurvives(xs, NearestRank(P95_LEVEL, |xs|), Value(xs, P95), kept);
    }
    if |kept| >= |xs| - |xs| / 100 {
      PercentileIsNearestRank(xs, P99_LEVEL);
      RankSurvives(xs, NearestRank(P99_LEVEL, |xs|), Value(xs, P99), kept);
    }
  }

  /** n readings of zero but for one at 1. */
  function OneHot(n: nat): (xs: seq<real>)
    ensures |xs| == n
  {
    seq(n, i => if i == 0 then 1.0 else 0.0)
  }

  lemma OneHotPercentile(n: nat, p: real)
    requires n > 1 && 0.0 < p <= 1.0 && NearestRank(p, n) < n
    ensures PercentileOf(OneHot(n), p) == 0.0
  {
    hide NearestRank, PercentileOf;
    var xs := OneHot(n);
    var k := NearestRank(p, n);
    ClampsUnreachable(p, n);
    assert xs == [1.0] + xs[1..];
    CountConcat([1.0], xs[1..], 0.0, false);
    CountAll(xs[1..], 0.0, false);
    CountNone(xs, 0.0, true);
    assert xs[1] == 0.0;
    NearestRankIsPercentile(xs, p, 0.0);
  }

  /** p95 ignores a single hot GPU exactly from 20 devices on, p99 exactly from 100 on. */
  lemma {:induction false} PercentileIsMaxExactly(n: nat)
    requires n > 0
    ensures (forall xs: seq<real> :: |xs| == n ==> Value(xs, P95) == Value(xs, Max)) <==> n < 20
    ensures (forall xs: seq<real> :: |xs| == n ==> Value(xs, P99) == Value(xs, Max)) <==> n < 100
  {
    hide NearestRank, PercentileOf;
    RanksAbove(n);
    forall xs: seq<real> | |xs| == n
      ensures n < 20 ==> Value(xs, P95) == Value(xs, Max)
      ensures n < 100 ==> Value(xs, P99) == Value(xs, Max)
    {
      OutlierRobust(xs, xs);
      AggregationsAreOrdered(xs);
      if n < 20 {
        TopRankIsMax(xs, P95_LEVEL);
      }
      if n < 100 {
        TopRankIsMax(xs, P99_LEVEL);
      }
    }
    var hot := OneHot(n);
    assert hot[0] == 1.0;
    assert 1.0 in hot;
    if n >= 20 {
      OneHotPercentile(n, P95_LEVEL);
      assert Value(hot, P95) != Value(hot, Max);
    }
    if n >= 100 {
      OneHotPercentile(n, P99_LEVEL);
      assert Value(hot, P99) != Value(hot, Max);
    }
  }

  lemma {:induction false} TopRankIsMax(xs: seq<real>, p: real)
    requires xs != [] && 0.0 < p <= 1.0 && NearestRank(p, |xs|) == |xs|
    ensures PercentileOf(xs, p) == Maximum(xs)
  {
    hide NearestRank, PercentileOf;
    PercentileIsNearestRank(xs, p);
    var r := PercentileOf(xs, p);
    var i :| 0 <= i < |xs| && xs[i] == Maximum(xs);
    if r < Maximum(xs) {
      assert xs == xs[..i] + ([xs[i]] + xs[i + 1..]);
      CountConcat(xs[..i], [xs[i]] + xs[i + 1..], r, false);
      CountConcat([xs[i]], xs[i + 1..], r, false);
    }
  }

  // ----- What each aggregation name promises -----

  const NAMES: set<string> := {"max", "min", "avg", "sum", "p95", "p99"}

  /** Exactly six names are aggregations, each its own. */
  lemma AggregationNames(name: string)
    ensures MethodOf(name).Accepted() <==> name in NAMES
    ensures MethodOf("max") == Max && MethodOf("min") == Min && MethodOf("avg") == Avg
    ensures MethodOf("sum") == Sum && MethodOf("p95") == P95 && MethodOf("p99") == P99
  {
    assert "min"[1] != "max"[1] && "avg"[0] != "max"[0] && "avg"[0] != "min"[0];
    assert "sum"[0] == 's' && "p95"[0] == "p99"[0] == 'p' && "p95"[2] != "p99"[2];
  }

  /** The readings added up from the first on. */
  ghost function AddedUp(xs: seq<real>): real {
    if xs == [] then 0.0 else xs[0] + AddedUp(xs[1..])
  }

  /** The sum of one reading is that reading, and two groups' sums add up. */
  lemma SumAddsUp(xs: seq<real>, ys: seq<real>, x: real)
    ensures Value([x], Sum) == x
    ensures Value(xs + ys, Sum) == Value(xs, Sum) + Value(ys, Sum)
    ensures Value(xs, Sum) == Value(xs, Avg) * |xs| as real
  {
    hide Total;
    EmptyTotal();
    TotalAppend([], x);
    assert [] + [x] == [x];
    TotalConcat(xs, ys);
    MeanTimesCount(xs);
  }

  lemma {:induction false} SumIsAddedUp(xs: seq<real>)
    ensures Value(xs, Sum) == AddedUp(xs)
  {
    if xs == [] {
    } else {
      SumIsAddedUp(xs[1..]);
      SumAddsUp([xs[0]], xs[1..], xs[0]);
      assert [xs[0]] + xs[1..] == xs;
    }
  }

  /** The value is what the name promises of the readings. */
  ghost predicate IsAggregate(name: string, xs: seq<real>, v: real) {
    && (name == "max" ==> v in xs && forall x :: x in xs ==> x <= v)
    && (name == "min" ==> v in xs && forall x :: x in xs ==> x >= v)
    && (name == "avg" ==> v * |xs| as real == AddedUp(xs))
    && (name == "sum" ==> v == AddedUp(xs))
    && (name == "p95" ==> IsRank(xs, (95 * |xs| + 99) / 100, v))
    && (name == "p99" ==> IsRank(xs, (99 * |xs| + 99) / 100, v))
  }

  /** On every list of readings each of the six names yields the one value that it promises. */
  lemma {:induction false} AggregateByName(name: string, xs: seq<real>, v: real)
    requires xs != [] && name in NAMES
    ensures Value(xs, MethodOf(name)) == v <==> IsAggregate(name, xs, v)
  {
    hide PercentileOf, Total, AddedUp, IsRank;
    AggregationNames(name);
    match MethodOf(name)
    case Max =>
    case Min =>
    case Avg =>
      SumIsAddedUp(xs);
      SumAddsUp(xs, [], 0.0);
      if v * |xs| as real == AddedUp(xs) {
        MulCancel(v, Value(xs, Avg), |xs| as real);
      }
    case Sum => SumIsAddedUp(xs);
    case P95 => PercentileByRank(xs, 95, v);
    case P99 => PercentileByRank(xs, 99, v);
  }

  /** The percentile is the one reading of the rank that whole numbers compute. */
  lemma PercentileByRank(xs: seq<real>, percent: nat, v: real)
    requires xs != [] && 0 < percent <= 100
    ensures PercentileOf(xs, percent as real / 100.0) == v
            <==> IsRank(xs, (percent * |xs| + 99) / 100, v)
  {
    var p := percent as real / 100.0;
    WholeRank(percent, |xs|);
    hide NearestRank, PercentileOf;
    PercentileIsNearestRank(xs, p);
    if IsRank(xs, NearestRank(p, |xs|), v) {
      NearestRankIsPercentile(xs, p, v);
    }
  }

  lemma WholeRank(percent: nat, n: nat)
    ensures NearestRank(percent as real / 100.0, n) == (percent * n + 99) / 100
  {
    var k := (percent * n + 99) / 100;
    var x := percent as real / 100.0 * n as real;
    assert x * 100.0 == (percent * n) as real;
    assert 100 * (k - 1) < percent * n <= 100 * k;
    assert (k - 1) as real < x <= k as real;
  }

  // ----- Composition over nodes -----

  function Flatten(nodes: seq<seq<real>>): seq<real> {
    if nodes == [] then [] else Flatten(nodes[..|nodes| - 1]) + nodes[|nodes| - 1]
  }

  function PerNode(nodes: seq<seq<real>>, m: Method): (vs: seq<real>)
    ensures |vs| == |nodes|
  {
    if nodes == [] then [] else
      PerNode(nodes[..|nodes| - 1], m) + [Value(nodes[|nodes| - 1], m)]
  }

  /** Aggregating per-node aggregates equals aggregating all devices, for max, min and sum. */
  lemma {:induction false} AggregationComposes(nodes: seq<seq<real>>, m: Method)
    requires m == Max || m == Min || m == Sum
    requires forall i :: 0 <= i < |nodes| ==> nodes[i] != []
    ensures nodes != [] ==> Flatten(nodes) != []
    ensures Value(PerNode(nodes, m), m) == Value(Flatten(nodes), m)
  {
    if nodes == [] {
    } else {
      var init, last := nodes[..|nodes| - 1], nodes[|nodes| - 1];
      AggregationComposes(init, m);
      ValueConcat(Flatten(init), last, m);
      ValueConcat(PerNode(init, m), [Value(last, m)], m);
      assert [Value(last, m)][..0] == [];
    }
  }

  /** One step of composition: how a method combines two groups of devices. */
  lemma ValueConcat(xs: seq<real>, ys: seq<real>, m: Method)
    requires m == Max || m == Min || m == Sum
    requires ys != []
    ensures var vx, vy, v := Value(xs, m), Value(ys, m), Value(xs + ys, m);
            if xs == [] then v == vy
            else if m == Sum then v == vx + vy
            else if m == Max then v == if vx >= vy then vx else vy
            else v == if vx <= vy then vx else vy
  {
    if xs == [] {
      assert xs + ys == ys;
    } else if m == Sum {
      TotalConcat(xs, ys);
    } else {
      assert forall x :: x in xs + ys <==> x in xs || x in ys;
    }
  }

  /** The mean composes when each group is weighted by its number of devices. */
  lemma MeanWeighsEveryDevice(xs: seq<real>, ys: seq<real>)
    ensures Value(xs + ys, Avg) * |xs + ys| as real
            == Value(xs, Avg) * |xs| as real + Value(ys, Avg) * |ys| as real
    ensures forall x :: Value([x], Avg) == x
  {
    hide Total;
    MeanTimesCount(xs);
    MeanTimesCount(ys);
    MeanTimesCount(xs + ys);
    TotalConcat(xs, ys);
    forall x
      ensures Value([x], Avg) == x
    {
      TotalAppend([], x);
      assert [] + [x] == [x];
      MeanTimesCount([]);
    }
  }

  lemma MeanTimesCount(xs: seq<real>)
    ensures Value(xs, Avg) * |xs| as real == Total(xs)
  {
    if xs != [] {
      QuotientTimes(Total(xs), |xs| as real);
    }
  }

  lemma QuotientTimes(a: real, b: real)
    requires b != 0.0
    ensures a / b * b == a
  {
  }

  lemma CrossWeights(a: real, b: real, n: real, m: real, mean: real)
    requires n > 0.0 && m > 0.0 && mean * (n + m) == a * n + b * m
    ensures (a + b) / 2.0 == mean <==> n == m || a == b
  {
    var half := (a + b) / 2.0;
    assert half * (n + m) - mean * (n + m) == (a - b) * (m - n) / 2.0;
    if half == mean {
      assert (a - b) * (m - n) == 0.0;
      ZeroFactor(a - b, m - n);
    } else if n == m || a == b {
      MulCancel(half, mean, n + m);
    }
  }

  lemma ZeroFactor(x: real, y: real)
    requires x * y == 0.0
    ensures x == 0.0 || y == 0.0
  {
  }

  lemma MulCancel(x: real, y: real, n: real)
    requires n > 0.0 && x * n == y * n
    ensures x == y
  {
  }

  lemma PairTotal(a: real, b: real)
    ensures Total([a, b]) == a + b
  {
    hide Total;
    EmptyTotal();
    TotalAppend([], a);
    TotalAppend([a], b);
    assert [] + [a] == [a] && [a] + [b] == [a, b];
  }

  lemma MeanOfTwo(a: real, b: real)
    ensures Value([a, b], Avg) == (a + b) / 2.0
  {
    hide Total;
    PairTotal(a, b);
  }

  lemma EmptyTotal()
    ensures Total([]) == 0.0
  {
  }

  /**
   * The mean of two nodes' means is the mean of all their devices exactly when the nodes have
   * equally many devices or equal means.
   */
  lemma MeanComposesExactly(xs: seq<real>, ys: seq<real>)
    requires xs != [] && ys != []
    ensures Value([Value(xs, Avg), Value(ys, Avg)], Avg) == Value(xs + ys, Avg)
            <==> |xs| == |ys| || Value(xs, Avg) == Value(ys, Avg)
  {
    hide Value;
    MeanWeighsEveryDevice(xs, ys);
    MeanOfTwo(Value(xs, Avg), Value(ys, Avg));
    assert |xs + ys| as real == |xs| as real + |ys| as real;
    CrossWeights(Value(xs, Avg), Value(ys, Avg), |xs| as real, |ys| as real, Value(xs + ys, Avg));
  }

  /** So an idle single-device node and a busy two-device node do not compose. */
  lemma MeanDoesNotCompose()
    ensures Value([Value([0.0], Avg), Value([6.0, 6.0], Avg)], Avg) != Value([0.0] + [6.0, 6.0], Avg)
  {
    hide Value;
    MeanWeighsEveryDevice([0.0], []);
    MeanOfTwo(6.0, 6.0);
    assert Value([0.0], Avg) == 0.0;
    MeanComposesExactly([0.0], [6.0, 6.0]);
  }
}
