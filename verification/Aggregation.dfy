/** How the readings of several GPUs become one value: `aggregate` and `percentile`. */
module Aggregation {
  import opened OrderStatistics

  datatype Method = Max | Min | Avg | Sum | P95 | P99 | Unrecognized(text: string) {
    predicate Accepted() { !Unrecognized? }
  }

  function MethodOf(text: string): Method {
    if text == "max" then Max
    else if text == "min" then Min
    else if text == "avg" then Avg
    else if text == "sum" then Sum
    else if text == "p95" then P95
    else if text == "p99" then P99
    else Unrecognized(text)
  }

  const P95_LEVEL: real := 0.95
  const P99_LEVEL: real := 0.99

  // ----- What each method means -----

  function Maximum(xs: seq<real>): (m: real)
    requires xs != []
    ensures m in xs && forall x :: x in xs ==> x <= m
  {
    var last := xs[|xs| - 1];
    if |xs| == 1 then last else
      var m := Maximum(xs[..|xs| - 1]);
      assert forall x :: x in xs ==> x in xs[..|xs| - 1] || x == last;
      if last > m then last else m
  }

  function Minimum(xs: seq<real>): (m: real)
    requires xs != []
    ensures m in xs && forall x :: x in xs ==> m <= x
  {
    var last := xs[|xs| - 1];
    if |xs| == 1 then last else
      var m := Minimum(xs[..|xs| - 1]);
      assert forall x :: x in xs ==> x in xs[..|xs| - 1] || x == last;
      if last < m then last else m
  }

  function Total(xs: seq<real>): real {
    if xs == [] then 0.0 else Total(xs[..|xs| - 1]) + xs[|xs| - 1]
  }

  function Insert(s: seq<real>, x: real): (t: seq<real>)
    ensures |t| == |s| + 1
  {
    if s == [] || s[|s| - 1] <= x then s + [x]
    else Insert(s[..|s| - 1], x) + [s[|s| - 1]]
  }

  /** The readings in ascending order. */
  function Ascending(xs: seq<real>): (s: seq<real>)
    ensures |s| == |xs|
  {
    if xs == [] then [] else Insert(Ascending(xs[..|xs| - 1]), xs[|xs| - 1])
  }

  /** `math.Ceil`. */
  function Ceil(x: real): int { -((-x).Floor) }

  /** The nearest rank of level p among n readings, counted from 1. */
  function NearestRank(p: real, n: nat): int { Ceil(p * n as real) }

  /** The index computed from the rank, with both of the source's clamps. */
  function PercentileIndex(p: real, n: nat): (i: nat)
    requires n > 0
    ensures i < n
  {
    var idx := NearestRank(p, n) - 1;
    var low := if idx < 0 then 0 else idx;
    if low >= n then n - 1 else low
  }

  function PercentileOf(xs: seq<real>, p: real): real
    requires xs != []
  {
    Ascending(xs)[PercentileIndex(p, |xs|)]
  }

  /** The value of a list of readings under a method; no readings count as zero. */
  function Value(xs: seq<real>, m: Method): real {
    if xs == [] then 0.0 else
      match m
      case Max => Maximum(xs)
      case Min => Minimum(xs)
      case Avg => Total(xs) / |xs| as real
      case Sum => Total(xs)
      case P95 => PercentileOf(xs, P95_LEVEL)
      case P99 => PercentileOf(xs, P99_LEVEL)
      case Unrecognized(_) => xs[0]
  }

  // ----- The loops -----

  /** In-place ascending sort, standing for `sort.Float64s`. */
  method SortFloat64s(a: array<real>)
    modifies a
    ensures a[..] == Ascending(old(a[..]))
  {
    ghost var was := a[..];
    for i := 0 to a.Length
      invariant a[..i] == Ascending(was[..i])
      invariant a[i..] == was[i..]
    {
      InsertLast(a, i);
      assert was[..i + 1][..i] == was[..i];
    }
    assert was[..a.Length] == was;
    assert a[..] == a[..a.Length];
  }

  /** One shift: a last element above x stays last. */
  lemma InsertShift(s: seq<real>, x: real, j: nat)
    requires 0 < j <= |s| && s[j - 1] > x
    ensures Insert(s[..j], x) + s[j..] == Insert(s[..j - 1], x) + s[j - 1..]
  {
    assert s[..j][..j - 1] == s[..j - 1];
    assert s[j - 1..] == [s[j - 1]] + s[j..];
  }

  /** The last shift: x belongs at the end. */
  lemma InsertHere(s: seq<real>, x: real, j: nat)
    requires j <= |s| && (j == 0 || s[j - 1] <= x)
    ensures Insert(s[..j], x) == s[..j] + [x]
  {
  }

  /** Moves a[i] to its place in the ascending prefix a[..i]. */
  method InsertLast(a: array<real>, i: nat)
    requires i < a.Length
    modifies a
    ensures a[..i + 1] == Insert(old(a[..i]), old(a[i]))
    ensures a[i + 1..] == old(a[i + 1..])
  {
    hide Insert;
    var x := a[i];
    ghost var s := a[..i];
    assert s[..i] == s && s[i..] == [];
    var j := i;
    while j > 0 && a[j - 1] > x
      invariant 0 <= j <= i
      invariant forall k :: 0 <= k < j ==> a[k] == s[k]
      invariant forall k :: j < k <= i ==> a[k] == s[k - 1]
      invariant a[i + 1..] == old(a[i + 1..])
      invariant Insert(s, x) == Insert(s[..j], x) + s[j..]
    {
      InsertShift(s, x, j);
      a[j] := a[j - 1];
      j := j - 1;
    }
    InsertHere(s, x, j);
    a[j] := x;
    assert a[..i + 1] == s[..j] + [x] + s[j..];
  }

  /** `percentile`: sorts a copy, leaving the readings themselves untouched. */
  method Percentile(values: array<real>, p: real) returns (r: real)
    requires values.Length > 0
    ensures r == PercentileOf(values[..], p)
  {
    hide NearestRank;
    var sorted := new real[values.Length];
    for i := 0 to values.Length
      invariant sorted[..i] == values[..i]
    {
      sorted[i] := values[i];
    }
    assert sorted[..] == values[..];
    SortFloat64s(sorted);
    var idx := NearestRank(p, sorted.Length) - 1;
    if idx < 0 {
      idx := 0;
    }
    if idx >= sorted.Length {
      idx := sorted.Length - 1;
    }
    r := sorted[idx];
    assert r == sorted[..][idx];
  }

  method Aggregate(values: array<real>, m: Method) returns (r: real)
    ensures r == Value(values[..], m)
  {
    if values.Length == 0 {
      return 0.0;
    }
    match m
    case Max =>
      var max := values[0];
      for i := 1 to values.Length
        invariant max == Maximum(values[..i])
      {
        assert values[..i + 1][..i] == values[..i];
        if values[i] > max {
          max := values[i];
        }
      }
      assert values[..values.Length] == values[..];
      r := max;
    case Min =>
      var min := values[0];
      for i := 1 to values.Length
        invariant min == Minimum(values[..i])
      {
        assert values[..i + 1][..i] == values[..i];
        if values[i] < min {
          min := values[i];
        }
      }
      assert values[..values.Length] == values[..];
      r := min;
    case Avg =>
      var sum := SumLoop(values);
      r := sum / values.Length as real;
    case Sum =>
      r := SumLoop(values);
    case P95 =>
      r := Percentile(values, P95_LEVEL);
    case P99 =>
      r := Percentile(values, P99_LEVEL);
    case Unrecognized(_) =>
      r := values[0];
  }

  /** The accumulation shared by the mean and the sum. */
  method SumLoop(values: array<real>) returns (sum: real)
    ensures sum == Total(values[..])
  {
    sum := 0.0;
    for i := 0 to values.Length
      invariant sum == Total(values[..i])
    {
      assert values[..i + 1][..i] == values[..i];
      sum := sum + values[i];
    }
    assert values[..values.Length] == values[..];
  }
}
