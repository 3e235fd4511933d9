/** Counting and ranks in lists of readings. */
module OrderStatistics {

  predicate Under(x: real, v: real, strict: bool) {
    if strict then x < v else x <= v
  }

  /** How many readings are at most v, or below v when strict. */
  function Count(xs: seq<real>, v: real, strict: bool): (c: nat)
    ensures c <= |xs|
  {
    if xs == [] then 0
    else Count(xs[1..], v, strict) + if Under(xs[0], v, strict) then 1 else 0
  }

  /**
   * r is the k-th smallest reading, counting repetitions: it occurs, at least k readings are at
   * most r and fewer than k are below r.
   */
  ghost predicate IsRank(xs: seq<real>, k: nat, r: real) {
    && r in xs
    && Count(xs, r, false) >= k
    && Count(xs, r, true) < k
  }

  ghost predicate Sorted(xs: seq<real>) {
    forall i, j :: 0 <= i < j < |xs| ==> xs[i] <= xs[j]
  }

  // ----- Counting -----

  lemma {:induction false} CountConcat(xs: seq<real>, ys: seq<real>, v: real, strict: bool)
    ensures Count(xs + ys, v, strict) == Count(xs, v, strict) + Count(ys, v, strict)
  {
    if xs == [] {
      assert xs + ys == ys;
    } else {
      CountConcat(xs[1..], ys, v, strict);
      assert (xs + ys)[1..] == xs[1..] + ys;
    }
  }

  lemma {:induction false} CountAll(xs: seq<real>, v: real, strict: bool)
    requires forall x :: x in xs ==> Under(x, v, strict)
    ensures Count(xs, v, strict) == |xs|
  {
    if xs == [] {
    } else {
      assert forall x :: x in xs[1..] ==> x in xs;
      CountAll(xs[1..], v, strict);
    }
  }

  lemma {:induction false} CountNone(xs: seq<real>, v: real, strict: bool)
    requires forall x :: x in xs ==> !Under(x, v, strict)
    ensures Count(xs, v, strict) == 0
  {
    if xs == [] {
    } else {
      assert forall x :: x in xs[1..] ==> x in xs;
      CountNone(xs[1..], v, strict);
    }
  }

  /** The list without its i-th element. */
  function Without<T>(s: seq<T>, i: nat): (rest: seq<T>)
    requires i < |s|
    ensures |rest| == |s| - 1
    ensures multiset(s) == multiset(rest) + multiset{s[i]}
    ensures multiset(rest) == multiset(s) - multiset{s[i]}
  {
    assert s == s[..i] + ([s[i]] + s[i + 1..]);
    s[..i] + s[i + 1..]
  }

  lemma CountWithout(xs: seq<real>, i: nat, v: real, strict: bool)
    requires i < |xs|
    ensures Count(xs, v, strict) ==
            Count(Without(xs, i), v, strict) + if Under(xs[i], v, strict) then 1 else 0
  {
    assert xs == xs[..i] + ([xs[i]] + xs[i + 1..]);
    CountConcat(xs[..i], [xs[i]] + xs[i + 1..], v, strict);
    CountConcat([xs[i]], xs[i + 1..], v, strict);
    CountConcat(xs[..i], xs[i + 1..], v, strict);
  }

  /** Fewer readings cannot count for more. */
  lemma {:induction false} CountSub(part: seq<real>, xs: seq<real>, v: real, strict: bool)
    requires multiset(part) <= multiset(xs)
    ensures Count(part, v, strict) <= Count(xs, v, strict)
  {
    if part == [] {
    } else {
      assert part == [part[0]] + part[1..];
      assert part[0] in multiset(part);
      assert part[0] in xs;
      var i :| 0 <= i < |xs| && xs[i] == part[0];
      var rest := Without(xs, i);
      CountWithout(xs, i, v, strict);
      assert multiset(part) == multiset{part[0]} + multiset(part[1..]);
      forall x
        ensures multiset(part[1..])[x] <= multiset(rest)[x]
      {
        assert multiset(part)[x] <= multiset(xs)[x];
      }
      CountSub(part[1..], rest, v, strict);
    }
  }

  lemma CountPermuted(xs: seq<real>, ys: seq<real>, v: real, strict: bool)
    requires multiset(xs) == multiset(ys)
    ensures Count(xs, v, strict) == Count(ys, v, strict)
  {
    CountSub(xs, ys, v, strict);
    CountSub(ys, xs, v, strict);
  }

  /** Raising readings and tightening the bound cannot count more. */
  lemma {:induction false} CountPointwise(xs: seq<real>, s: real, ys: seq<real>, r: real)
    requires |xs| == |ys| && s < r
    requires forall i :: 0 <= i < |xs| ==> xs[i] <= ys[i]
    ensures Count(ys, s, false) <= Count(xs, r, true)
  {
    if xs == [] {
    } else {
      CountPointwise(xs[1..], s, ys[1..], r);
    }
  }

  lemma {:induction false} CountBelow(xs: seq<real>, s: real, r: real)
    requires s < r
    ensures Count(xs, s, false) <= Count(xs, r, true)
  {
    CountPointwise(xs, s, xs, r);
  }

  // ----- Ranks -----

  lemma RankUnique(xs: seq<real>, k: nat, r: real, s: real)
    requires IsRank(xs, k, r) && IsRank(xs, k, s)
    ensures r == s
  {
    if r < s {
      CountBelow(xs, r, s);
    } else if s < r {
      CountBelow(xs, s, r);
    }
  }

  /** Position k - 1 of a sorted list holds its rank-k reading. */
  lemma SortedRank(xs: seq<real>, k: nat)
    requires Sorted(xs) && 0 < k <= |xs|
    ensures IsRank(xs, k, xs[k - 1])
  {
    var r := xs[k - 1];
    SortedSplit(xs, k, r, false);
    SortedSplit(xs, k - 1, r, true);
  }

  lemma SortedSplit(xs: seq<real>, n: nat, r: real, strict: bool)
    requires n <= |xs|
    requires forall i :: 0 <= i < n ==> strict || xs[i] <= r
    requires forall i :: n <= i < |xs| ==> strict ==> xs[i] >= r
    ensures strict ==> Count(xs, r, true) <= n
    ensures !strict ==> Count(xs, r, false) >= n
  {
    var low, high := xs[..n], xs[n..];
    assert xs == low + high;
    CountConcat(low, high, r, strict);
    if strict {
      CountNone(high, r, true);
    } else {
      CountAll(low, r, false);
    }
  }

  lemma RankPermuted(xs: seq<real>, ys: seq<real>, k: nat, r: real)
    requires multiset(xs) == multiset(ys) && IsRank(xs, k, r)
    ensures IsRank(ys, k, r)
  {
    CountPermuted(xs, ys, r, false);
    CountPermuted(xs, ys, r, true);
    assert r in multiset(xs);
    assert r in multiset(ys);
  }

  /** Order statistics are monotone: raising readings cannot lower the k-th smallest. */
  lemma RankMonotone(xs: seq<real>, ys: seq<real>, k: nat, r: real, s: real)
    requires |xs| == |ys| && forall i :: 0 <= i < |xs| ==> xs[i] <= ys[i]
    requires IsRank(xs, k, r) && IsRank(ys, k, s)
    ensures r <= s
  {
    if s < r {
      CountPointwise(xs, s, ys, r);
    }
  }

  /** A higher rank is a value no lower. */
  lemma RankOrdered(xs: seq<real>, k: nat, r: real, l: nat, s: real)
    requires k <= l && IsRank(xs, k, r) && IsRank(xs, l, s)
    ensures r <= s
  {
    if s < r {
      CountBelow(xs, s, r);
    }
  }

  /**
   * Robustness: when at least k readings remain after a deletion, some remaining reading is as
   * high as the k-th smallest of all.
   */
  lemma RankSurvives(xs: seq<real>, k: nat, r: real, kept: seq<real>)
    requires IsRank(xs, k, r)
    requires multiset(kept) <= multiset(xs) && |kept| >= k
    ensures exists x :: x in kept && r <= x
  {
    if forall x :: x in kept ==> x < r {
      CountAll(kept, r, true);
      CountSub(kept, xs, r, true);
    }
  }
}
