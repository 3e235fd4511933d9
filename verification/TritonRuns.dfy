/** Conservation laws over every run of successful scrapes of one Triton endpoint. */
module TritonRuns {
  import opened Clock
  import opened Triton
  import opened Aggregation
  import opened AggregationLaws

  function Positive(x: real): real { if x > 0.0 then x else 0.0 }

  // ----- Intervals: scrape i closes the interval that scrape i - 1 opened -----

  function DCount(s: seq<Sample>, i: nat): real
    requires 0 < i < |s|
  {
    s[i].count - s[i - 1].count
  }

  function DQueue(s: seq<Sample>, i: nat): real
    requires 0 < i < |s|
  {
    s[i].queueUs - s[i - 1].queueUs
  }

  /** The nanoseconds between two scrapes. */
  function Gap(s: seq<Sample>, i: nat): int
    requires 0 < i < |s|
  {
    s[i].at - s[i - 1].at
  }

  /** The longest interval the client can measure, about 292 years. */
  const LONGEST_GAP: int := 9_223_372_036_854_775_807

  /** The seconds between two scrapes, of which the client measures no more than the longest gap. */
  function Elapsed(s: seq<Sample>, i: nat): real
    requires 0 < i < |s|
  {
    (if Gap(s, i) > LONGEST_GAP then LONGEST_GAP else Gap(s, i)) as real / 1_000_000_000.0
  }

  /** What scrape i reported. */
  function Reported(s: seq<Sample>, i: nat): Derived
    requires i < |s|
  {
    DeriveAfter(s[..i], s[i])
  }

  lemma ReportedIsDerived(s: seq<Sample>, i: nat)
    requires 0 < i < |s|
    ensures Reported(s, i) == Derive(s[i - 1], s[i])
  {
    assert s[..i][i - 1] == s[i - 1];
  }

  /** The rate is the growth per second of clock time, zero without growth or clock progress. */
  lemma {:induction false} RateByClock(s: seq<Sample>, i: nat)
    requires 0 < i < |s|
    ensures var rate := Reported(s, i).requestRatePerSec;
            if DCount(s, i) > 0.0 && Gap(s, i) > 0 then rate * Elapsed(s, i) == DCount(s, i)
            else rate == 0.0
  {
    hide Sub, InSeconds;
    ReportedIsDerived(s, i);
    var seconds := InSeconds(Sub(s[i].at, s[i - 1].at));
    if Gap(s, i) > 0 {
      SecondsBetween(s[i].at, s[i - 1].at);
      assert seconds == Elapsed(s, i);
      if DCount(s, i) > 0.0 {
        QuotientTimes(DCount(s, i), seconds);
      }
    } else {
      NoSecondsBetween(s[i].at, s[i - 1].at);
    }
  }

  lemma NoSecondsBetween(t: Instant, u: Instant)
    requires t <= u
    ensures InSeconds(Sub(t, u)) <= 0.0
  {
  }

  // ----- Sums over the intervals -----

  lemma {:induction false} TotalAdds(a: seq<real>, b: seq<real>, c: seq<real>)
    requires |a| == |b| == |c| && forall i :: 0 <= i < |a| ==> a[i] + b[i] == c[i]
    ensures Total(a) + Total(b) == Total(c)
  {
    if a == [] {
    } else {
      var n := |a| - 1;
      TotalAdds(a[..n], b[..n], c[..n]);
    }
  }

  lemma {:induction false} TotalNonNegative(a: seq<real>)
    requires forall i :: 0 <= i < |a| ==> a[i] >= 0.0
    ensures Total(a) >= 0.0
    ensures Total(a) == 0.0 <==> forall i :: 0 <= i < |a| ==> a[i] == 0.0
  {
    if a == [] {
    } else {
      var n := |a| - 1;
      TotalNonNegative(a[..n]);
      assert a[..n] + [a[n]] == a;
    }
  }

  /** The changes of a counter add up to last minus first. */
  lemma {:induction false} Telescope(changes: seq<real>, counter: seq<real>)
    requires counter != [] && |changes| == |counter| && changes[0] == 0.0
    requires forall i :: 0 < i < |counter| ==> changes[i] == counter[i] - counter[i - 1]
    ensures Total(changes) == counter[|counter| - 1] - counter[0]
  {
    var n := |counter| - 1;
    if n == 0 {
      assert changes[..0] == [];
    } else {
      Telescope(changes[..n], counter[..n]);
    }
  }

  // ----- Request rate -----

  /** The requests each scrape reports for its interval: rate times elapsed time. */
  function RateMass(s: seq<Sample>): seq<real> {
    seq(|s|, i requires 0 <= i < |s| =>
      if i == 0 then 0.0 else Reported(s, i).requestRatePerSec * Elapsed(s, i))
  }

  /** The counter growth of each interval, nothing where the counter reset. */
  function Growth(s: seq<Sample>): seq<real> {
    seq(|s|, i requires 0 <= i < |s| => if i == 0 then 0.0 else Positive(DCount(s, i)))
  }

  /** Growth between two scrapes whose clock did not advance, which no rate can express. */
  function Unclocked(s: seq<Sample>): seq<real> {
    seq(|s|, i requires 0 <= i < |s| =>
      if i > 0 && Gap(s, i) <= 0 then Positive(DCount(s, i)) else 0.0)
  }

  lemma RateInterval(s: seq<Sample>, i: nat)
    requires i < |s|
    ensures RateMass(s)[i] + Unclocked(s)[i] == Growth(s)[i]
    ensures RateMass(s)[i] >= 0.0 && Unclocked(s)[i] >= 0.0
  {
    hide Reported;
    if i > 0 {
      RateByClock(s, i);
    }
  }

  /**
   * Over any run, with resets and failures, the reported rates account for all counter growth but
   * that of intervals whose clock did not advance.
   */
  lemma RateConservation(s: seq<Sample>)
    ensures Total(RateMass(s)) + Total(Unclocked(s)) == Total(Growth(s))
  {
    forall i | 0 <= i < |s|
      ensures RateMass(s)[i] + Unclocked(s)[i] == Growth(s)[i]
    {
      RateInterval(s, i);
    }
    TotalAdds(RateMass(s), Unclocked(s), Growth(s));
  }

  lemma UnclockedExact(s: seq<Sample>, i: nat)
    requires 0 < i < |s|
    ensures Unclocked(s)[i] == 0.0 <==> (DCount(s, i) > 0.0 ==> s[i].at > s[i - 1].at)
  {
  }

  /** The rates account for all growth exactly when the clock advanced whenever the counter did. */
  lemma RateConservationExact(s: seq<Sample>)
    ensures Total(RateMass(s)) == Total(Growth(s))
            <==> forall i :: 0 < i < |s| && DCount(s, i) > 0.0 ==> s[i].at > s[i - 1].at
  {
    RateConservation(s);
    forall i | 0 <= i < |s|
      ensures Unclocked(s)[i] >= 0.0
      ensures i == 0 ==> Unclocked(s)[i] == 0.0
      ensures i > 0 ==>
                (Unclocked(s)[i] == 0.0 <==> (DCount(s, i) > 0.0 ==> s[i].at > s[i - 1].at))
    {
      RateInterval(s, i);
      if i > 0 {
        UnclockedExact(s, i);
      }
    }
    assert |Unclocked(s)| == |s|;
    hide RateMass, Growth, Unclocked, Elapsed;
    TotalNonNegative(Unclocked(s));
  }

  // ----- Request rate against the clock -----

  /** Rate times the true time of each interval, in nanoseconds. */
  function NanoMass(s: seq<Sample>): seq<real> {
    seq(|s|, i requires 0 <= i < |s| =>
      if i == 0 then 0.0 else Reported(s, i).requestRatePerSec * Gap(s, i) as real)
  }

  /** By how much rates are too high because part of their interval was not measured. */
  function Overstated(s: seq<Sample>): seq<real> {
    seq(|s|, i requires 0 <= i < |s| =>
      if i > 0 && Gap(s, i) > LONGEST_GAP
      then Reported(s, i).requestRatePerSec * (Gap(s, i) - LONGEST_GAP) as real else 0.0)
  }

  function Scaled(xs: seq<real>, factor: real): seq<real> {
    seq(|xs|, i requires 0 <= i < |xs| => xs[i] * factor)
  }

  lemma {:induction false} TotalScaled(xs: seq<real>, factor: real)
    ensures Total(Scaled(xs, factor)) == Total(xs) * factor
  {
    if xs == [] {
    } else {
      var n := |xs| - 1;
      TotalScaled(xs[..n], factor);
      forall i | 0 <= i < n
        ensures Scaled(xs, factor)[..n][i] == Scaled(xs[..n], factor)[i]
      {
        assert xs[..n][i] == xs[i];
      }
      assert Scaled(xs, factor)[..n] == Scaled(xs[..n], factor);
    }
  }

  /** One interval: the rate is exact exactly when the clock advanced by a measurable time. */
  lemma {:induction false} NanoInterval(s: seq<Sample>, i: nat)
    requires i < |s|
    ensures NanoMass(s)[i] + Unclocked(s)[i] * 1_000_000_000.0
            == Growth(s)[i] * 1_000_000_000.0 + Overstated(s)[i]
    ensures Overstated(s)[i] >= 0.0
    ensures i > 0 ==>
              (Overstated(s)[i] == 0.0 <==> (DCount(s, i) > 0.0 ==> Gap(s, i) <= LONGEST_GAP))
    ensures i > 0 ==>
              (NanoMass(s)[i] == Growth(s)[i] * 1_000_000_000.0
               <==> (DCount(s, i) > 0.0 ==> 0 < Gap(s, i) <= LONGEST_GAP))
  {
    hide Reported;
    if i > 0 {
      RateByClock(s, i);
      var rate := Reported(s, i).requestRatePerSec;
      if DCount(s, i) > 0.0 && Gap(s, i) > 0 {
        PositiveFactor(rate, Elapsed(s, i));
        if Gap(s, i) > LONGEST_GAP {
          NanoSplit(rate, Gap(s, i), DCount(s, i));
        }
      }
    }
  }

  lemma PositiveFactor(x: real, y: real)
    requires y > 0.0 && x * y > 0.0
    ensures x > 0.0
  {
  }

  lemma NanoSplit(rate: real, gap: int, growth: real)
    requires rate > 0.0 && gap > LONGEST_GAP
    requires rate * (LONGEST_GAP as real / 1_000_000_000.0) == growth
    ensures rate * gap as real
            == growth * 1_000_000_000.0 + rate * (gap - LONGEST_GAP) as real
    ensures rate * (gap - LONGEST_GAP) as real > 0.0
  {
    assert rate * LONGEST_GAP as real == growth * 1_000_000_000.0;
    assert gap as real == LONGEST_GAP as real + (gap - LONGEST_GAP) as real;
  }

  /**
   * Against the clock itself: over any run the reported rates times the nanoseconds they cover, and
   * the unclocked growth, make up all growth, except that a rate over more than the longest gap is
   * too high; this happens exactly when the counter grew over such a gap.
   */
  lemma {:induction false} NanosecondConservation(s: seq<Sample>)
    ensures Total(NanoMass(s)) + Total(Unclocked(s)) * 1_000_000_000.0
            == Total(Growth(s)) * 1_000_000_000.0 + Total(Overstated(s))
    ensures Total(Overstated(s)) >= 0.0
    ensures Total(Overstated(s)) == 0.0
            <==> forall i :: 0 < i < |s| && DCount(s, i) > 0.0 ==> Gap(s, i) <= LONGEST_GAP
  {
    var mass, unclocked := NanoMass(s), Scaled(Unclocked(s), 1_000_000_000.0);
    var growth, over := Scaled(Growth(s), 1_000_000_000.0), Overstated(s);
    var sum := seq(|s|, i requires 0 <= i < |s| => mass[i] + unclocked[i]);
    forall i | 0 <= i < |s|
      ensures growth[i] + over[i] == sum[i] && over[i] >= 0.0
      ensures over[i] == 0.0
              <==> i == 0 || (DCount(s, i) > 0.0 ==> Gap(s, i) <= LONGEST_GAP)
    {
      NanoInterval(s, i);
    }
    TotalScaled(Unclocked(s), 1_000_000_000.0);
    TotalScaled(Growth(s), 1_000_000_000.0);
    hide NanoMass, Unclocked, Growth, Overstated, Scaled, Total;
    TotalAdds(mass, unclocked, sum);
    TotalAdds(growth, over, sum);
    TotalNonNegative(over);
  }

  /** Scrape i's rate times the nanoseconds since the previous one is the growth times 10^9. */
  predicate RateExact(s: seq<Sample>, i: nat)
    requires 0 < i < |s|
  {
    Reported(s, i).requestRatePerSec * (s[i].at - s[i - 1].at) as real
    == Positive(DCount(s, i)) * 1_000_000_000.0
  }

  /** If the counter grew, then with clock progress of at most about 292 years. */
  predicate GrewMeasurably(s: seq<Sample>, i: nat)
    requires 0 < i < |s|
  {
    s[i].count > s[i - 1].count ==> 0 < s[i].at - s[i - 1].at <= 9_223_372_036_854_775_807
  }

  /** Every rate is exact exactly when growth always came with measurable clock progress. */
  lemma {:induction false} RatesAreExact(s: seq<Sample>)
    ensures (forall i :: 0 < i < |s| ==> RateExact(s, i))
            <==> (forall i :: 0 < i < |s| ==> GrewMeasurably(s, i))
  {
    hide RateExact, GrewMeasurably;
    forall i | 0 < i < |s|
      ensures RateExact(s, i) <==> GrewMeasurably(s, i)
    {
      RateExactHere(s, i);
    }
  }

  lemma RateExactHere(s: seq<Sample>, i: nat)
    requires 0 < i < |s|
    ensures RateExact(s, i) <==> GrewMeasurably(s, i)
  {
    NanoInterval(s, i);
    assert NanoMass(s)[i] == Reported(s, i).requestRatePerSec * (s[i].at - s[i - 1].at) as real;
    assert Growth(s)[i] == Positive(DCount(s, i));
    hide Reported, NanoMass, Growth, Overstated, Unclocked, Positive;
  }

  /** With an advancing clock and no reset the rates add up to last minus first. */
  lemma RateIsLastMinusFirst(s: seq<Sample>)
    requires s != []
    requires forall i :: 0 < i < |s| ==> s[i].at > s[i - 1].at && DCount(s, i) >= 0.0
    ensures Total(RateMass(s)) == s[|s| - 1].count - s[0].count
  {
    hide RateMass;
    RateConservationExact(s);
    var counts := seq(|s|, i requires 0 <= i < |s| => s[i].count);
    Telescope(Growth(s), counts);
  }

  // ----- Queue wait -----

  /** The queue time each scrape accounts for: average wait times the inferences it averages over. */
  function WaitMass(s: seq<Sample>): seq<real> {
    seq(|s|, i requires 0 <= i < |s| =>
      if i == 0 then 0.0 else Reported(s, i).avgQueueWaitUs * DCount(s, i))
  }

  /** Queue time grown while inferences advanced. */
  function Attributed(s: seq<Sample>): seq<real> {
    seq(|s|, i requires 0 <= i < |s| =>
      if i > 0 && DCount(s, i) > 0.0 then Positive(DQueue(s, i)) else 0.0)
  }

  /** Queue time grown while they did not. */
  function Unattributed(s: seq<Sample>): seq<real> {
    seq(|s|, i requires 0 <= i < |s| =>
      if i > 0 && DCount(s, i) <= 0.0 then Positive(DQueue(s, i)) else 0.0)
  }

  lemma WaitInterval(s: seq<Sample>, i: nat)
    requires i < |s|
    ensures WaitMass(s)[i] == Attributed(s)[i]
  {
    if i > 0 {
      ReportedIsDerived(s, i);
      if DCount(s, i) > 0.0 {
        QuotientTimes(DQueue(s, i), DCount(s, i));
      }
    }
  }

  /** Over any run, with resets, the waits account for exactly the attributed queue time. */
  lemma WaitConservation(s: seq<Sample>)
    ensures Total(WaitMass(s)) == Total(Attributed(s))
  {
    forall i | 0 <= i < |s|
      ensures WaitMass(s)[i] == Attributed(s)[i]
    {
      WaitInterval(s, i);
    }
    assert WaitMass(s) == Attributed(s);
  }

  /**
   * Without queue resets the gap to the total queue-time growth is the time that accumulated in
   * intervals without a new inference; it is never negative.
   */
  lemma WaitGap(s: seq<Sample>)
    requires s != [] && forall i :: 0 < i < |s| ==> DQueue(s, i) >= 0.0
    ensures Total(WaitMass(s)) + Total(Unattributed(s)) == s[|s| - 1].queueUs - s[0].queueUs
    ensures Total(WaitMass(s)) <= s[|s| - 1].queueUs - s[0].queueUs
  {
    hide WaitMass, Total;
    WaitConservation(s);
    var queue := seq(|s|, i requires 0 <= i < |s| => s[i].queueUs);
    var change := seq(|s|, i requires 0 <= i < |s| => if i == 0 then 0.0 else DQueue(s, i));
    TotalAdds(Attributed(s), Unattributed(s), change);
    Telescope(change, queue);
    TotalNonNegative(Unattributed(s));
  }

  // ----- Resets and sharing -----

  /** Whatever the counters do, no derived value is negative, and the first scrape derives none. */
  lemma DerivedNeverNegative(s: seq<Sample>, i: nat)
    requires i < |s|
    ensures Reported(s, i).avgQueueWaitUs >= 0.0 && Reported(s, i).requestRatePerSec >= 0.0
    ensures i == 0 || s[i].count <= s[i - 1].count ==> Reported(s, i) == Derived(0.0, 0.0)
  {
    if i > 0 {
      ReportedIsDerived(s, i);
      QuotientPositive(DQueue(s, i), DCount(s, i));
      QuotientPositive(DCount(s, i), Elapsed(s, i));
    }
  }

  lemma QuotientPositive(a: real, b: real)
    ensures a > 0.0 && b > 0.0 ==> a / b > 0.0
  {
  }

  /** The part of the growth reported to one of the readers that share the client. */
  function SeenBy(s: seq<Sample>, mine: seq<bool>): seq<real>
    requires |mine| == |s|
  {
    seq(|s|, i requires 0 <= i < |s| => if mine[i] then RateMass(s)[i] else 0.0)
  }

  function Others(mine: seq<bool>): seq<bool> {
    seq(|mine|, i requires 0 <= i < |mine| => !mine[i])
  }

  /** Every counter advance is reported to the reader, over an interval with clock progress. */
  ghost predicate ToldEverything(s: seq<Sample>, mine: seq<bool>)
    requires |mine| == |s|
  {
    forall i :: 0 < i < |s| && DCount(s, i) > 0.0 ==> mine[i] && s[i].at > s[i - 1].at
  }

  /** What is missing from one reader's share: the others' shares and the unclocked growth. */
  function Missed(s: seq<Sample>, mine: seq<bool>): seq<real>
    requires |mine| == |s|
  {
    seq(|s|, i requires 0 <= i < |s| => SeenBy(s, Others(mine))[i] + Unclocked(s)[i])
  }

  lemma MissedExact(s: seq<Sample>, mine: seq<bool>, i: nat)
    requires |mine| == |s| && i < |s|
    ensures SeenBy(s, mine)[i] + Missed(s, mine)[i] == Growth(s)[i]
    ensures SeenBy(s, mine)[i] >= 0.0 && Missed(s, mine)[i] >= 0.0
    ensures Missed(s, mine)[i] == 0.0
            <==> i == 0 || DCount(s, i) <= 0.0 || (mine[i] && s[i].at > s[i - 1].at)
  {
    RateInterval(s, i);
    assert Others(mine)[i] == !mine[i];
    assert SeenBy(s, mine)[i] + SeenBy(s, Others(mine))[i] == RateMass(s)[i];
    if i > 0 {
      UnclockedExact(s, i);
    }
  }

  /**
   * Readers share one baseline: over any run what one reader is told, what the others are told and
   * the unclocked growth add up to the whole, so an activity poll takes its interval's growth away
   * from the metric series. A reader is told everything exactly when every advance of the counter
   * was reported to it, with clock progress.
   */
  lemma ReadersShareTheGrowth(s: seq<Sample>, mine: seq<bool>)
    requires |mine| == |s|
    ensures Total(SeenBy(s, mine)) + Total(SeenBy(s, Others(mine))) + Total(Unclocked(s))
            == Total(Growth(s))
    ensures 0.0 <= Total(SeenBy(s, mine)) <= Total(Growth(s))
    ensures Total(SeenBy(s, mine)) == Total(Growth(s)) <==> ToldEverything(s, mine)
  {
    hide Total;
    var seen, missed := SeenBy(s, mine), Missed(s, mine);
    assert |seen| == |missed| == |s| == |Growth(s)|;
    forall i | 0 <= i < |s|
      ensures seen[i] + missed[i] == Growth(s)[i] && seen[i] >= 0.0 && missed[i] >= 0.0
      ensures missed[i] == 0.0
              <==> i == 0 || DCount(s, i) <= 0.0 || (mine[i] && s[i].at > s[i - 1].at)
    {
      MissedExact(s, mine, i);
    }
    TotalAdds(SeenBy(s, Others(mine)), Unclocked(s), missed);
    hide Growth, SeenBy, Missed, Unclocked;
    TotalAdds(seen, missed, Growth(s));
    TotalNonNegative(seen);
    TotalNonNegative(missed);
  }

  /** With an advancing clock: exactly when the counter stood still whenever another reader asked. */
  lemma ToldEverythingExactly(s: seq<Sample>, mine: seq<bool>)
    requires |mine| == |s| && forall i :: 0 < i < |s| ==> s[i].at > s[i - 1].at
    ensures Total(SeenBy(s, mine)) == Total(Growth(s))
            <==> forall i :: 0 < i < |s| && !mine[i] ==> DCount(s, i) <= 0.0
  {
    hide Total, SeenBy, Growth;
    ReadersShareTheGrowth(s, mine);
  }

  // ----- The counter is a sum over models -----

  /** Per-model counts of every scrape; a model that is not loaded counts zero. */
  ghost predicate SplitByModel(s: seq<Sample>, models: seq<seq<real>>) {
    && |models| == |s|
    && (forall i :: 0 <= i < |s| ==> |models[i]| == |models[0]| && s[i].count == Total(models[i]))
  }

  function Changes(before: seq<real>, after: seq<real>): seq<real>
    requires |before| == |after|
  {
    seq(|after|, k requires 0 <= k < |after| => after[k] - before[k])
  }

  function Positives(xs: seq<real>): seq<real> {
    seq(|xs|, k requires 0 <= k < |xs| => Positive(xs[k]))
  }

  function Negatives(xs: seq<real>): seq<real> {
    seq(|xs|, k requires 0 <= k < |xs| => Positive(-xs[k]))
  }

  /** All changes point the same way. */
  predicate OneWay(xs: seq<real>) {
    (forall k :: 0 <= k < |xs| ==> xs[k] >= 0.0) || (forall k :: 0 <= k < |xs| ==> xs[k] <= 0.0)
  }

  /** The positive part of a sum falls short of the sum of positive parts, unless all agree in sign. */
  lemma PositiveOfSum(xs: seq<real>)
    ensures Positive(Total(xs)) <= Total(Positives(xs))
    ensures Positive(Total(xs)) == Total(Positives(xs)) <==> OneWay(xs)
  {
    hide Total;
    var up, down := Positives(xs), Negatives(xs);
    TotalAdds(xs, down, up);
    TotalNonNegative(up);
    TotalNonNegative(down);
    assert (forall k :: 0 <= k < |xs| ==> (up[k] == 0.0 <==> xs[k] <= 0.0));
    assert (forall k :: 0 <= k < |xs| ==> (down[k] == 0.0 <==> xs[k] >= 0.0));
  }

  /** What the models grew in each interval, each model's reset counted for itself. */
  function ModelGrowth(models: seq<seq<real>>): seq<real>
    requires forall i :: 0 <= i < |models| ==> |models[i]| == |models[0]|
  {
    seq(|models|, i requires 0 <= i < |models| =>
      if i == 0 then 0.0 else Total(Positives(Changes(models[i - 1], models[i]))))
  }

  /** In one interval, one model's reset hides another's growth unless all models move one way. */
  lemma ModelInterval(s: seq<Sample>, models: seq<seq<real>>, i: nat)
    requires SplitByModel(s, models) && i < |s|
    ensures Growth(s)[i] <= ModelGrowth(models)[i]
    ensures Growth(s)[i] == ModelGrowth(models)[i]
            <==> i == 0 || OneWay(Changes(models[i - 1], models[i]))
  {
    hide Total;
    if i > 0 {
      var changes := Changes(models[i - 1], models[i]);
      TotalAdds(changes, models[i - 1], models[i]);
      PositiveOfSum(changes);
    }
  }

  /**
   * Over any run the reported rates stay within what the models grew, and account for all of it
   * exactly when in every interval all models moved one way, and the clock advanced whenever their
   * sum did.
   */
  lemma ModelResetsHideGrowth(s: seq<Sample>, models: seq<seq<real>>)
    requires SplitByModel(s, models)
    ensures Total(RateMass(s)) <= Total(Growth(s)) <= Total(ModelGrowth(models))
    ensures Total(Growth(s)) == Total(ModelGrowth(models))
            <==> forall i :: 0 < i < |s| ==> OneWay(Changes(models[i - 1], models[i]))
    ensures Total(RateMass(s)) == Total(ModelGrowth(models))
            <==> forall i :: 0 < i < |s| ==>
                   && OneWay(Changes(models[i - 1], models[i]))
                   && (DCount(s, i) > 0.0 ==> s[i].at > s[i - 1].at)
  {
    hide Total, OneWay, Changes;
    RatesWithinGrowth(s);
    var growth, all := Growth(s), ModelGrowth(models);
    var hidden := seq(|s|, i requires 0 <= i < |s| => all[i] - growth[i]);
    forall i | 0 <= i < |s|
      ensures growth[i] + hidden[i] == all[i] && hidden[i] >= 0.0
      ensures hidden[i] == 0.0 <==> i == 0 || OneWay(Changes(models[i - 1], models[i]))
    {
      ModelInterval(s, models, i);
    }
    hide Growth, ModelGrowth, RateMass;
    TotalAdds(growth, hidden, all);
    TotalNonNegative(hidden);
  }

  lemma RatesWithinGrowth(s: seq<Sample>)
    ensures Total(RateMass(s)) <= Total(Growth(s))
    ensures Total(RateMass(s)) == Total(Growth(s))
            <==> forall i :: 0 < i < |s| ==> (DCount(s, i) > 0.0 ==> s[i].at > s[i - 1].at)
  {
    RateConservation(s);
    RateConservationExact(s);
    forall i | 0 <= i < |s|
      ensures Unclocked(s)[i] >= 0.0
    {
      RateInterval(s, i);
    }
    hide RateMass, Growth, Unclocked;
    TotalNonNegative(Unclocked(s));
  }

  /** Two models, one restarted while the other served ten requests: no growth is seen at all. */
  lemma HiddenByReset()
    ensures var s := [Sample(20.0, 0.0, 1), Sample(15.0, 0.0, 2)];
            var models := [[15.0, 5.0], [0.0, 15.0]];
            && SplitByModel(s, models)
            && Growth(s) == [0.0, 0.0]
            && ModelGrowth(models) == [0.0, 10.0]
  {
    PairTotal(15.0, 5.0);
    PairTotal(0.0, 15.0);
    PairTotal(0.0, 10.0);
    assert Positives(Changes([15.0, 5.0], [0.0, 15.0])) == [0.0, 10.0];
  }
}
