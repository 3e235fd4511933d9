/** Guarantees of the damper over whole runs of one series. */
module DamperRuns {
  import opened Wrappers
  import opened Clock
  import opened Damper

  // ----- A definition over the history alone, with no stored state -----

  /** The greatest fresh value of h[from..]. */
  ghost function Peak(h: seq<Reading>, from: nat): (m: real)
    requires from < |h|
    ensures forall i :: from <= i < |h| ==> h[i].measured <= m
    ensures exists i :: from <= i < |h| && h[i].measured == m
    decreases |h| - from
  {
    if from + 1 == |h| then h[from].measured else
      var rest := Peak(h, from + 1);
      if h[from].measured > rest then h[from].measured else rest
  }

  /** Where the window of a history starts whose latest admitted drop is d. */
  ghost function WindowStart(d: Option<nat>): nat { d.GetOr(0) }

  /**
   * A call is an admitted drop when it falls below everything in the current window and no drop
   * that is still armed lies less than its own cooldown ago.
   */
  ghost predicate AdmitsDrop(past: seq<Reading>, d: Option<nat>, r: Reading)
    requires past != [] && WindowStart(d) < |past|
  {
    && r.measured < Peak(past, WindowStart(d))
    && (d.Some? && past[d.value].now != ZERO_INSTANT ==>
          r.now - past[d.value].now >= r.cooldown)
  }

  ghost function LatestDrop(h: seq<Reading>): (d: Option<nat>)
    ensures d.Some? ==> 0 < d.value < |h|
  {
    if |h| <= 1 then None else
      var last := |h| - 1;
      var d := LatestDrop(h[..last]);
      if AdmitsDrop(h[..last], d, h[last]) then Some(last) else d
  }

  /** The time of the latest drop, the zero instant when there has been none. */
  ghost function DropTime(h: seq<Reading>): Instant {
    var d := LatestDrop(h);
    if d.None? then ZERO_INSTANT else h[d.value].now
  }

  // ----- Lemmas about histories and their prefixes -----

  lemma {:induction false} PeakExtends(h: seq<Reading>, from: nat)
    requires from + 1 < |h|
    ensures var p := Peak(h[..|h| - 1], from);
            var last := h[|h| - 1].measured;
            Peak(h, from) == if last > p then last else p
  {
    var init := h[..|h| - 1];
    var m := Peak(h, from);
    var i :| from <= i < |h| && h[i].measured == m;
    assert i < |init| ==> init[i].measured == m;
    var k :| from <= k < |init| && init[k].measured == Peak(init, from);
    assert h[k].measured == Peak(init, from);
  }

  lemma {:induction false} ReportsPrefix(h: seq<Reading>, n: nat)
    requires n <= |h|
    ensures Reports(h)[..n] == Reports(h[..n])
  {
    if n == |h| {
      assert h[..n] == h;
    } else {
      ReportsPrefix(h[..|h| - 1], n);
      assert h[..|h| - 1][..n] == h[..n];
    }
  }

  lemma {:induction false} ReportAt(h: seq<Reading>, i: nat)
    requires i < |h|
    ensures Reports(h)[i] == Apply(State(h[..i]), h[i]).reported
    ensures State(h[..i + 1]) == Some(Apply(State(h[..i]), h[i]).cell)
  {
    ReportsPrefix(h, i + 1);
    assert Reports(h)[i] == Reports(h)[..i + 1][i];
    assert h[..i + 1][..i] == h[..i];
  }

  // ----- Refinement: the stored state is exactly what the history says -----

  /**
   * After any history the stored baseline is the greatest fresh value since the latest admitted
   * drop, that value is what was reported, and the stored time is that drop's time.
   */
  lemma {:induction false} HistoryRefinement(h: seq<Reading>)
    requires h != []
    ensures State(h) == Some(Cell(Peak(h, WindowStart(LatestDrop(h))), DropTime(h)))
    ensures Reports(h)[|h| - 1] == Peak(h, WindowStart(LatestDrop(h)))
  {
    var last := |h| - 1;
    var init := h[..last];
    assert Reports(h)[last] == Apply(State(init), h[last]).reported;
    if init == [] {
      assert Peak(h, 0) == h[0].measured;
    } else {
      HistoryRefinement(init);
      AdmittedStep(h);
    }
  }

  /** The history definition takes the same step as the stored state. */
  lemma AdmittedStep(h: seq<Reading>)
    requires |h| > 1
    ensures var init := h[..|h| - 1];
            var before := Cell(Peak(init, WindowStart(LatestDrop(init))), DropTime(init));
            var peak := Peak(h, WindowStart(LatestDrop(h)));
            Apply(Some(before), h[|h| - 1]) == Outcome(Cell(peak, DropTime(h)), peak)
  {
    var last := |h| - 1;
    var init := h[..last];
    var d := LatestDrop(init);
    if AdmitsDrop(init, d, h[last]) {
      assert Peak(h, last) == h[last].measured;
    } else {
      PeakExtends(h, WindowStart(d));
      assert DropTime(h) == DropTime(init);
    }
  }

  /** Every reported value is the window's peak at that call. */
  lemma {:induction false} ReportIsPeak(h: seq<Reading>, i: nat)
    requires i < |h|
    ensures Reports(h)[i] == Peak(h[..i + 1], WindowStart(LatestDrop(h[..i + 1])))
  {
    ReportsPrefix(h, i + 1);
    HistoryRefinement(h[..i + 1]);
  }

  // ----- Spacing of scale-downs -----

  /** The i-th report is below the one before it. */
  ghost predicate Fell(reports: seq<real>, i: nat) {
    0 < i < |reports| && reports[i] < reports[i - 1]
  }

  /** A reported scale-down. */
  ghost predicate Dropped(h: seq<Reading>, i: nat) { Fell(Reports(h), i) }

  /** Reported scale-downs are exactly the admitted drops. */
  lemma DroppedIffAdmitted(h: seq<Reading>, i: nat)
    requires 0 < i < |h|
    ensures Dropped(h, i) <==> LatestDrop(h[..i + 1]) == Some(i)
  {
    ReportAt(h, i);
    ReportIsPeak(h, i - 1);
    HistoryRefinement(h[..i]);
    assert h[..i + 1][..i] == h[..i];
  }

  /** d is the last reported scale-down before call n. */
  ghost predicate LastDropBefore(h: seq<Reading>, n: nat, d: nat) {
    d < n && Dropped(h, d) && forall k :: d < k < n ==> !Dropped(h, k)
  }

  /** The latest admitted drop of a prefix is its last reported scale-down. */
  lemma {:induction false} LatestDropIsLast(h: seq<Reading>, n: nat)
    requires n <= |h|
    ensures match LatestDrop(h[..n])
            case Some(d) => LastDropBefore(h, n, d)
            case None => forall k :: 0 <= k < n ==> !Dropped(h, k)
  {
    hide AdmitsDrop, Reports;
    if n > 1 {
      LatestDropIsLast(h, n - 1);
      DroppedIffAdmitted(h, n - 1);
      assert h[..n][..n - 1] == h[..n - 1];
    }
  }

  /** A scale-down keeps its cooldown's distance from the latest one before it. */
  lemma {:induction false} GapToLatest(h: seq<Reading>, d: nat, j: nat)
    requires Dropped(h, j) && LatestDrop(h[..j]) == Some(d)
    ensures d < j && (h[d].now != ZERO_INSTANT ==> h[j].now - h[d].now >= h[j].cooldown)
  {
    hide Reports;
    DroppedIffAdmitted(h, j);
    assert h[..j + 1][..j] == h[..j];
    assert AdmitsDrop(h[..j], Some(d), h[j]);
  }

  /**
   * A reported scale-down stamped after the zero instant keeps every later one at the later call's
   * own cooldown from it, even if the clock jumps backwards between calls, whatever it reads then.
   */
  lemma {:induction false} ScaleDownsAreSpaced(h: seq<Reading>, i: nat, j: nat)
    requires i < j && Dropped(h, i) && Dropped(h, j) && h[i].now > ZERO_INSTANT
    ensures h[j].now - h[i].now >= h[j].cooldown
    decreases j
  {
    hide Reports, LatestDrop;
    LatestDropIsLast(h, j);
    var d := LatestDrop(h[..j]).value;
    GapToLatest(h, d, j);
    if i < d {
      ScaleDownsAreSpaced(h, i, d);
    }
  }

  /** A list of reports whose drops keep the later calls' cooldowns from those past the zero instant. */
  ghost predicate SpacedReports(h: seq<Reading>, reports: seq<real>)
    requires |reports| == |h|
  {
    forall i: nat, j: nat ::
      i < j && Fell(reports, i) && Fell(reports, j) && h[i].now > ZERO_INSTANT ==>
        h[j].now - h[i].now >= h[j].cooldown
  }

  lemma {:induction false} ReportsAreSpaced(h: seq<Reading>)
    ensures SpacedReports(h, Reports(h))
  {
    hide Reports;
    var reports := Reports(h);
    forall i: nat, j: nat | i < j && Fell(reports, i) && Fell(reports, j) && h[i].now > ZERO_INSTANT
      ensures h[j].now - h[i].now >= h[j].cooldown
    {
      ScaleDownsAreSpaced(h, i, j);
    }
  }

  ghost predicate AllDrops(h: seq<Reading>, ks: seq<nat>) {
    && (forall a :: 0 <= a < |ks| ==> Dropped(h, ks[a]))
    && (forall a, b :: 0 <= a < b < |ks| ==> ks[a] < ks[b])
  }

  /** From a scale-down after the zero instant on, n of them with cooldowns >= C take (n - 1) * C. */
  lemma {:induction false} ScaleDownsSpan(h: seq<Reading>, ks: seq<nat>, C: nat)
    requires ks != [] && AllDrops(h, ks) && h[ks[0]].now > ZERO_INSTANT
    requires forall a :: 0 <= a < |ks| ==> h[ks[a]].cooldown >= C
    ensures h[ks[|ks| - 1]].now - h[ks[0]].now >= (|ks| - 1) * C
  {
    hide Dropped;
    if |ks| > 1 {
      var init := ks[..|ks| - 1];
      assert forall a, b :: 0 <= a < b < |init| ==> init[a] == ks[a] && init[b] == ks[b];
      ScaleDownsSpan(h, init, C);
      if |init| > 1 {
        ScaleDownsAreSpaced(h, ks[0], init[|init| - 1]);
      }
      ScaleDownsAreSpaced(h, init[|init| - 1], ks[|ks| - 1]);
    }
  }

  // ----- The exact condition for spacing -----

  /** Going on with a run changes none of its reports. */
  lemma {:induction false} ReportsKept(h: seq<Reading>, t: seq<Reading>)
    ensures forall k :: 0 <= k < |h| ==> Reports(h + t)[k] == Reports(h)[k]
  {
    ReportsPrefix(h + t, |h|);
    assert (h + t)[..|h|] == h;
    assert forall k :: 0 <= k < |h| ==> Reports(h + t)[k] == Reports(h + t)[..|h|][k];
  }

  lemma {:induction false} DroppedPrefix(h: seq<Reading>, t: seq<Reading>, i: nat)
    requires i < |h|
    ensures Dropped(h + t, i) <==> Dropped(h, i)
  {
    hide Reports;
    ReportsKept(h, t);
  }

  /** A fall that no armed scale-down holds back is the next scale-down. */
  lemma {:induction false} ExtendsByDrop(h: seq<Reading>, r: Reading)
    requires h != [] && r.measured < Reports(h)[|h| - 1]
    requires var d := LatestDrop(h);
             d.Some? && h[d.value].now != ZERO_INSTANT ==> r.now - h[d.value].now >= r.cooldown
    ensures Dropped(h + [r], |h|) && Reports(h + [r])[|h|] == r.measured
    ensures LatestDrop(h + [r]) == Some(|h|)
  {
    hide Reports, LatestDrop;
    var h' := h + [r];
    ReportsKept(h, [r]);
    assert h'[..|h|] == h && h'[..|h| + 1] == h';
    FallAdmitted(h', |h|);
    DroppedIffAdmitted(h', |h|);
  }

  /** Call j of h continued by t is a scale-down after the whole of h. */
  ghost predicate DropsLater(h: seq<Reading>, t: seq<Reading>, j: nat) {
    |h| <= j < |h + t| && Dropped(h + t, j)
  }

  /** However the run goes on, every later scale-down keeps its distance from the last call of h. */
  ghost predicate KeepsDistance(h: seq<Reading>)
    requires h != []
  {
    forall t, j: nat :: DropsLater(h, t, j) ==>
      (h + t)[j].now - h[|h| - 1].now >= (h + t)[j].cooldown
  }

  /**
   * A scale-down keeps all later ones at a distance, in every continuation, exactly when the clock
   * read past the zero instant at it. At the zero instant the next call already breaks the
   * distance; before it, a further scale-down at the zero instant disarms the damper.
   */
  lemma {:induction false} SpacingExact(h: seq<Reading>)
    requires h != [] && Dropped(h, |h| - 1)
    ensures KeepsDistance(h) <==> h[|h| - 1].now > ZERO_INSTANT
  {
    hide Dropped, Reports, LatestDrop;
    var last := |h| - 1;
    if h[last].now > ZERO_INSTANT {
      forall t, j: nat | DropsLater(h, t, j)
        ensures (h + t)[j].now - h[last].now >= (h + t)[j].cooldown
      {
        DroppedPrefix(h, t, last);
        ScaleDownsAreSpaced(h + t, last, j);
      }
    } else {
      var t, j := Unspaced(h);
      assert DropsLater(h, t, j);
    }
  }

  /** A continuation that breaks the distance to a scale-down not stamped after the zero instant. */
  lemma {:induction false} Unspaced(h: seq<Reading>) returns (t: seq<Reading>, j: nat)
    requires h != [] && Dropped(h, |h| - 1) && h[|h| - 1].now <= ZERO_INSTANT
    ensures DropsLater(h, t, j)
    ensures (h + t)[j].now - h[|h| - 1].now < (h + t)[j].cooldown
  {
    hide Reports, LatestDrop;
    var last := |h| - 1;
    var v, now := Reports(h)[last], h[last].now;
    DroppedIffAdmitted(h, last);
    assert h[..last + 1] == h;
    var r := Reading(v - 1.0, 1, ZERO_INSTANT);
    ExtendsByDrop(h, r);
    if now == ZERO_INSTANT {
      t, j := [r], |h|;
    } else {
      var q := Reading(v - 2.0, 1, now);
      ExtendsByDrop(h + [r], q);
      t, j := [r, q], |h| + 1;
      assert h + [r] + [q] == h + t;
    }
  }

  // ----- Scale-up is never delayed -----

  lemma FirstStep(h: seq<Reading>)
    requires h == []
    ensures State(h) == None
  {
  }

  /**
   * The reported value is never below the fresh one, a value that does not fall is reported as it
   * is, and a suppressed value repeats the previous report.
   */
  lemma {:induction false} ScaleUpNeverDelayed(h: seq<Reading>, i: nat)
    requires i < |h|
    ensures Reports(h)[i] >= h[i].measured
    ensures i == 0 || h[i].measured >= Reports(h)[i - 1] ==> Reports(h)[i] == h[i].measured
    ensures Reports(h)[i] != h[i].measured ==> i > 0 && Reports(h)[i] == Reports(h)[i - 1]
  {
    hide Reports, State;
    ReportAt(h, i);
    if i > 0 {
      ReportAt(h, i - 1);
    } else {
      FirstStep(h[..0]);
    }
  }

  /** The last reported scale-down is armed and less than the call's own cooldown ago. */
  ghost predicate InWindow(h: seq<Reading>, i: nat)
    requires i < |h|
  {
    exists d: nat :: LastDropBefore(h, i, d)
                     && h[d].now != ZERO_INSTANT && h[i].now - h[d].now < h[i].cooldown
  }

  /** A value is suppressed exactly when it falls inside the window of the last scale-down. */
  lemma {:induction false} SuppressedExactly(h: seq<Reading>, i: nat)
    requires i < |h|
    ensures Reports(h)[i] != h[i].measured
            <==> i > 0 && h[i].measured < Reports(h)[i - 1] && InWindow(h, i)
  {
    hide Reports, LatestDrop, AdmitsDrop;
    ScaleUpNeverDelayed(h, i);
    if i > 0 && h[i].measured < Reports(h)[i - 1] {
      var d := LatestDrop(h[..i]);
      LatestDropIsLast(h, i);
      FallAdmitted(h, i);
      assert forall k: nat :: LastDropBefore(h, i, k) ==> d == Some(k);
    }
  }

  /** A fall is reported unless the latest admitted drop still holds it back. */
  lemma {:induction false} FallAdmitted(h: seq<Reading>, i: nat)
    requires 0 < i < |h| && h[i].measured < Reports(h)[i - 1]
    ensures var d := LatestDrop(h[..i]);
            Reports(h)[i] == h[i].measured
            <==> !(d.Some? && h[d.value].now != ZERO_INSTANT
                   && h[i].now - h[d.value].now < h[i].cooldown)
  {
    hide Reports, LatestDrop;
    ReportAt(h, i);
    ReportIsPeak(h, i - 1);
    HistoryRefinement(h[..i]);
    assert h[..i - 1 + 1] == h[..i];
  }

  // ----- Idempotence -----

  /** The damper's own output, offered again at the same times with the same cooldowns. */
  ghost function Replay(h: seq<Reading>): (h': seq<Reading>)
    ensures |h'| == |h|
  {
    seq(|h|, i requires 0 <= i < |h| => h[i].(measured := Reports(h)[i]))
  }

  lemma {:induction false} ReplayPrefix(h: seq<Reading>, n: nat)
    requires n <= |h|
    ensures Replay(h)[..n] == Replay(h[..n])
  {
    ReportsPrefix(h, n);
    forall i | 0 <= i < n
      ensures Replay(h)[..n][i] == Replay(h[..n])[i]
    {
      assert Reports(h)[..n][i] == Reports(h)[i];
    }
  }

  /** One call offered its own report: the same outcome. */
  lemma ApplyOwnReport(before: Option<Cell>, r: Reading)
    ensures var o := Apply(before, r);
            Apply(before, r.(measured := o.reported)) == o
  {
  }

  lemma {:induction false} ReplayWhole(h: seq<Reading>)
    ensures State(Replay(h)) == State(h) && Reports(Replay(h)) == Reports(h)
  {
    hide Apply;
    if h == [] {
    } else {
      var last := |h| - 1;
      ReplayPrefix(h, last);
      ReplayWhole(h[..last]);
      ApplyOwnReport(State(h[..last]), h[last]);
    }
  }

  /** Damping a damped series changes nothing: same reports, same state after every call. */
  lemma {:induction false} DampingIsIdempotent(h: seq<Reading>, n: nat)
    requires n <= |h|
    ensures Reports(Replay(h)) == Reports(h)
    ensures State(Replay(h)[..n]) == State(h[..n])
  {
    ReplayWhole(h);
    ReplayPrefix(h, n);
    ReplayWhole(h[..n]);
  }
}
