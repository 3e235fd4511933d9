/** Guarantees over every interleaving of requests. */
module ServiceRuns {
  import opened Wrappers
  import opened Clock
  import opened Profiles
  import opened Config
  import opened Readings
  import opened Service
  import Aggregation
  import Damper
  import DamperRuns
  import Isolation
  import ReadingLaws
  import Http
  import Triton
  import TritonRuns
  import Exposition

  // ----- The damper inside the service -----

  /** The answers given to the damped commits of one key. */
  function AnswersFor(log: seq<Commit>, answers: seq<real>, key: CooldownKey): seq<real>
    requires |answers| == |log|
  {
    if log == [] then [] else
      var last := |log| - 1;
      var init := AnswersFor(log[..last], answers[..last], key);
      if Isolation.Concerns(log[last], key) then init + [answers[last]] else init
  }

  /** The state keeps exactly what the log says. */
  ghost predicate Consistent(s: State) {
    && |s.answers| == |s.log|
    && s.table == Damper.Table(s.log)
    && (forall id :: id in s.pending ==> id < s.begun)
    && forall key :: AnswersFor(s.log, s.answers, key) == Isolation.RepliesFor(s.log, key)
  }

  lemma {:induction false} StepConsistent(env: Env, s: State, a: Action)
    requires Consistent(s)
    ensures Consistent(Step(env, s, a))
  {
    hide Start, Damper.Reply, Damper.TableStep;
    var next := Step(env, s, a);
    if a.Finish? && a.id in s.pending {
      var last := |s.log|;
      assert next.log[..last] == s.log && next.answers[..last] == s.answers;
      forall key
        ensures AnswersFor(next.log, next.answers, key) == Isolation.RepliesFor(next.log, key)
      {
        assert AnswersFor(s.log, s.answers, key) == Isolation.RepliesFor(s.log, key);
      }
    }
  }

  lemma {:induction false} RunConsistent(env: Env, actions: seq<Action>)
    ensures Consistent(Run(env, actions))
  {
    hide Step, Consistent;
    if actions == [] {
      assert Consistent(INITIAL) by {
        EmptyConsistent();
      }
    } else {
      RunConsistent(env, actions[..|actions| - 1]);
      StepConsistent(env, Run(env, actions[..|actions| - 1]), actions[|actions| - 1]);
    }
  }

  lemma EmptyConsistent()
    ensures Consistent(INITIAL)
  {
  }

  /**
   * In any interleaving, the values answered for one key are those of a damper that sees only the
   * key's own damped commits in lock order.
   */
  lemma AnswersAreIsolated(env: Env, actions: seq<Action>, key: CooldownKey)
    ensures var s := Run(env, actions);
            && |s.answers| == |s.log|
            && AnswersFor(s.log, s.answers, key) == Damper.Reports(Isolation.Project(s.log, key))
  {
    hide Run;
    RunConsistent(env, actions);
    Isolation.KeysDoNotInterfere(Run(env, actions).log, key);
  }

  /** Two runs with the same damped commits for a key answer it alike, whatever else they did. */
  lemma OtherTrafficIsInvisible(env: Env, one: seq<Action>, two: seq<Action>, key: CooldownKey)
    requires Isolation.Project(Run(env, one).log, key) == Isolation.Project(Run(env, two).log, key)
    ensures var s, t := Run(env, one), Run(env, two);
            && |s.answers| == |s.log| && |t.answers| == |t.log|
            && AnswersFor(s.log, s.answers, key) == AnswersFor(t.log, t.answers, key)
            && Damper.Lookup(s.table, key) == Damper.Lookup(t.table, key)
  {
    hide Run;
    AnswersAreIsolated(env, one, key);
    AnswersAreIsolated(env, two, key);
    RunConsistent(env, one);
    RunConsistent(env, two);
    Isolation.ErasingOthersIsInvisible(Run(env, one).log, Run(env, two).log, key);
  }

  /**
   * In any run, a scale-down answered for a key after the zero instant keeps every later one
   * answered for it at the later commit's own cooldown.
   */
  lemma AnsweredScaleDownsAreSpaced(env: Env, actions: seq<Action>, key: CooldownKey)
    ensures var s := Run(env, actions);
            && |s.answers| == |s.log|
            && var answers, h := AnswersFor(s.log, s.answers, key), Isolation.Project(s.log, key);
            && |answers| == |h|
            && DamperRuns.SpacedReports(h, answers)
  {
    hide Run;
    AnswersAreIsolated(env, actions, key);
    DamperRuns.ReportsAreSpaced(Isolation.Project(Run(env, actions).log, key));
  }

  /**
   * Only a metrics request with accepted metadata and a successful reading ever reaches the damper;
   * every other request leaves its table, its log and all answers alone, as does a beginning one.
   */
  lemma OtherRequestsLeaveNoTrace(env: Env, s: State, q: Request)
    ensures var t := BeginStep(env, s, q);
            && t.table == s.table && t.log == s.log && t.answers == s.answers
            && (t.pending != s.pending ==>
                  && q.rpc == GetMetrics && Parsed(env, q.metadata).Ok?
                  && Read(env, Parsed(env, q.metadata).value, q.world, s.scrapes).result.Ok?)
  {
  }

  // ----- A metrics request from its first step to its answer -----

  /** The run with one more action. */
  lemma RunAppend(env: Env, init: seq<Action>, a: Action)
    ensures Run(env, init + [a]) == Step(env, Run(env, init), a)
  {
    assert (init + [a])[..|init|] == init;
  }

  /** A request that waits goes on waiting until its own commit, whatever else happens. */
  lemma {:induction false} PendingStays(env: Env, init: seq<Action>, mid: seq<Action>, id: nat)
    requires id in Run(env, init).pending
    requires forall a :: a in mid ==> !(a.Finish? && a.id == id)
    ensures id in Run(env, init + mid).pending
    ensures Run(env, init + mid).pending[id] == Run(env, init).pending[id]
  {
    hide Run, Start, Damper.TableStep, Damper.Reply;
    if mid == [] {
      assert init + mid == init;
    } else {
      var last := |mid| - 1;
      PendingStays(env, init, mid[..last], id);
      RunConsistent(env, init + mid[..last]);
      RunAppend(env, init + mid[..last], mid[last]);
      assert init + mid == init + mid[..last] + [mid[last]];
    }
  }

  /** What a commit adds to the run, and what it is answered. */
  lemma {:induction false} CommitIsAnswered(env: Env, actions: seq<Action>, id: nat, now: Instant)
    requires id in Run(env, actions).pending
    ensures var before, after := Run(env, actions), Run(env, actions + [Finish(id, now)]);
            var p := before.pending[id];
            && id !in after.pending
            && after.log == before.log + [Damper.Commit(p.key, p.measured, p.cooldown, now)]
            && |after.answers| == |after.log| && after.answers[..|before.log|] == before.answers
            && var answer := after.answers[|before.log|];
               if p.cooldown <= 0 then answer == p.measured
               else
                 var h := Isolation.Project(after.log, p.key);
                 && h == Isolation.Project(before.log, p.key)
                         + [Damper.Reading(p.measured, p.cooldown, now)]
                 && answer == DamperRuns.Peak(h, DamperRuns.WindowStart(DamperRuns.LatestDrop(h)))
  {
    hide Run, Damper.Table, Damper.TableStep, Damper.Reports, Isolation.Project;
    hide DamperRuns.LatestDrop, DamperRuns.Peak;
    RunConsistent(env, actions);
    RunAppend(env, actions, Finish(id, now));
    var before := Run(env, actions);
    var p := before.pending[id];
    if p.cooldown > 0 {
      var c := Damper.Commit(p.key, p.measured, p.cooldown, now);
      Isolation.LastReply(before.log, c);
      DamperRuns.HistoryRefinement(Isolation.Project(before.log + [c], p.key));
    }
  }

  /**
   * Every metrics request is damped. Once it has begun with accepted metadata and a successful
   * reading it waits, whatever else happens in between, and its commit enters the log with its own
   * key, reading and cooldown. Its answer is the reading itself when the cooldown is not positive,
   * and otherwise the greatest fresh value of its series since the latest admitted drop.
   */
  lemma {:induction false} MetricsAreDamped(
    env: Env, init: seq<Action>, q: Request, mid: seq<Action>, now: Instant,
    cfg: ScalerConfig, v: real)
    requires q.rpc == GetMetrics && Parsed(env, q.metadata) == Ok(cfg)
    requires Read(env, cfg, q.world, Run(env, init).scrapes).result == Ok(v)
    requires forall a :: a in mid ==> !(a.Finish? && a.id == Run(env, init).begun)
    ensures var id, key, cooldown :=
              Run(env, init).begun, KeyOf(q.ref, cfg), OfSeconds(cfg.cooldownSeconds);
            var before := Run(env, init + [Begin(q)] + mid);
            var after := Run(env, init + [Begin(q)] + mid + [Finish(id, now)]);
            && id in before.pending
            && before.pending[id] == Pending(key, cfg.metricName, v, cooldown)
            && id !in after.pending
            && after.log == before.log + [Damper.Commit(key, v, cooldown, now)]
            && |after.answers| == |after.log| && after.answers[..|before.log|] == before.answers
            && var answer := after.answers[|before.log|];
               if cooldown <= 0 then answer == v
               else
                 var h := Isolation.Project(after.log, key);
                 && h == Isolation.Project(before.log, key) + [Damper.Reading(v, cooldown, now)]
                 && answer == DamperRuns.Peak(h, DamperRuns.WindowStart(DamperRuns.LatestDrop(h)))
  {
    hide Run, Read, Parsed, OfSeconds, Isolation.Project, DamperRuns.LatestDrop, DamperRuns.Peak;
    var s := Run(env, init);
    var begun := init + [Begin(q)];
    RunAppend(env, init, Begin(q));
    PendingStays(env, begun, mid, s.begun);
    CommitIsAnswered(env, begun + mid, s.begun, now);
  }

  // ----- Which requests share a series -----

  /** The two requests are for one metric series. */
  predicate SameSeries(refA: ScaledObjectRef, a: ScalerConfig, refB: ScaledObjectRef, b: ScalerConfig) {
    && refA.namespace == refB.namespace && refA.name == refB.name
    && a.metricName == b.metricName && a.metricType == b.metricType
    && a.aggregation == b.aggregation && a.gpuIndex == b.gpuIndex
    && a.vllmEndpoint == b.vllmEndpoint && a.tritonEndpoint == b.tritonEndpoint
  }

  /** Keys tell series apart, and nothing else: targets, thresholds and cooldowns play no part. */
  lemma KeysAgreeExactly(
    refA: ScaledObjectRef, a: ScalerConfig, refB: ScaledObjectRef, b: ScalerConfig)
    ensures KeyOf(refA, a) == KeyOf(refB, b) <==> SameSeries(refA, a, refB, b)
  {
  }

  /** The commit is one of another series. */
  ghost predicate OfAnother(c: Commit, ref: ScaledObjectRef, cfg: ScalerConfig) {
    exists other, o :: c.key == KeyOf(other, o) && !SameSeries(other, o, ref, cfg)
  }

  lemma {:induction false} AnswersPrefix(
    log: seq<Commit>, answers: seq<real>, n: nat, key: CooldownKey)
    requires |answers| == |log| && n <= |log|
    requires forall i :: n <= i < |log| ==> !Isolation.Concerns(log[i], key)
    ensures AnswersFor(log, answers, key) == AnswersFor(log[..n], answers[..n], key)
  {
    if n == |log| {
      assert log[..n] == log && answers[..n] == answers;
    } else {
      var last := |log| - 1;
      AnswersPrefix(log[..last], answers[..last], n, key);
      assert log[..last][..n] == log[..n] && answers[..last][..n] == answers[..n];
    }
  }

  lemma {:induction false} LogGrows(env: Env, init: seq<Action>, more: seq<Action>)
    ensures Run(env, init).log <= Run(env, init + more).log
    ensures Run(env, init).answers <= Run(env, init + more).answers
  {
    hide Run, Start, Damper.TableStep, Damper.Reply;
    if more == [] {
      assert init + more == init;
    } else {
      var last := |more| - 1;
      LogGrows(env, init, more[..last]);
      RunAppend(env, init + more[..last], more[last]);
      assert init + more == init + more[..last] + [more[last]];
    }
  }

  /**
   * While only other series commit (another namespace, ScaledObject, metric name, type, aggregation,
   * device or endpoint), nothing is answered for a series and its stored state stays.
   */
  lemma {:induction false} OtherSeriesLeaveItAlone(
    env: Env, init: seq<Action>, more: seq<Action>, ref: ScaledObjectRef, cfg: ScalerConfig)
    requires var s, t := Run(env, init), Run(env, init + more);
             forall i :: |s.log| <= i < |t.log| ==> OfAnother(t.log[i], ref, cfg)
    ensures var s, t, key := Run(env, init), Run(env, init + more), KeyOf(ref, cfg);
            && |s.answers| == |s.log| && |t.answers| == |t.log|
            && AnswersFor(t.log, t.answers, key) == AnswersFor(s.log, s.answers, key)
            && Damper.Lookup(t.table, key) == Damper.Lookup(s.table, key)
  {
    hide Run, KeyOf, SameSeries, Damper.Table, Isolation.Project, AnswersFor;
    var s, t, key := Run(env, init), Run(env, init + more), KeyOf(ref, cfg);
    RunConsistent(env, init);
    RunConsistent(env, init + more);
    LogGrows(env, init, more);
    forall i | |s.log| <= i < |t.log|
      ensures !Isolation.Concerns(t.log[i], key)
    {
      var other, o :| t.log[i].key == KeyOf(other, o) && !SameSeries(other, o, ref, cfg);
      KeysAgreeExactly(other, o, ref, cfg);
    }
    AnswersPrefix(t.log, t.answers, |s.log|, key);
    var rest := t.log[|s.log|..];
    assert t.log == s.log + rest;
    Isolation.ProjectConcat(s.log, rest, key);
    Isolation.ErasingOthersIsInvisible(t.log, s.log, key);
  }

  // ----- The key is sufficient -----

  /** A configuration with the fields of the key, and nothing else of the original. */
  function ConfigOfKey(key: CooldownKey): ScalerConfig {
    ScalerConfig(key.metricName, key.metricType, 0.0, 0.0, key.gpuIndex, key.aggregation, 0, 0,
                 key.vllmEndpoint, key.tritonEndpoint)
  }

  /** The fresh value and the scrape state depend on the configuration through the key alone. */
  lemma KeyDeterminesReading(
    env: Env, ref: ScaledObjectRef, cfg: ScalerConfig, w: World, scrapes: Scrapes)
    ensures Read(env, cfg, w, scrapes) == Read(env, ConfigOfKey(KeyOf(ref, cfg)), w, scrapes)
  {
  }

  /** Requests with equal keys measure the same quantity. */
  lemma EqualKeysMeasureAlike(
    env: Env, refA: ScaledObjectRef, a: ScalerConfig, refB: ScaledObjectRef, b: ScalerConfig,
    w: World, scrapes: Scrapes)
    requires KeyOf(refA, a) == KeyOf(refB, b)
    ensures Read(env, a, w, scrapes) == Read(env, b, w, scrapes)
  {
    hide Read;
    KeyDeterminesReading(env, refA, a, w, scrapes);
    KeyDeterminesReading(env, refB, b, w, scrapes);
  }

  /** The action read the value, for this key and with this cooldown, in the state before it. */
  ghost predicate Measures(
    env: Env, before: State, a: Action, key: CooldownKey, measured: real, cooldown: Duration)
  {
    && a.Begin? && a.request.rpc == GetMetrics
    && Read(env, ConfigOfKey(key), a.request.world, before.scrapes).result == Ok(measured)
    && Parsed(env, a.request.metadata).Ok?
    && KeyOf(a.request.ref, Parsed(env, a.request.metadata).value) == key
    && cooldown == OfSeconds(Parsed(env, a.request.metadata).value.cooldownSeconds)
  }

  ghost predicate MeasuredIn(
    env: Env, actions: seq<Action>, key: CooldownKey, measured: real, cooldown: Duration)
  {
    exists i :: 0 <= i < |actions|
                && Measures(env, Run(env, actions[..i]), actions[i], key, measured, cooldown)
  }

  ghost predicate AllMeasured(env: Env, actions: seq<Action>, s: State) {
    && (forall id :: id in s.pending ==>
          var p := s.pending[id]; MeasuredIn(env, actions, p.key, p.measured, p.cooldown))
    && (forall c :: c in s.log ==> MeasuredIn(env, actions, c.key, c.measured, c.cooldown))
  }

  lemma MeasuredStays(
    env: Env, init: seq<Action>, a: Action, key: CooldownKey, measured: real, cooldown: Duration)
    requires MeasuredIn(env, init, key, measured, cooldown)
    ensures MeasuredIn(env, init + [a], key, measured, cooldown)
  {
    hide Measures, Run;
    var i :| 0 <= i < |init|
             && Measures(env, Run(env, init[..i]), init[i], key, measured, cooldown);
    assert (init + [a])[..i] == init[..i] && (init + [a])[i] == init[i];
  }

  /**
   * Every commit of a series was read by an earlier metrics request with that very key, and its
   * value is the one the key's own configuration reads there: a baseline never mixes quantities.
   */
  lemma {:induction false} BaselinesHoldOneQuantity(env: Env, actions: seq<Action>)
    ensures AllMeasured(env, actions, Run(env, actions))
  {
    hide MeasuredIn, Start, Damper.TableStep, Damper.Reply;
    if actions == [] {
    } else {
      var init, a := actions[..|actions| - 1], actions[|actions| - 1];
      var before, after := Run(env, init), Run(env, actions);
      assert actions == init + [a];
      BaselinesHoldOneQuantity(env, init);
      forall key, measured, cooldown | MeasuredIn(env, init, key, measured, cooldown)
        ensures MeasuredIn(env, actions, key, measured, cooldown)
      {
        MeasuredStays(env, init, a, key, measured, cooldown);
      }
      if a.Begin? {
        BeginMeasures(env, init, a);
      }
    }
  }

  lemma BeginMeasures(env: Env, init: seq<Action>, a: Action)
    requires a.Begin?
    ensures var started := Start(env, a.request, Run(env, init).scrapes);
            started.begun.Waiting? ==>
              var p := started.begun.pending;
              MeasuredIn(env, init + [a], p.key, p.measured, p.cooldown)
  {
    hide Run, Read, Parsed;
    var before := Run(env, init);
    var started := Start(env, a.request, before.scrapes);
    if started.begun.Waiting? {
      var p := started.begun.pending;
      var cfg := Parsed(env, a.request.metadata).value;
      KeyDeterminesReading(env, a.request.ref, cfg, a.request.world, before.scrapes);
      assert (init + [a])[..|init|] == init;
      assert Measures(env, Run(env, (init + [a])[..|init|]), (init + [a])[|init|],
                      p.key, p.measured, p.cooldown);
    }
  }

  // ----- The scrapes inside the service -----

  /** The sample an action adds to an endpoint, whichever call made it. */
  function SampleFrom(env: Env, a: Action, endpoint: string): Option<Triton.Sample> {
    if a.Finish? || a.request.rpc == GetMetricSpec then None
    else
      match Parsed(env, a.request.metadata)
      case Err(_) => None
      case Ok(cfg) =>
        if !IsTritonMetric(cfg.metricType) || cfg.tritonEndpoint != endpoint then None
        else
          match a.request.world.http(endpoint)
          case Unreachable => None
          case Response(status, body, readOk) =>
            if status != 200 || !readOk then None
            else
              var points := Exposition.Points(env.parseFloat, body);
              Some(Triton.Sample(
                Exposition.SeriesTotal(points, "nv_inference_count"),
                Exposition.SeriesTotal(points, "nv_inference_queue_duration_us"),
                a.request.world.scrapedAt))
  }

  /** The samples of all actions, in order. */
  function SamplesFrom(env: Env, actions: seq<Action>, endpoint: string): seq<Triton.Sample> {
    if actions == [] then [] else
      var init := SamplesFrom(env, actions[..|actions| - 1], endpoint);
      var sample := SampleFrom(env, actions[|actions| - 1], endpoint);
      if sample.Some? then init + [sample.value] else init
  }

  /** What a reading of any route does to an endpoint's history. */
  lemma ReadScrapes(env: Env, a: Action, cfg: ScalerConfig, scrapes: Scrapes, endpoint: string)
    requires a.Begin? && a.request.rpc != GetMetricSpec && Parsed(env, a.request.metadata) == Ok(cfg)
    ensures var sample := SampleFrom(env, a, endpoint);
            HistoryOf(Read(env, cfg, a.request.world, scrapes).scrapes, endpoint)
            == HistoryOf(scrapes, endpoint) + if sample.Some? then [sample.value] else []
  {
    hide Parsed, Exposition.Points, Exposition.SeriesTotal, VLLMReading, DeviceReading, Triton.Filled;
    hide TritonSelect;
  }

  lemma StepScrapes(env: Env, s: State, a: Action, endpoint: string)
    ensures var sample := SampleFrom(env, a, endpoint);
            HistoryOf(Step(env, s, a).scrapes, endpoint)
            == HistoryOf(s.scrapes, endpoint) + if sample.Some? then [sample.value] else []
  {
    hide Parsed, Read, HistoryOf, Exposition.Points, Exposition.SeriesTotal;
    if a.Begin? && a.request.rpc != GetMetricSpec && Parsed(env, a.request.metadata).Ok? {
      ReadScrapes(env, a, Parsed(env, a.request.metadata).value, s.scrapes, endpoint);
    }
  }

  /**
   * An endpoint's client has seen exactly the successful scrapes of that endpoint, in order, no
   * matter which kind of call issued them, what failed in between or who committed.
   */
  lemma {:induction false} ScrapesAreKindBlind(env: Env, actions: seq<Action>, endpoint: string)
    ensures HistoryOf(Run(env, actions).scrapes, endpoint) == SamplesFrom(env, actions, endpoint)
  {
    hide Step, SampleFrom;
    if actions == [] {
    } else {
      var last := |actions| - 1;
      var init := actions[..last];
      ScrapesAreKindBlind(env, init, endpoint);
      StepScrapes(env, Run(env, init), actions[last], endpoint);
    }
  }

  /**
   * In any run the rates derived for an endpoint, together with the growth between scrapes whose
   * clock stood still, account for all growth of its counter, also when counted in nanoseconds up
   * to the intervals beyond the longest gap; the rates alone do so exactly when the clock advanced
   * between any two scrapes between which the counter did.
   */
  lemma ServiceRateConservation(env: Env, actions: seq<Action>, endpoint: string)
    ensures var s := HistoryOf(Run(env, actions).scrapes, endpoint);
            var rates := Aggregation.Total(TritonRuns.RateMass(s));
            var growth := Aggregation.Total(TritonRuns.Growth(s));
            && s == SamplesFrom(env, actions, endpoint)
            && rates + Aggregation.Total(TritonRuns.Unclocked(s)) == growth
            && Aggregation.Total(TritonRuns.NanoMass(s))
               + Aggregation.Total(TritonRuns.Unclocked(s)) * 1_000_000_000.0
               == growth * 1_000_000_000.0 + Aggregation.Total(TritonRuns.Overstated(s))
            && (rates == growth
                <==> forall i :: 0 < i < |s| && s[i].count > s[i - 1].count ==> s[i].at > s[i - 1].at)
  {
    hide Run, SamplesFrom, Aggregation.Total, TritonRuns.RateMass, TritonRuns.Growth;
    hide TritonRuns.Unclocked, TritonRuns.NanoMass, TritonRuns.Overstated;
    ScrapesAreKindBlind(env, actions, endpoint);
    var s := SamplesFrom(env, actions, endpoint);
    TritonRuns.RateConservation(s);
    TritonRuns.RateConservationExact(s);
    TritonRuns.NanosecondConservation(s);
    assert forall i :: 0 < i < |s| ==> (TritonRuns.DCount(s, i) > 0.0 <==> s[i].count > s[i - 1].count);
  }

  /**
   * In any run the waits derived for an endpoint account for exactly the queue time that grew while
   * inferences advanced; without queue resets the rest of the growth is the queue time of intervals
   * without a new inference.
   */
  lemma ServiceWaitConservation(env: Env, actions: seq<Action>, endpoint: string)
    ensures var s := HistoryOf(Run(env, actions).scrapes, endpoint);
            var waits := Aggregation.Total(TritonRuns.WaitMass(s));
            && s == SamplesFrom(env, actions, endpoint)
            && waits == Aggregation.Total(TritonRuns.Attributed(s))
            && (s != [] && (forall i :: 0 < i < |s| ==> s[i].queueUs >= s[i - 1].queueUs) ==>
                  && waits + Aggregation.Total(TritonRuns.Unattributed(s))
                     == s[|s| - 1].queueUs - s[0].queueUs
                  && waits <= s[|s| - 1].queueUs - s[0].queueUs)
  {
    hide Run, SamplesFrom, Aggregation.Total;
    ScrapesAreKindBlind(env, actions, endpoint);
    var s := SamplesFrom(env, actions, endpoint);
    TritonRuns.WaitConservation(s);
    if s != [] && forall i :: 0 < i < |s| ==> s[i].queueUs >= s[i - 1].queueUs {
      TritonRuns.WaitGap(s);
    }
  }

  /** For each sample of an endpoint, whether the request behind it is one of the chosen ones. */
  ghost function FlagsFrom(env: Env, actions: seq<Action>, endpoint: string, who: Request -> bool)
    : (flags: seq<bool>)
    ensures |flags| == |SamplesFrom(env, actions, endpoint)|
  {
    if actions == [] then [] else
      var a := actions[|actions| - 1];
      var init := FlagsFrom(env, actions[..|actions| - 1], endpoint, who);
      if SampleFrom(env, a, endpoint).Some? then init + [a.Begin? && who(a.request)] else init
  }

  /**
   * In any run, for any choice of requests: what they were told, what the others were told and the
   * unclocked growth add up to the growth of the endpoint's counter, and they were told all of it
   * exactly when every advance of the counter was read by one of them, with clock progress.
   */
  lemma RequestsShareTheGrowth(env: Env, actions: seq<Action>, endpoint: string, who: Request -> bool)
    ensures var s := HistoryOf(Run(env, actions).scrapes, endpoint);
            var mine := FlagsFrom(env, actions, endpoint, who);
            && |mine| == |s|
            && var told := Aggregation.Total(TritonRuns.SeenBy(s, mine));
               var others := Aggregation.Total(TritonRuns.SeenBy(s, TritonRuns.Others(mine)));
               var growth := Aggregation.Total(TritonRuns.Growth(s));
               && told + others + Aggregation.Total(TritonRuns.Unclocked(s)) == growth
               && (told == growth
                   <==> forall i :: 0 < i < |s| && s[i].count > s[i - 1].count ==>
                          mine[i] && s[i].at > s[i - 1].at)
  {
    hide Run, SamplesFrom, FlagsFrom, Aggregation.Total, TritonRuns.SeenBy, TritonRuns.Growth;
    ScrapesAreKindBlind(env, actions, endpoint);
    var s := SamplesFrom(env, actions, endpoint);
    TritonRuns.ReadersShareTheGrowth(s, FlagsFrom(env, actions, endpoint, who));
    assert forall i :: 0 < i < |s| ==> (TritonRuns.DCount(s, i) > 0.0 <==> s[i].count > s[i - 1].count);
  }

  /** A rate reading is the rate of the sample it appends to the endpoint's history. */
  lemma {:induction false} RateReadingIsReported(env: Env, cfg: ScalerConfig, w: World, scrapes: Scrapes)
    requires cfg.metricType == TritonRequestRate && Read(env, cfg, w, scrapes).result.Ok?
    ensures var r := Read(env, cfg, w, scrapes);
            var s := HistoryOf(r.scrapes, cfg.tritonEndpoint);
            && |s| == |HistoryOf(scrapes, cfg.tritonEndpoint)| + 1
            && r.result.value == TritonRuns.Reported(s, |s| - 1).requestRatePerSec
  {
    hide Read, TritonRuns.Reported;
    ReadingLaws.TritonReadingIsReported(env, cfg, w, scrapes);
  }

  /** A queue-wait reading is the wait of the sample it appends, in milliseconds. */
  lemma {:induction false} WaitReadingIsReported(env: Env, cfg: ScalerConfig, w: World, scrapes: Scrapes)
    requires cfg.metricType == TritonQueueWaitMs && Read(env, cfg, w, scrapes).result.Ok?
    ensures var r := Read(env, cfg, w, scrapes);
            var s := HistoryOf(r.scrapes, cfg.tritonEndpoint);
            && |s| == |HistoryOf(scrapes, cfg.tritonEndpoint)| + 1
            && r.result.value == TritonRuns.Reported(s, |s| - 1).avgQueueWaitUs / 1000.0
  {
    hide Read, TritonRuns.Reported;
    ReadingLaws.TritonReadingIsReported(env, cfg, w, scrapes);
  }
}
