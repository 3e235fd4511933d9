/** One run in which an activity poll takes counter growth away from the metric series. */
module ServiceWitness {
  import opened Wrappers
  import opened GoStrings
  import opened Clock
  import opened Exposition
  import opened Profiles
  import opened Config
  import opened Readings
  import opened Service
  import opened ServiceRuns
  import Aggregation
  import AggregationLaws
  import Http
  import Triton
  import TritonRuns

  const RATE_TRIGGER: Metadata := map["profile" := "triton-request-rate", "tritonEndpoint" := "t"]

  /** A request on the trigger's endpoint, answered with one counter line. */
  ghost function CountRequest(rpc: Rpc, count: string, at: Instant): Action {
    var body := [Triton.INFERENCE_COUNT + " " + count];
    var world := World(Err(""), _ => Err(""), _ => Http.Response.Response(200, body, true), at);
    Begin(Request(rpc, ScaledObjectRef("so", "ns"), RATE_TRIGGER, world))
  }

  lemma CountNamePrints()
    ensures IsToken(Triton.INFERENCE_COUNT) && '{' !in Triton.INFERENCE_COUNT
    ensures Triton.INFERENCE_COUNT[0] != '#'
  {
  }

  lemma {:induction false} CountBody(pf: FloatParser, count: string)
    requires IsToken(count) && '{' !in count
    ensures var points := Points(pf, [Triton.INFERENCE_COUNT + " " + count]);
            Triton.Counters(points).inferenceCount == pf(count).GetOr(0.0)
  {
    var name := Triton.INFERENCE_COUNT;
    CountNamePrints();
    hide Points, Triton.Counters, IsToken;
    var sample := PrintedSample("", name, None, " ", count, "");
    assert sample.Print() == name + " " + count by {
      assert "" + name == name && " " + count + "" == " " + count;
      assert name + (" " + count) == name + " " + count;
    }
    assert PrintBody([Item.Metric(sample)]) == [name + " " + count];
    Triton.PrintedBodyCounters(pf, [Item.Metric(sample)]);
    assert [Item.Metric(sample)][..0] == [];
  }

  lemma RateProfile()
    ensures Get("triton-request-rate")
            == Some(Profile("keda_gpu_triton_request_rate", 50.0, 1.0, TritonRequestRate, 30))
  {
    assert "triton-request-rate"[7] == 'r';
  }

  lemma TriggerKeys(k: string)
    requires k in RATE_TRIGGER
    ensures |k| == 7 || |k| == 14
  {
    assert |"profile"| == 7 && |"tritonEndpoint"| == 14;
  }

  lemma TriggerAccepted(env: Env)
    requires env.endpointAllowed("t")
    ensures Parsed(env, RATE_TRIGGER).Ok?
    ensures Parsed(env, RATE_TRIGGER).value.metricType == TritonRequestRate
    ensures Parsed(env, RATE_TRIGGER).value.tritonEndpoint == "t"
  {
    hide Parsed, Get;
    RateProfile();
    forall k | k in RATE_TRIGGER
      ensures |k| == 7 || |k| == 14
    {
      TriggerKeys(k);
    }
    assert RATE_TRIGGER["profile"] == "triton-request-rate" by {
      assert |"profile"| == 7 && |"tritonEndpoint"| == 14;
    }
    RateTriggerAccepted(env, RATE_TRIGGER);
  }

  /** A map that names a request-rate profile and an endpoint, and nothing else. */
  lemma RateTriggerAccepted(env: Env, md: Metadata)
    requires forall k :: k in md ==> |k| == 7 || |k| == 14
    requires "profile" in md && Get(md["profile"]).Some?
    requires Get(md["profile"]).value.metricType == TritonRequestRate
    requires "tritonEndpoint" in md && md["tritonEndpoint"] == "t" && env.endpointAllowed("t")
    ensures Parsed(env, md).Ok?
    ensures Parsed(env, md).value.metricType == TritonRequestRate
    ensures Parsed(env, md).value.tritonEndpoint == "t"
  {
    hide Get, MetricTypeOf, Atoi;
    FewKeysOnly(md);
  }

  lemma CountSample(env: Env, rpc: Rpc, count: string, at: Instant)
    requires env.endpointAllowed("t") && rpc != GetMetricSpec
    requires IsToken(count) && '{' !in count && env.parseFloat(count).Some?
    ensures var sample := SampleFrom(env, CountRequest(rpc, count, at), "t");
            sample.Some? && sample.value.count == env.parseFloat(count).value && sample.value.at == at
  {
    hide Parsed, Points, SeriesTotal;
    TriggerAccepted(env);
    CountBody(env.parseFloat, count);
  }

  /** The three requests of the run: the counter reads 1, 2 and 3 at seconds one, two and three. */
  ghost function PolledRun(): seq<Action> {
    [CountRequest(GetMetrics, "1", 1_000_000_000),
     CountRequest(IsActive, "2", 2_000_000_000),
     CountRequest(GetMetrics, "3", 3_000_000_000)]
  }

  predicate AsksMetrics(q: Request) { q.rpc == GetMetrics }

  /** The text parser reads these three numerals as anyone would. */
  ghost predicate ReadsDigits(pf: FloatParser) {
    pf("1") == Some(1.0) && pf("2") == Some(2.0) && pf("3") == Some(3.0)
  }

  lemma {:induction false} PolledSamples(env: Env)
    requires env.endpointAllowed("t") && ReadsDigits(env.parseFloat)
    ensures var s := SamplesFrom(env, PolledRun(), "t");
            && |s| == 3
            && s[0].count == 1.0 && s[1].count == 2.0 && s[2].count == 3.0
            && s[0].at < s[1].at < s[2].at
    ensures FlagsFrom(env, PolledRun(), "t", AsksMetrics) == [true, false, true]
  {
    CountSample(env, GetMetrics, "1", 1_000_000_000);
    CountSample(env, IsActive, "2", 2_000_000_000);
    CountSample(env, GetMetrics, "3", 3_000_000_000);
    hide SampleFrom;
    ThreeSamples(env, PolledRun()[0], PolledRun()[1], PolledRun()[2], "t", AsksMetrics);
  }

  lemma {:induction false} ThreeSamples(
    env: Env, a: Action, b: Action, c: Action, endpoint: string, who: Request -> bool)
    requires a.Begin? && b.Begin? && c.Begin?
    requires SampleFrom(env, a, endpoint).Some? && SampleFrom(env, b, endpoint).Some?
    requires SampleFrom(env, c, endpoint).Some?
    ensures SamplesFrom(env, [a, b, c], endpoint)
            == [SampleFrom(env, a, endpoint).value, SampleFrom(env, b, endpoint).value,
                SampleFrom(env, c, endpoint).value]
    ensures FlagsFrom(env, [a, b, c], endpoint, who)
            == [who(a.request), who(b.request), who(c.request)]
  {
    hide SampleFrom;
    assert [a, b, c][..2] == [a, b] && [a, b][..1] == [a] && |[a][..0]| == 0;
    assert SamplesFrom(env, [a], endpoint) == [SampleFrom(env, a, endpoint).value];
    assert FlagsFrom(env, [a], endpoint, who) == [who(a.request)];
    assert FlagsFrom(env, [a, b], endpoint, who) == [who(a.request), who(b.request)];
  }

  /**
   * The counter grows by two between the metrics requests, but an activity poll reads in between:
   * the metrics requests are told of less than that growth.
   */
  lemma {:induction false} PollTakesGrowth(env: Env)
    requires env.endpointAllowed("t") && ReadsDigits(env.parseFloat)
    ensures var s := HistoryOf(Run(env, PolledRun()).scrapes, "t");
            var mine := FlagsFrom(env, PolledRun(), "t", AsksMetrics);
            && |mine| == |s| == 3
            && s[2].count - s[0].count == 2.0
            && Aggregation.Total(TritonRuns.Growth(s)) == 2.0
            && Aggregation.Total(TritonRuns.SeenBy(s, mine)) == 1.0
  {
    hide Run, SamplesFrom, FlagsFrom, PolledRun, ReadsDigits;
    ScrapesAreKindBlind(env, PolledRun(), "t");
    PolledSamples(env);
    var s := SamplesFrom(env, PolledRun(), "t");
    MiddlePoll(s, FlagsFrom(env, PolledRun(), "t", AsksMetrics));
  }

  lemma MiddlePoll(s: seq<Triton.Sample>, mine: seq<bool>)
    requires |s| == 3 && mine == [true, false, true]
    requires s[0].count == 1.0 && s[1].count == 2.0 && s[2].count == 3.0
    requires s[0].at < s[1].at < s[2].at
    ensures Aggregation.Total(TritonRuns.Growth(s)) == 2.0
    ensures Aggregation.Total(TritonRuns.SeenBy(s, mine)) == 1.0
  {
    TritonRuns.RateInterval(s, 0);
    TritonRuns.RateInterval(s, 2);
    TritonRuns.UnclockedExact(s, 2);
    assert TritonRuns.Growth(s) == [0.0, 1.0, 1.0];
    assert TritonRuns.SeenBy(s, mine) == [0.0, 0.0, 1.0] by {
      assert TritonRuns.RateMass(s)[0] == 0.0 && TritonRuns.RateMass(s)[2] == 1.0;
    }
    ThreeTotal(0.0, 1.0, 1.0);
    ThreeTotal(0.0, 0.0, 1.0);
  }

  lemma ThreeTotal(a: real, b: real, c: real)
    ensures Aggregation.Total([a, b, c]) == a + b + c
  {
    hide Aggregation.Total;
    AggregationLaws.PairTotal(a, b);
    AggregationLaws.TotalAppend([a, b], c);
    assert [a, b] + [c] == [a, b, c];
  }
}
