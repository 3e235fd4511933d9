/** What a single request answers: the activity decision, the spec query, and one metrics request. */
module ServiceLaws {
  import opened Wrappers
  import opened GoStrings
  import opened Profiles
  import opened Config
  import opened Readings
  import opened Service
  import Aggregation
  import AggregationLaws
  import ConfigLaws
  import ReadingLaws

  // ----- Activity -----

  /** The activation threshold an accepted map asks for: its own, its profile's, or zero. */
  function Threshold(env: Env, md: Metadata): real {
    if "activationThreshold" in md then env.parseFloat(md["activationThreshold"]).GetOr(0.0)
    else if "profile" in md && Get(md["profile"]).Some? then Get(md["profile"]).value.activationValue
    else 0.0
  }

  /**
   * Both activity calls answer active exactly when the fresh value lies strictly above the threshold
   * that the metadata asks for; bad metadata and failed reads are answered with their error.
   */
  lemma {:induction false} ActiveExactly(env: Env, q: Request, scrapes: Scrapes)
    requires q.rpc == IsActive || q.rpc == StreamIsActive
    ensures var started := Start(env, q, scrapes);
            match Parsed(env, q.metadata)
            case Err(e) => started == Started(Done(Rejected(e)), scrapes)
            case Ok(cfg) =>
              var r := Read(env, cfg, q.world, scrapes);
              && started.scrapes == r.scrapes
              && match r.result
                 case Err(e) => started.begun == Done(ReadFailed(e))
                 case Ok(v) =>
                   exists active ::
                     && started.begun == Done(Active(active))
                     && (active <==> v > Threshold(env, q.metadata))
  {
    hide Read, MetricComplaint, SelectionComplaint, EndpointComplaint, FinalMetricType, FinalTarget;
    ConfigLaws.AcceptedExactly(env, q.metadata);
    if Parsed(env, q.metadata).Ok? {
      AcceptedThreshold(env, q.metadata);
    }
  }

  lemma AcceptedThreshold(env: Env, md: Metadata)
    requires Parsed(env, md).Ok?
    ensures Parsed(env, md).value.activationThreshold == Threshold(env, md)
  {
    hide Get, MetricTypeOf, SelectionComplaint, EndpointComplaint, FinalMetricType, FinalTarget;
  }

  /** Metadata that asks for the named aggregation and leaves all else at its default. */
  ghost predicate AsksFor(md: Metadata, name: string) {
    && name in AggregationLaws.NAMES
    && (md == map["aggregation" := name] || (md == map[] && name == "max"))
  }

  lemma {:induction false} AggregationTrigger(env: Env, md: Metadata, name: string)
    requires AsksFor(md, name)
    ensures var cfg := Resolved(env, md);
            && Parsed(env, md) == Ok(cfg)
            && cfg.metricType == GPUUtilization && cfg.gpuIndex == -1
            && cfg.aggregation == Aggregation.MethodOf(name)
            && Threshold(env, md) == 0.0
  {
    hide Parsed, Resolved, ConfigLaws.WellFormed, ConfigLaws.EndpointsFit, Threshold;
    hide Aggregation.MethodOf, ConfigLaws.KEYS;
    ConfigLaws.EmptyMetadata(env);
    if md == map[] {
      AggregationLaws.AggregationNames(name);
    } else {
      assert md == map[]["aggregation" := name];
      ConfigLaws.PlainKeys(env, map[], name);
    }
    OnlyAggregation(env, md);
    ConfigLaws.AcceptedExactly(env, md);
    NoEndpoints(env, Resolved(env, md));
  }

  lemma OnlyAggregation(env: Env, md: Metadata)
    requires forall k :: k in md ==> |k| == 11 && k[0] == 'a'
    requires "aggregation" in md ==> md["aggregation"] in AggregationLaws.NAMES
    ensures ConfigLaws.WellFormed(env, md) && Threshold(env, md) == 0.0
  {
    hide Get, MetricTypeOf, Atoi, AggregationLaws.NAMES;
    assert "targetValue"[0] == 't';
  }

  lemma NoEndpoints(env: Env, cfg: ScalerConfig)
    requires cfg.metricType == GPUUtilization && cfg.vllmEndpoint == "" && cfg.tritonEndpoint == ""
    ensures ConfigLaws.EndpointsFit(env, cfg)
  {
  }

  /** The readings of a node's devices. */
  function Utilizations(ms: seq<DeviceMetrics>): (xs: seq<real>)
    ensures |xs| == |ms|
  {
    seq(|ms|, i requires 0 <= i < |ms| => ms[i].gpuUtilization as real)
  }

  /** What such a trigger reads on a node with devices. */
  lemma {:induction false} NodeReading(
    env: Env, md: Metadata, name: string, w: World, scrapes: Scrapes, ms: seq<DeviceMetrics>)
    returns (v: real)
    requires AsksFor(md, name) && w.collectAll == Ok(ms) && ms != []
    ensures Parsed(env, md) == Ok(Resolved(env, md))
    ensures Read(env, Resolved(env, md), w, scrapes) == Reading(Ok(v), scrapes)
    ensures AggregationLaws.IsAggregate(name, Utilizations(ms), v)
  {
    hide Resolved, Parsed, AggregationLaws.IsAggregate, MetricTypeOf;
    hide Aggregation.Value, Aggregation.MethodOf;
    AggregationTrigger(env, md, name);
    MetricTypeNames();
    var cfg := Resolved(env, md);
    v := Read(env, cfg, w, scrapes).result.value;
    ReadingLaws.AllDevices(env, cfg, w, scrapes, "gpu_utilization", name, Utilizations(ms));
  }

  lemma {:induction false} IdleSum(xs: seq<real>)
    requires forall x :: x in xs ==> x == 0.0
    ensures AggregationLaws.AddedUp(xs) == 0.0
  {
    if xs == [] {
    } else {
      assert xs[0] in xs && forall x :: x in xs[1..] ==> x in xs;
      IdleSum(xs[1..]);
    }
  }

  /** No aggregation makes anything but zero of idle devices. */
  lemma {:induction false} IdleAggregate(name: string, xs: seq<real>, v: real)
    requires name in AggregationLaws.NAMES && AggregationLaws.IsAggregate(name, xs, v)
    requires xs != [] && forall x :: x in xs ==> x == 0.0
    ensures v == 0.0
  {
    hide AggregationLaws.AddedUp;
    IdleSum(xs);
    if name == "avg" {
      AggregationLaws.MulCancel(v, 0.0, |xs| as real);
    }
  }

  /** With default metadata an idle node is inactive under every aggregation: it scales to zero. */
  lemma {:induction false} IdleNodeIsInactive(
    env: Env, q: Request, scrapes: Scrapes, name: string, ms: seq<DeviceMetrics>)
    requires q.rpc == IsActive || q.rpc == StreamIsActive
    requires AsksFor(q.metadata, name) && q.world.collectAll == Ok(ms) && ms != []
    requires forall i :: 0 <= i < |ms| ==> ms[i].gpuUtilization == 0
    ensures Start(env, q, scrapes) == Started(Done(Active(false)), scrapes)
  {
    hide Start, Read, Parsed, Resolved, Threshold, AggregationLaws.IsAggregate;
    AggregationTrigger(env, q.metadata, name);
    ActiveExactly(env, q, scrapes);
    var v := NodeReading(env, q.metadata, name, q.world, scrapes, ms);
    IdleAggregate(name, Utilizations(ms), v);
  }

  /** And one busy device makes it active under the default aggregation, the maximum. */
  lemma {:induction false} BusyDeviceIsActive(
    env: Env, q: Request, scrapes: Scrapes, ms: seq<DeviceMetrics>, i: nat)
    requires q.rpc == IsActive || q.rpc == StreamIsActive
    requires AsksFor(q.metadata, "max")
    requires q.world.collectAll == Ok(ms) && i < |ms| && ms[i].gpuUtilization > 0
    ensures Start(env, q, scrapes) == Started(Done(Active(true)), scrapes)
  {
    hide Start, Read, Parsed, Resolved, Threshold;
    AggregationTrigger(env, q.metadata, "max");
    ActiveExactly(env, q, scrapes);
    var v := NodeReading(env, q.metadata, "max", q.world, scrapes, ms);
    assert Utilizations(ms)[i] in Utilizations(ms);
  }

  // ----- The spec query -----

  /** The target an accepted map asks for: the memory shorthand, the other one, its own, its profile's, or 80. */
  function Target(env: Env, md: Metadata): real {
    if "targetMemoryUtilization" in md then env.parseFloat(md["targetMemoryUtilization"]).GetOr(0.0)
    else if "targetGpuUtilization" in md then env.parseFloat(md["targetGpuUtilization"]).GetOr(0.0)
    else if "targetValue" in md then env.parseFloat(md["targetValue"]).GetOr(0.0)
    else if "profile" in md && Get(md["profile"]).Some? then Get(md["profile"]).value.targetValue
    else 80.0
  }

  function NameOf(md: Metadata): string {
    if "metricName" in md then md["metricName"]
    else if "profile" in md && Get(md["profile"]).Some? then Get(md["profile"]).value.metricName
    else "keda_gpu_metric"
  }

  /** A spec query is answered from the metadata alone, whatever the world looks like. */
  lemma {:induction false} SpecExactly(env: Env, q: Request, scrapes: Scrapes)
    requires q.rpc == GetMetricSpec
    ensures var started := Start(env, q, scrapes);
            && started.scrapes == scrapes
            && match Parsed(env, q.metadata)
               case Err(e) => started.begun == Done(Rejected(e))
               case Ok(_) => started.begun == Done(Spec(NameOf(q.metadata), Target(env, q.metadata)))
  {
    hide Read, Get, MetricTypeOf, SelectionComplaint, EndpointComplaint, FinalMetricType;
  }

  /** A metrics request is answered under the name its spec announced, in any world. */
  lemma {:induction false} MetricIsNamedAsSpec(
    env: Env, q: Request, spec: Request, scrapes: Scrapes, other: Scrapes)
    requires q.rpc == GetMetrics && spec.rpc == GetMetricSpec && spec.metadata == q.metadata
    requires Start(env, q, scrapes).begun.Waiting?
    ensures exists target ::
              Start(env, spec, other).begun
              == Done(Spec(Start(env, q, scrapes).begun.pending.metricName, target))
  {
    hide Read, Parsed;
  }
}
