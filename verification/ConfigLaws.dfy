/** What each metadata key does to the configuration, and which maps are accepted. */
module ConfigLaws {
  import opened Wrappers
  import opened GoStrings
  import opened Profiles
  import opened Config
  import Aggregation
  import AggregationLaws

  // ----- The configuration, key by key -----

  const KEYS: set<string> := {
    "profile", "metricName", "metricType", "targetValue", "targetGpuUtilization",
    "targetMemoryUtilization", "activationThreshold", "gpuIndex", "aggregation", "cooldownSeconds",
    "pollIntervalSeconds", "vllmEndpoint", "tritonEndpoint"
  }

  /** A trigger without metadata. */
  lemma EmptyMetadata(env: Env)
    ensures Resolved(env, map[])
            == ScalerConfig("keda_gpu_metric", GPUUtilization, 80.0, 0.0, -1, Aggregation.Max, 10, 60, "", "")
  {
    AggregationLaws.AggregationNames("max");
  }

  /** A key the parser does not know changes nothing. */
  lemma UnknownKey(env: Env, md: Metadata, key: string, v: string)
    requires key !in KEYS
    ensures Resolved(env, md[key := v]) == Resolved(env, md)
  {
    hide Get, MetricTypeOf, Atoi, Aggregation.MethodOf;
  }

  /** The keys that set one field each. */
  lemma PlainKeys(env: Env, md: Metadata, v: string)
    ensures Resolved(env, md["metricName" := v]) == Resolved(env, md).(metricName := v)
    ensures Resolved(env, md["aggregation" := v])
            == Resolved(env, md).(aggregation := Aggregation.MethodOf(v))
    ensures Resolved(env, md["vllmEndpoint" := v]) == Resolved(env, md).(vllmEndpoint := v)
    ensures Resolved(env, md["tritonEndpoint" := v]) == Resolved(env, md).(tritonEndpoint := v)
  {
    hide Get, MetricTypeOf, Atoi, Aggregation.MethodOf;
    KeysDiffer();
  }

  lemma KeysDiffer()
    ensures "metricName" != "metricType" && "targetValue" != "aggregation"
    ensures "activationThreshold" != "pollIntervalSeconds"
  {
    assert "metricName"[6] == 'N' && "targetValue"[0] == 't' && "activationThreshold"[0] == 'a';
  }

  /** The keys that hold whole numbers. */
  lemma IntegerKeys(env: Env, md: Metadata, v: string)
    requires Atoi(v).Some?
    ensures Resolved(env, md["gpuIndex" := v]) == Resolved(env, md).(gpuIndex := Atoi(v).value)
    ensures Resolved(env, md["cooldownSeconds" := v])
            == Resolved(env, md).(cooldownSeconds := Atoi(v).value)
    ensures Resolved(env, md["pollIntervalSeconds" := v])
            == Resolved(env, md).(pollIntervalSeconds := Atoi(v).value)
  {
    hide Get, MetricTypeOf, Atoi, Aggregation.MethodOf;
    KeysDiffer();
  }

  predicate HasShorthand(md: Metadata) {
    "targetGpuUtilization" in md || "targetMemoryUtilization" in md
  }

  /** The numbers: a target is kept only without a shorthand, and the memory shorthand wins. */
  lemma FloatKeys(env: Env, md: Metadata, v: string)
    requires env.parseFloat(v).Some?
    ensures var f, cfg := env.parseFloat(v).value, Resolved(env, md);
            && Resolved(env, md["activationThreshold" := v]) == cfg.(activationThreshold := f)
            && Resolved(env, md["targetValue" := v])
               == (if HasShorthand(md) then cfg else cfg.(targetValue := f))
            && Resolved(env, md["targetGpuUtilization" := v])
               == (if "targetMemoryUtilization" in md then cfg
                   else cfg.(targetValue := f, metricType := GPUUtilization))
            && Resolved(env, md["targetMemoryUtilization" := v])
               == cfg.(targetValue := f, metricType := MemoryUsedPercent)
  {
    hide Get, MetricTypeOf, Atoi, Aggregation.MethodOf;
    KeysDiffer();
  }

  /** A metric type is kept only without a shorthand. */
  lemma MetricTypeKey(env: Env, md: Metadata, v: string)
    ensures var cfg := Resolved(env, md);
            Resolved(env, md["metricType" := v])
            == if HasShorthand(md) then cfg else cfg.(metricType := MetricTypeOf(v))
  {
    hide Get, MetricTypeOf, Atoi, Aggregation.MethodOf;
    KeysDiffer();
  }

  /** A profile sets four fields, as far as no key of their own does. */
  lemma ProfileKey(env: Env, md: Metadata, v: string)
    requires Get(v).Some?
    ensures var p, cfg := Get(v).value, Resolved(env, md);
            Resolved(env, md["profile" := v])
            == cfg.(
               metricName := if "metricName" in md then cfg.metricName else p.metricName,
               metricType :=
                 if HasShorthand(md) || "metricType" in md then cfg.metricType else p.metricType,
               targetValue :=
                 if HasShorthand(md) || FloatGiven(env, md, "targetValue") then cfg.targetValue
                 else p.targetValue,
               activationThreshold :=
                 if FloatGiven(env, md, "activationThreshold") then cfg.activationThreshold
                 else p.activationValue)
  {
    hide Get, MetricTypeOf, Atoi, Aggregation.MethodOf;
    KeysDiffer();
  }

  ghost predicate FloatGiven(env: Env, md: Metadata, key: string) {
    key in md && env.parseFloat(md[key]).Some?
  }

  /** The ten profiles, by name: metric name, target, activation threshold and metric type. */
  lemma ProfileTable()
    ensures Named("distributed-training", "keda_gpu_distributed_training", 50000.0, 5000.0, "nvlink_tx_mbps")
    ensures Named("vllm-inference", "keda_gpu_vllm_inference", 80.0, 5.0, "memory_used_percent")
    ensures Named("vllm-queue-depth", "keda_gpu_vllm_queue_depth", 5.0, 1.0, "vllm_queue_depth")
    ensures Named("triton-inference", "keda_gpu_triton_inference", 75.0, 10.0, "gpu_utilization")
    ensures Named("triton-queue-wait", "keda_gpu_triton_queue_wait", 50.0, 5.0, "triton_queue_wait_ms")
    ensures Named("triton-request-rate", "keda_gpu_triton_request_rate", 50.0, 1.0, "triton_request_rate")
    ensures Named("training", "keda_gpu_training", 90.0, 0.0, "gpu_utilization")
    ensures Named("batch", "keda_gpu_batch", 70.0, 1.0, "memory_used_percent")
    ensures Named("ollama", "keda_gpu_ollama", 70.0, 3.0, "memory_used_percent")
    ensures Named("tgi-inference", "keda_gpu_tgi_inference", 75.0, 5.0, "memory_used_percent")
  {
    hide MetricTypeOf;
    MetricTypeNames();
    assert "vllm-queue-depth"[0] != "triton-inference"[0];
  }

  ghost predicate Named(
    profile: string, metricName: string, target: real, activation: real, metric: string)
  {
    match Get(profile)
    case None => false
    case Some(p) =>
      && p.metricName == metricName && p.targetValue == target && p.activationValue == activation
      && p.metricType == MetricTypeOf(metric)
  }

  // ----- Which maps are accepted -----

  ghost predicate IntGiven(md: Metadata, key: string, least: int) {
    key in md ==> Atoi(md[key]).Some? && Atoi(md[key]).value >= least
  }

  /** Every key that is present holds what it may hold. */
  ghost predicate WellFormed(env: Env, md: Metadata) {
    && ("profile" in md ==> Get(md["profile"]).Some?)
    && ("metricType" in md ==> !MetricTypeOf(md["metricType"]).Unrecognized?)
    && ("aggregation" in md ==> md["aggregation"] in AggregationLaws.NAMES)
    && (forall key :: key in {"targetValue", "targetGpuUtilization", "targetMemoryUtilization",
                              "activationThreshold"} && key in md ==>
          env.parseFloat(md[key]).Some?)
    && IntGiven(md, "gpuIndex", -1) && IntGiven(md, "cooldownSeconds", 0)
    && ("pollIntervalSeconds" in md ==> Atoi(md["pollIntervalSeconds"]).Some?)
  }

  /** Endpoints are allowed where they are given, and given where the metric is scraped from them. */
  ghost predicate EndpointsFit(env: Env, cfg: ScalerConfig) {
    && (cfg.metricType == VLLMQueueDepth || cfg.metricType == VLLMKVCacheUsage ==>
          cfg.vllmEndpoint != "")
    && (cfg.metricType == TritonQueueWaitMs || cfg.metricType == TritonRequestRate ==>
          cfg.tritonEndpoint != "")
    && (cfg.vllmEndpoint != "" ==> env.endpointAllowed(cfg.vllmEndpoint))
    && (cfg.tritonEndpoint != "" ==> env.endpointAllowed(cfg.tritonEndpoint))
  }

  /** A map is accepted exactly when its values are well-formed and its endpoints fit. */
  lemma {:induction false} AcceptedExactly(env: Env, md: Metadata)
    ensures Parsed(env, md).Ok? <==> WellFormed(env, md) && EndpointsFit(env, Resolved(env, md))
    ensures Parsed(env, md).Ok? ==> Parsed(env, md).value == Resolved(env, md)
  {
    hide Get, MetricTypeOf, Atoi, Aggregation.MethodOf;
    if "aggregation" in md {
      AggregationLaws.AggregationNames(md["aggregation"]);
    }
    AggregationLaws.AggregationNames("max");
    assert "aggregation" !in md ==> Resolved(env, md).aggregation == Aggregation.Max;
  }

  const INTEGER_KEYS: set<string> := {"gpuIndex", "cooldownSeconds", "pollIntervalSeconds"}

  /** The complaint is true of the map. */
  ghost predicate Justified(env: Env, md: Metadata, e: ConfigError) {
    match e
    case UnknownProfile => "profile" in md && Get(md["profile"]).None?
    case InvalidMetricType => "metricType" in md && MetricTypeOf(md["metricType"]).Unrecognized?
    case InvalidNumber(key) =>
      && key in md
      && (if key in INTEGER_KEYS then Atoi(md[key]).None? else env.parseFloat(md[key]).None?)
    case OutOfRange(key) =>
      && key in md && Atoi(md[key]).Some?
      && Atoi(md[key]).value < if key == "gpuIndex" then -1 else 0
    case InvalidAggregation => "aggregation" in md && md["aggregation"] !in AggregationLaws.NAMES
    case EndpointMissing(key) =>
      && (key !in md || md[key] == "")
      && Resolved(env, md).metricType in
         (if key == "vllmEndpoint" then {VLLMQueueDepth, VLLMKVCacheUsage}
          else {TritonQueueWaitMs, TritonRequestRate})
    case EndpointRefused(key) => key in md && md[key] != "" && !env.endpointAllowed(md[key])
  }

  /** All complaints, in the order in which they take precedence. */
  const COMPLAINTS: seq<ConfigError> := [
    UnknownProfile, InvalidMetricType, InvalidNumber("targetValue"),
    InvalidNumber("targetGpuUtilization"), InvalidNumber("targetMemoryUtilization"),
    InvalidNumber("activationThreshold"), InvalidNumber("gpuIndex"), OutOfRange("gpuIndex"),
    InvalidAggregation, InvalidNumber("cooldownSeconds"), OutOfRange("cooldownSeconds"),
    InvalidNumber("pollIntervalSeconds"), EndpointMissing("vllmEndpoint"),
    EndpointMissing("tritonEndpoint"), EndpointRefused("vllmEndpoint"),
    EndpointRefused("tritonEndpoint")
  ]

  /** None of the complaints from .. to is justified. */
  ghost predicate NoneJustified(env: Env, md: Metadata, from: nat, to: nat) {
    forall j :: from <= j < to && j < |COMPLAINTS| ==> !Justified(env, md, COMPLAINTS[j])
  }

  /** The first complaint is the one of complaints from .. to that is justified first, if any is. */
  ghost predicate PicksFirst(env: Env, md: Metadata, first: Option<ConfigError>, from: nat, to: nat) {
    match first
    case None => NoneJustified(env, md, from, to)
    case Some(e) =>
      exists k: nat :: from <= k < to && k < |COMPLAINTS| && COMPLAINTS[k] == e
                       && Justified(env, md, e) && NoneJustified(env, md, from, k)
  }

  lemma {:induction false} FirstOfMetric(env: Env, md: Metadata)
    ensures PicksFirst(env, md, MetricComplaint(env, md), 0, 6)
  {
    hide Get, MetricTypeOf;
    var k: nat :=
      if Justified(env, md, COMPLAINTS[0]) then 0
      else if Justified(env, md, COMPLAINTS[1]) then 1
      else if Justified(env, md, COMPLAINTS[2]) then 2
      else if Justified(env, md, COMPLAINTS[3]) then 3
      else if Justified(env, md, COMPLAINTS[4]) then 4
      else if Justified(env, md, COMPLAINTS[5]) then 5 else 6;
    assert NoneJustified(env, md, 0, k);
    assert k < 6 ==> MetricComplaint(env, md) == Some(COMPLAINTS[k]);
  }

  lemma SelectionFields(env: Env, md: Metadata)
    ensures var cfg := Resolved(env, md);
            && cfg.gpuIndex == Int(md, "gpuIndex", -1)
            && cfg.cooldownSeconds == Int(md, "cooldownSeconds", 60)
            && (cfg.aggregation.Accepted()
                <==> ("aggregation" in md ==> md["aggregation"] in AggregationLaws.NAMES))
  {
    hide Atoi, Aggregation.MethodOf, FinalMetricType, FinalTarget, BaseProfile;
    AggregationLaws.AggregationNames(Text(md, "aggregation", "max"));
  }

  lemma {:induction false} FirstOfSelection(env: Env, md: Metadata)
    ensures PicksFirst(env, md, SelectionComplaint(env, md), 6, 12)
  {
    SelectionFields(env, md);
    hide Atoi, Resolved, AggregationLaws.NAMES;
    var k: nat :=
      if Justified(env, md, COMPLAINTS[6]) then 6
      else if Justified(env, md, COMPLAINTS[7]) then 7
      else if Justified(env, md, COMPLAINTS[8]) then 8
      else if Justified(env, md, COMPLAINTS[9]) then 9
      else if Justified(env, md, COMPLAINTS[10]) then 10
      else if Justified(env, md, COMPLAINTS[11]) then 11 else 12;
    assert NoneJustified(env, md, 6, k);
    assert k < 12 ==> SelectionComplaint(env, md) == Some(COMPLAINTS[k]);
  }

  lemma {:induction false} FirstOfEndpoints(env: Env, md: Metadata)
    ensures PicksFirst(env, md, EndpointComplaint(env, Resolved(env, md)), 12, 16)
  {
    hide Atoi, Aggregation.MethodOf, FinalMetricType, FinalTarget, BaseProfile;
    var k: nat :=
      if Justified(env, md, COMPLAINTS[12]) then 12
      else if Justified(env, md, COMPLAINTS[13]) then 13
      else if Justified(env, md, COMPLAINTS[14]) then 14
      else if Justified(env, md, COMPLAINTS[15]) then 15 else 16;
    assert NoneJustified(env, md, 12, k);
    assert k < 16 ==> EndpointComplaint(env, Resolved(env, md)) == Some(COMPLAINTS[k]);
  }

  lemma {:induction false} FirstOfBoth(
    env: Env, md: Metadata, a: Option<ConfigError>, b: Option<ConfigError>,
    from: nat, mid: nat, to: nat)
    requires from <= mid <= to
    requires PicksFirst(env, md, a, from, mid) && PicksFirst(env, md, b, mid, to)
    ensures PicksFirst(env, md, if a.Some? then a else b, from, to)
  {
    hide Justified, COMPLAINTS;
    if a.None? && b.Some? {
      var k: nat :| mid <= k < to && k < |COMPLAINTS| && COMPLAINTS[k] == b.value
                    && Justified(env, md, b.value) && NoneJustified(env, md, mid, k);
      assert NoneJustified(env, md, from, k);
    }
  }

  function ErrorOf<T, E>(r: Result<T, E>): Option<E> {
    match r
    case Ok(_) => None
    case Err(e) => Some(e)
  }

  /** A map is rejected exactly when a complaint is justified, and with the first one that is. */
  lemma {:induction false} FirstComplaint(env: Env, md: Metadata)
    ensures PicksFirst(env, md, ErrorOf(Parsed(env, md)), 0, |COMPLAINTS|)
  {
    assert |COMPLAINTS| == 16;
    hide MetricComplaint, SelectionComplaint, EndpointComplaint, Resolved, PicksFirst, COMPLAINTS;
    FirstOfMetric(env, md);
    FirstOfSelection(env, md);
    FirstOfEndpoints(env, md);
    var a, b := MetricComplaint(env, md), SelectionComplaint(env, md);
    FirstOfBoth(env, md, a, b, 0, 6, 12);
    FirstOfBoth(env, md, if a.Some? then a else b, EndpointComplaint(env, Resolved(env, md)), 0, 12, 16);
  }
}
