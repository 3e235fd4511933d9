/** From trigger metadata to a checked configuration: `parseMetadata`. */
module Config {
  import opened Wrappers
  import opened GoStrings
  import opened Exposition
  import opened Profiles
  import Aggregation

  /** Library functions left abstract: float parsing and the endpoint URL check. */
  datatype Env = Env(parseFloat: FloatParser, endpointAllowed: string -> bool)

  type Metadata = map<string, string>

  datatype ScalerConfig = ScalerConfig(
    metricName: string,
    metricType: MetricType,
    targetValue: real,
    activationThreshold: real,
    gpuIndex: int,
    aggregation: Aggregation.Method,
    pollIntervalSeconds: int,
    cooldownSeconds: int,
    vllmEndpoint: string,
    tritonEndpoint: string)

  datatype ConfigError =
    | UnknownProfile
    | InvalidMetricType
    | InvalidNumber(field: string)
    | OutOfRange(field: string)
    | InvalidAggregation
    | EndpointMissing(field: string)
    | EndpointRefused(field: string)

  // ----- What each field ends up as, field by field -----

  function Float(env: Env, md: Metadata, field: string, default: real): real {
    if field in md then env.parseFloat(md[field]).GetOr(default) else default
  }

  function Int(md: Metadata, field: string, default: int): int {
    if field in md then Atoi(md[field]).GetOr(default) else default
  }

  function Text(md: Metadata, field: string, default: string): string {
    if field in md then md[field] else default
  }

  /** What a trigger without a profile starts from. */
  function DefaultProfile(): Profile {
    Profile("keda_gpu_metric", 80.0, 0.0, GPUUtilization, 60)
  }

  function BaseProfile(md: Metadata): Profile {
    if "profile" in md then Get(md["profile"]).GetOr(DefaultProfile()) else DefaultProfile()
  }

  /** The memory shorthand beats the utilization shorthand, which beats an explicit metric type. */
  function FinalMetricType(md: Metadata): MetricType {
    if "targetMemoryUtilization" in md then MemoryUsedPercent
    else if "targetGpuUtilization" in md then GPUUtilization
    else if "metricType" in md then MetricTypeOf(md["metricType"])
    else BaseProfile(md).metricType
  }

  function FinalTarget(env: Env, md: Metadata): real {
    if "targetMemoryUtilization" in md then Float(env, md, "targetMemoryUtilization", 0.0)
    else if "targetGpuUtilization" in md then Float(env, md, "targetGpuUtilization", 0.0)
    else Float(env, md, "targetValue", BaseProfile(md).targetValue)
  }

  /** The configuration a metadata map describes. */
  function Resolved(env: Env, md: Metadata): ScalerConfig {
    ScalerConfig(
      Text(md, "metricName", BaseProfile(md).metricName),
      FinalMetricType(md),
      FinalTarget(env, md),
      Float(env, md, "activationThreshold", BaseProfile(md).activationValue),
      Int(md, "gpuIndex", -1),
      Aggregation.MethodOf(Text(md, "aggregation", "max")),
      Int(md, "pollIntervalSeconds", 10),
      Int(md, "cooldownSeconds", 60),
      Text(md, "vllmEndpoint", ""),
      Text(md, "tritonEndpoint", ""))
  }

  // ----- Which maps are accepted -----

  predicate FloatOk(env: Env, md: Metadata, field: string) {
    field in md ==> env.parseFloat(md[field]).Some?
  }

  predicate IntOk(md: Metadata, field: string) {
    field in md ==> Atoi(md[field]).Some?
  }

  predicate EndpointOk(env: Env, endpoint: string) {
    endpoint != "" ==> env.endpointAllowed(endpoint)
  }

  /** Complaints about the profile, the metric and its thresholds, in the order of checking. */
  function MetricComplaint(env: Env, md: Metadata): Option<ConfigError> {
    if "profile" in md && Get(md["profile"]).None? then Some(UnknownProfile)
    else if "metricType" in md && !ValidMetricType(MetricTypeOf(md["metricType"])) then
      Some(InvalidMetricType)
    else if !FloatOk(env, md, "targetValue") then Some(InvalidNumber("targetValue"))
    else if !FloatOk(env, md, "targetGpuUtilization") then Some(InvalidNumber("targetGpuUtilization"))
    else if !FloatOk(env, md, "targetMemoryUtilization") then
      Some(InvalidNumber("targetMemoryUtilization"))
    else if !FloatOk(env, md, "activationThreshold") then Some(InvalidNumber("activationThreshold"))
    else None
  }

  /** Complaints about the device selection and the timing. */
  function SelectionComplaint(env: Env, md: Metadata): Option<ConfigError> {
    var cfg := Resolved(env, md);
    if !IntOk(md, "gpuIndex") then Some(InvalidNumber("gpuIndex"))
    else if cfg.gpuIndex < -1 then Some(OutOfRange("gpuIndex"))
    else if !cfg.aggregation.Accepted() then Some(InvalidAggregation)
    else if !IntOk(md, "cooldownSeconds") then Some(InvalidNumber("cooldownSeconds"))
    else if cfg.cooldownSeconds < 0 then Some(OutOfRange("cooldownSeconds"))
    else if !IntOk(md, "pollIntervalSeconds") then Some(InvalidNumber("pollIntervalSeconds"))
    else None
  }

  /** Complaints about the engine endpoints. */
  function EndpointComplaint(env: Env, cfg: ScalerConfig): Option<ConfigError> {
    if IsVLLMMetric(cfg.metricType) && cfg.vllmEndpoint == "" then
      Some(EndpointMissing("vllmEndpoint"))
    else if IsTritonMetric(cfg.metricType) && cfg.tritonEndpoint == "" then
      Some(EndpointMissing("tritonEndpoint"))
    else if !EndpointOk(env, cfg.vllmEndpoint) then Some(EndpointRefused("vllmEndpoint"))
    else if !EndpointOk(env, cfg.tritonEndpoint) then Some(EndpointRefused("tritonEndpoint"))
    else None
  }

  /** The configuration, or the first complaint. */
  function Parsed(env: Env, md: Metadata): Result<ScalerConfig, ConfigError> {
    var cfg := Resolved(env, md);
    if MetricComplaint(env, md).Some? then Err(MetricComplaint(env, md).value)
    else if SelectionComplaint(env, md).Some? then Err(SelectionComplaint(env, md).value)
    else if EndpointComplaint(env, cfg).Some? then Err(EndpointComplaint(env, cfg).value)
    else Ok(cfg)
  }

  // ----- The parser, overwriting its configuration field by field -----

  /** The configuration before any metadata is read. */
  function DefaultConfig(): ScalerConfig {
    ScalerConfig("keda_gpu_metric", GPUUtilization, 80.0, 0.0, -1, Aggregation.Max, 10, 60, "", "")
  }

  /** `parseMetadata`, in the three stretches below. */
  method ParseMetadata(env: Env, md: Metadata) returns (r: Result<ScalerConfig, ConfigError>)
    ensures r == Parsed(env, md)
  {
    hide MetricComplaint, SelectionComplaint, FinalMetricType, FinalTarget, BaseProfile;
    var cfg, e := ReadMetric(env, md, DefaultConfig());
    if e.Some? {
      return Err(e.value);
    }
    cfg, e := ReadSelection(env, md, cfg);
    if e.Some? {
      return Err(e.value);
    }
    if "vllmEndpoint" in md {
      cfg := cfg.(vllmEndpoint := md["vllmEndpoint"]);
    }
    if "tritonEndpoint" in md {
      cfg := cfg.(tritonEndpoint := md["tritonEndpoint"]);
    }
    assert cfg == Resolved(env, md);
    if IsVLLMMetric(cfg.metricType) && cfg.vllmEndpoint == "" {
      return Err(EndpointMissing("vllmEndpoint"));
    }
    if IsTritonMetric(cfg.metricType) && cfg.tritonEndpoint == "" {
      return Err(EndpointMissing("tritonEndpoint"));
    }
    if cfg.vllmEndpoint != "" && !env.endpointAllowed(cfg.vllmEndpoint) {
      return Err(EndpointRefused("vllmEndpoint"));
    }
    if cfg.tritonEndpoint != "" && !env.endpointAllowed(cfg.tritonEndpoint) {
      return Err(EndpointRefused("tritonEndpoint"));
    }
    return Ok(cfg);
  }

  /** Profile, metric and thresholds. */
  method ReadMetric(env: Env, md: Metadata, start: ScalerConfig)
    returns (cfg: ScalerConfig, e: Option<ConfigError>)
    requires start == DefaultConfig()
    ensures e == MetricComplaint(env, md)
    ensures e.None? ==>
              cfg == start.(
                metricName := Resolved(env, md).metricName,
                metricType := Resolved(env, md).metricType,
                targetValue := Resolved(env, md).targetValue,
                activationThreshold := Resolved(env, md).activationThreshold)
  {
    hide Get, MetricTypeOf;
    cfg, e := start, None;
    if "profile" in md {
      var profile := Get(md["profile"]);
      if profile.None? {
        return cfg, Some(UnknownProfile);
      }
      cfg := cfg.(
        metricName := profile.value.metricName,
        metricType := profile.value.metricType,
        targetValue := profile.value.targetValue,
        activationThreshold := profile.value.activationValue);
    }
    if "metricName" in md {
      cfg := cfg.(metricName := md["metricName"]);
    }
    if "metricType" in md {
      var mt := MetricTypeOf(md["metricType"]);
      if !ValidMetricType(mt) {
        return cfg, Some(InvalidMetricType);
      }
      cfg := cfg.(metricType := mt);
    }
    if "targetValue" in md {
      var f := env.parseFloat(md["targetValue"]);
      if f.None? {
        return cfg, Some(InvalidNumber("targetValue"));
      }
      cfg := cfg.(targetValue := f.value);
    }
    if "targetGpuUtilization" in md {
      var f := env.parseFloat(md["targetGpuUtilization"]);
      if f.None? {
        return cfg, Some(InvalidNumber("targetGpuUtilization"));
      }
      cfg := cfg.(targetValue := f.value, metricType := GPUUtilization);
    }
    if "targetMemoryUtilization" in md {
      var f := env.parseFloat(md["targetMemoryUtilization"]);
      if f.None? {
        return cfg, Some(InvalidNumber("targetMemoryUtilization"));
      }
      cfg := cfg.(targetValue := f.value, metricType := MemoryUsedPercent);
    }
    if "activationThreshold" in md {
      var f := env.parseFloat(md["activationThreshold"]);
      if f.None? {
        return cfg, Some(InvalidNumber("activationThreshold"));
      }
      cfg := cfg.(activationThreshold := f.value);
    }
  }

  /** Device, aggregation and timing. */
  method ReadSelection(env: Env, md: Metadata, start: ScalerConfig)
    returns (cfg: ScalerConfig, e: Option<ConfigError>)
    requires start.gpuIndex == -1 && start.aggregation == Aggregation.Max
    requires start.cooldownSeconds == 60 && start.pollIntervalSeconds == 10
    ensures e == SelectionComplaint(env, md)
    ensures e.None? ==>
              cfg == start.(
                gpuIndex := Resolved(env, md).gpuIndex,
                aggregation := Resolved(env, md).aggregation,
                cooldownSeconds := Resolved(env, md).cooldownSeconds,
                pollIntervalSeconds := Resolved(env, md).pollIntervalSeconds)
  {
    hide Atoi, FinalMetricType, FinalTarget, BaseProfile;
    cfg, e := start, None;
    if "gpuIndex" in md {
      var i := Atoi(md["gpuIndex"]);
      if i.None? {
        return cfg, Some(InvalidNumber("gpuIndex"));
      }
      if i.value < -1 {
        return cfg, Some(OutOfRange("gpuIndex"));
      }
      cfg := cfg.(gpuIndex := i.value);
    }
    if "aggregation" in md {
      var m := Aggregation.MethodOf(md["aggregation"]);
      if !m.Accepted() {
        return cfg, Some(InvalidAggregation);
      }
      cfg := cfg.(aggregation := m);
    }
    if "cooldownSeconds" in md {
      var i := Atoi(md["cooldownSeconds"]);
      if i.None? {
        return cfg, Some(InvalidNumber("cooldownSeconds"));
      }
      if i.value < 0 {
        return cfg, Some(OutOfRange("cooldownSeconds"));
      }
      cfg := cfg.(cooldownSeconds := i.value);
    }
    if "pollIntervalSeconds" in md {
      var i := Atoi(md["pollIntervalSeconds"]);
      if i.None? {
        return cfg, Some(InvalidNumber("pollIntervalSeconds"));
      }
      cfg := cfg.(pollIntervalSeconds := i.value);
    }
  }
}
