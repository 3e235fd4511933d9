/** From a configuration and the outside world to one fresh value: what `getMetricValue` computes. */
module Readings {
  import opened Wrappers
  import opened GoStrings
  import opened Clock
  import opened Profiles
  import opened Config
  import opened Exposition
  import Http
  import Aggregation
  import Triton
  import Vllm

  /** The readings of one device that a metric type can select. */
  datatype DeviceMetrics = DeviceMetrics(
    gpuUtilization: nat,
    memoryUtilization: nat,
    memoryUsedMiB: nat,
    memoryTotalMiB: nat,
    temperatureCelsius: nat,
    powerDrawWatts: nat,
    pcieTxKBps: nat,
    pcieRxKBps: nat,
    nvlinkTxMBps: nat,
    nvlinkRxMBps: nat)

  /** Everything one request may observe: the collector, the HTTP endpoints, the scrape's clock. */
  datatype World = World(
    collectAll: Result<seq<DeviceMetrics>, string>,
    collectDevice: int -> Result<DeviceMetrics, string>,
    http: string -> Http.Response,
    scrapedAt: Instant)

  datatype ReadError =
    | CollectorFailed(message: string)
    | NoDevices
    | ScrapeFailed(error: Http.ScrapeError)
    | NotExported(metric: MetricType)

  /** The successful scrapes of every Triton endpoint for which a client exists. */
  type Scrapes = map<string, seq<Triton.Sample>>

  function HistoryOf(scrapes: Scrapes, endpoint: string): seq<Triton.Sample> {
    if endpoint in scrapes then scrapes[endpoint] else []
  }

  datatype Reading = Reading(result: Result<real, ReadError>, scrapes: Scrapes)

  // ----- One device -----

  /** The reading a device metric type names. */
  function NamedReading(m: DeviceMetrics, t: MetricType): Option<real> {
    match t
    case GPUUtilization => Some(m.gpuUtilization as real)
    case MemoryUtilization => Some(m.memoryUtilization as real)
    case MemoryUsedMiB => Some(m.memoryUsedMiB as real)
    case MemoryUsedPercent =>
      if m.memoryTotalMiB == 0 then Some(0.0)
      else Some(m.memoryUsedMiB as real / m.memoryTotalMiB as real * 100.0)
    case Temperature => Some(m.temperatureCelsius as real)
    case PowerDraw => Some(m.powerDrawWatts as real)
    case PCIeTxKBps => Some(m.pcieTxKBps as real)
    case PCIeRxKBps => Some(m.pcieRxKBps as real)
    case NVLinkTxMBps => Some(m.nvlinkTxMBps as real)
    case NVLinkRxMBps => Some(m.nvlinkRxMBps as real)
    case _ => None
  }

  /** `extractMetric`, with its default branch. */
  function ExtractMetric(m: DeviceMetrics, t: MetricType): real {
    NamedReading(m, t).GetOr(m.gpuUtilization as real)
  }

  function ExtractAll(ms: seq<DeviceMetrics>, t: MetricType): (vs: seq<real>)
    ensures |vs| == |ms|
  {
    seq(|ms|, i requires 0 <= i < |ms| => ExtractMetric(ms[i], t))
  }

  // ----- The three routes -----

  function DeviceReading(cfg: ScalerConfig, w: World): Result<real, ReadError> {
    if cfg.gpuIndex >= 0 then
      match w.collectDevice(cfg.gpuIndex)
      case Err(e) => Err(CollectorFailed(e))
      case Ok(m) => Ok(ExtractMetric(m, cfg.metricType))
    else
      match w.collectAll
      case Err(e) => Err(CollectorFailed(e))
      case Ok(ms) =>
        if ms == [] then Err(NoDevices)
        else Ok(Aggregation.Value(ExtractAll(ms, cfg.metricType), cfg.aggregation))
  }

  /** Selecting a vLLM gauge; an absent gauge is an error, never an idle reading. */
  function VLLMSelect(m: Vllm.EngineMetrics, t: MetricType): Result<real, ReadError> {
    match t
    case VLLMQueueDepth => if m.hasQueueDepth then Ok(m.queueDepth) else Err(NotExported(t))
    case VLLMKVCacheUsage =>
      if m.hasKVCacheUsage then Ok(m.kvCacheUsage * 100.0) else Err(NotExported(t))
    case _ => Ok(0.0)
  }

  function VLLMReading(env: Env, cfg: ScalerConfig, w: World): Result<real, ReadError> {
    match Vllm.ScrapeSpec(env.parseFloat, w.http(cfg.vllmEndpoint))
    case Err(e) => Err(ScrapeFailed(e))
    case Ok(m) => VLLMSelect(m, cfg.metricType)
  }

  function TritonSelect(m: Triton.EngineMetrics, t: MetricType): real {
    match t
    case TritonQueueWaitMs => m.avgQueueWaitUs / 1000.0
    case TritonRequestRate => m.requestRatePerSec
    case _ => 0.0
  }

  /** A Triton reading creates the endpoint's client on first use, even when the scrape fails. */
  function TritonReading(env: Env, cfg: ScalerConfig, w: World, scrapes: Scrapes): Reading {
    var e := cfg.tritonEndpoint;
    var s := Triton.ScrapeSpec(env.parseFloat, w.http(e), w.scrapedAt, HistoryOf(scrapes, e));
    Reading(
      match s.result
      case Err(error) => Err(ScrapeFailed(error))
      case Ok(m) => Ok(TritonSelect(m, cfg.metricType)),
      scrapes[e := s.history])
  }

  /** `getMetricValue`. */
  function Read(env: Env, cfg: ScalerConfig, w: World, scrapes: Scrapes): Reading {
    if IsVLLMMetric(cfg.metricType) then Reading(VLLMReading(env, cfg, w), scrapes)
    else if IsTritonMetric(cfg.metricType) then TritonReading(env, cfg, w, scrapes)
    else Reading(DeviceReading(cfg, w), scrapes)
  }

  // ----- Accepted configurations never fall through -----

  /** Every choice `getMetricValue` makes for the configuration has a named branch. */
  ghost predicate Closed(env: Env, cfg: ScalerConfig) {
    && ValidMetricType(cfg.metricType)
    && cfg.gpuIndex >= -1 && cfg.cooldownSeconds >= 0
    && cfg.aggregation.Accepted()
    && (IsVLLMMetric(cfg.metricType) ==>
          cfg.vllmEndpoint != "" && env.endpointAllowed(cfg.vllmEndpoint))
    && (IsTritonMetric(cfg.metricType) ==>
          cfg.tritonEndpoint != "" && env.endpointAllowed(cfg.tritonEndpoint))
    && (!IsVLLMMetric(cfg.metricType) && !IsTritonMetric(cfg.metricType) ==>
          forall m :: NamedReading(m, cfg.metricType).Some?)
  }

  /** Whatever profile and overrides a map combines, acceptance closes every branch. */
  lemma AcceptedIsClosed(env: Env, md: Metadata)
    ensures Parsed(env, md).Ok? ==> Closed(env, Parsed(env, md).value)
  {
    hide MetricTypeOf, Get, Atoi, Aggregation.MethodOf;
    assert forall t, m :: ValidMetricType(t) && !IsVLLMMetric(t) && !IsTritonMetric(t) ==>
      NamedReading(m, t).Some?;
  }

  /**
   * No profile sets the cooldown: without an override every accepted map gets 60 seconds, which is
   * its profile's own cooldown exactly when that is 60.
   */
  lemma ProfileCooldownIgnored(env: Env, md: Metadata)
    requires Parsed(env, md).Ok? && "cooldownSeconds" !in md
    ensures var effective := Parsed(env, md).value.cooldownSeconds;
            && effective == 60
            && ("profile" in md ==>
                  && Get(md["profile"]).Some?
                  && var own := Get(md["profile"]).value.cooldownSeconds;
                  (effective == own <==> own == 60))
  {
    hide MetricTypeOf, Aggregation.MethodOf, Get;
  }

  lemma TrainingProfile()
    ensures Get("training") == Some(Profile("keda_gpu_training", 90.0, 0.0, GPUUtilization, 300))
  {
    assert "training"[2] == 'a' && "training"[1] == 'r';
  }

  /** A map whose keys have 7 or 14 characters sets no field but the profile and the Triton endpoint. */
  lemma FewKeysOnly(md: Metadata)
    requires forall k :: k in md ==> |k| == 7 || |k| == 14
    ensures "metricName" !in md && "metricType" !in md && "targetValue" !in md
    ensures "targetGpuUtilization" !in md && "targetMemoryUtilization" !in md
    ensures "activationThreshold" !in md && "gpuIndex" !in md && "aggregation" !in md
    ensures "cooldownSeconds" !in md && "pollIntervalSeconds" !in md
    ensures "vllmEndpoint" !in md
    ensures (forall k :: k in md ==> |k| == 7) ==> "tritonEndpoint" !in md
  {
  }

  /** The training profile alone is accepted and gets 60 seconds instead of its own 300. */
  lemma TrainingCooldownDiffers(env: Env)
    ensures var md := map["profile" := "training"];
            && Parsed(env, md).Ok?
            && Parsed(env, md).value.cooldownSeconds == 60
            && Get("training").Some? && Get("training").value.cooldownSeconds == 300
  {
    hide MetricTypeOf, Atoi, Get;
    TrainingProfile();
    var md := map["profile" := "training"];
    ProfileOnly(env, md);
  }

  /** A map that only names the training profile. */
  lemma ProfileOnly(env: Env, md: Metadata)
    requires "profile" in md && Get(md["profile"]).Some? && (forall k :: k in md ==> |k| == 7)
    requires Get(md["profile"]).value.metricType == GPUUtilization
    ensures Parsed(env, md).Ok? && Parsed(env, md).value.cooldownSeconds == 60
  {
    hide MetricTypeOf, Atoi, Get;
    FewKeysOnly(md);
  }

  // ----- vLLM readings are real -----

  /** The names a vLLM metric type is exported under. */
  function GaugeNames(t: MetricType): set<string> {
    if t == VLLMQueueDepth then {Vllm.QUEUE_DEPTH}
    else {Vllm.KV_CACHE_USAGE, Vllm.KV_CACHE_USAGE_OLD}
  }

  /** The KV-cache gauge is a fraction; KEDA compares percentages. */
  function GaugeScale(t: MetricType): real {
    if t == VLLMQueueDepth then 1.0 else 100.0
  }

  /**
   * A vLLM reading succeeds exactly when the scrape succeeded and some line of its body carried the
   * gauge, and then it is the last such line's value; otherwise it is an error, never a zero.
   */
  lemma VLLMReadingExact(env: Env, cfg: ScalerConfig, w: World)
    requires IsVLLMMetric(cfg.metricType)
    ensures var names := GaugeNames(cfg.metricType);
            match Http.BodyOf(w.http(cfg.vllmEndpoint))
            case Err(e) => VLLMReading(env, cfg, w) == Err(ScrapeFailed(e))
            case Ok(body) =>
              match VLLMReading(env, cfg, w)
              case Ok(v) =>
                exists raw :: Vllm.LastCarried(env.parseFloat, body, names, raw)
                              && v == raw * GaugeScale(cfg.metricType)
              case Err(e) =>
                e == NotExported(cfg.metricType) && Vllm.NowhereCarried(env.parseFloat, body, names)
  {
    hide Vllm.LastCarried, Vllm.NowhereCarried, Points, LastValue;
    match Http.BodyOf(w.http(cfg.vllmEndpoint))
    case Err(_) =>
    case Ok(body) =>
      Vllm.NeverInventsAReading(env.parseFloat, body);
      var m := Vllm.Gauges(Points(env.parseFloat, body));
      var raw := if cfg.metricType == VLLMQueueDepth then m.queueDepth else m.kvCacheUsage;
      var names := GaugeNames(cfg.metricType);
      match VLLMReading(env, cfg, w)
      case Ok(v) => assert Vllm.LastCarried(env.parseFloat, body, names, raw);
      case Err(_) =>
  }
}
