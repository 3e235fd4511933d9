/** What a fresh value is, route by route, in terms of what an operator writes and the world shows. */
module ReadingLaws {
  import opened Wrappers
  import opened Clock
  import opened Exposition
  import opened Profiles
  import opened Config
  import opened Readings
  import Aggregation
  import AggregationLaws
  import Http
  import Triton
  import TritonRuns
  import Vllm

  // ----- Which field of a device a metric type reads -----

  /**
   * The metric type reads one field: between any two devices the readings differ as that field
   * does, whatever the others hold, and zero reads as zero.
   */
  ghost predicate ReadsField(t: MetricType, field: DeviceMetrics -> nat) {
    && (forall m, n ::
          ExtractMetric(m, t) - ExtractMetric(n, t) == field(m) as real - field(n) as real)
    && (forall m :: field(m) == 0 ==> ExtractMetric(m, t) == 0.0)
  }

  /** The metric types that read a utilization or the used memory as it is. */
  lemma LoadFields()
    ensures ReadsField(MetricTypeOf("gpu_utilization"), (m: DeviceMetrics) => m.gpuUtilization)
    ensures ReadsField(MetricTypeOf("memory_utilization"), (m: DeviceMetrics) => m.memoryUtilization)
    ensures ReadsField(MetricTypeOf("memory_used_mib"), (m: DeviceMetrics) => m.memoryUsedMiB)
  {
    hide MetricTypeOf, TextOf;
    MetricTypeNames();
  }

  /** The metric types that read a sensor as it is. */
  lemma SensorFields()
    ensures ReadsField(MetricTypeOf("temperature"), (m: DeviceMetrics) => m.temperatureCelsius)
    ensures ReadsField(MetricTypeOf("power_draw"), (m: DeviceMetrics) => m.powerDrawWatts)
  {
    hide MetricTypeOf, TextOf;
    MetricTypeNames();
  }

  /** The metric types that read a link's traffic as it is. */
  lemma LinkFields()
    ensures ReadsField(MetricTypeOf("pcie_tx_kbps"), (m: DeviceMetrics) => m.pcieTxKBps)
    ensures ReadsField(MetricTypeOf("pcie_rx_kbps"), (m: DeviceMetrics) => m.pcieRxKBps)
    ensures ReadsField(MetricTypeOf("nvlink_tx_mbps"), (m: DeviceMetrics) => m.nvlinkTxMBps)
    ensures ReadsField(MetricTypeOf("nvlink_rx_mbps"), (m: DeviceMetrics) => m.nvlinkRxMBps)
  {
    hide MetricTypeOf, TextOf;
    MetricTypeNames();
  }

  /**
   * The percentage of used memory: the part of a hundred that the used memory is of the total, zero
   * exactly when nothing is used or the total is unknown, and at most 100 when no more is used than
   * there is.
   */
  lemma {:induction false} MemoryPercent(m: DeviceMetrics)
    ensures var v := ExtractMetric(m, MetricTypeOf("memory_used_percent"));
            && (m.memoryTotalMiB > 0 ==> v * m.memoryTotalMiB as real == 100.0 * m.memoryUsedMiB as real)
            && (v == 0.0 <==> m.memoryUsedMiB == 0 || m.memoryTotalMiB == 0)
            && v >= 0.0
            && (m.memoryUsedMiB <= m.memoryTotalMiB ==> v <= 100.0)
  {
    hide MetricTypeOf;
    MetricTypeNames();
    var used, total := m.memoryUsedMiB as real, m.memoryTotalMiB as real;
    if total > 0.0 {
      var share := used / total;
      AggregationLaws.QuotientTimes(used, total);
      assert share * 100.0 * total == 100.0 * used;
      AggregationLaws.MulOrder(0.0, share, total);
      if used <= total {
        AggregationLaws.MulOrder(share, 1.0, total);
      }
    }
  }

  // ----- The device routes -----

  const DEVICE_METRICS: set<string> := {
    "gpu_utilization", "memory_utilization", "memory_used_mib", "memory_used_percent", "temperature",
    "power_draw", "pcie_tx_kbps", "pcie_rx_kbps", "nvlink_tx_mbps", "nvlink_rx_mbps"
  }

  lemma DeviceMetricNames(metric: string)
    requires metric in DEVICE_METRICS
    ensures var t := MetricTypeOf(metric); !IsVLLMMetric(t) && !IsTritonMetric(t)
  {
    hide MetricTypeOf;
    MetricTypeNames();
  }

  /** With a device selected, a device metric is that one device's reading, or its error. */
  lemma {:induction false} SelectedDevice(
    env: Env, cfg: ScalerConfig, w: World, scrapes: Scrapes, metric: string)
    requires metric in DEVICE_METRICS && cfg.metricType == MetricTypeOf(metric) && cfg.gpuIndex >= 0
    ensures var r := Read(env, cfg, w, scrapes);
            && r.scrapes == scrapes
            && match w.collectDevice(cfg.gpuIndex)
               case Err(e) => r.result == Err(CollectorFailed(e))
               case Ok(m) => r.result == Ok(ExtractMetric(m, cfg.metricType))
  {
    hide ExtractMetric, MetricTypeOf;
    DeviceMetricNames(metric);
  }

  /**
   * Without one, a device metric is what the aggregation's name promises of all devices' readings;
   * a node without devices is an error.
   */
  lemma {:induction false} AllDevices(
    env: Env, cfg: ScalerConfig, w: World, scrapes: Scrapes, metric: string, name: string,
    xs: seq<real>)
    requires metric in DEVICE_METRICS && cfg.metricType == MetricTypeOf(metric) && cfg.gpuIndex < 0
    requires name in AggregationLaws.NAMES && cfg.aggregation == Aggregation.MethodOf(name)
    requires w.collectAll.Ok? ==>
               && |xs| == |w.collectAll.value|
               && forall i :: 0 <= i < |xs| ==>
                    xs[i] == ExtractMetric(w.collectAll.value[i], cfg.metricType)
    ensures var r := Read(env, cfg, w, scrapes);
            && r.scrapes == scrapes
            && match w.collectAll
               case Err(e) => r.result == Err(CollectorFailed(e))
               case Ok(ms) =>
                 if |ms| == 0 then r.result == Err(NoDevices)
                 else forall v :: r.result == Ok(v) <==> AggregationLaws.IsAggregate(name, xs, v)
  {
    hide ExtractMetric, MetricTypeOf, Aggregation.Value, Aggregation.MethodOf;
    hide AggregationLaws.IsAggregate;
    DeviceMetricNames(metric);
    if w.collectAll.Ok? && w.collectAll.value != [] {
      assert ExtractAll(w.collectAll.value, cfg.metricType) == xs;
      forall v
        ensures Aggregation.Value(xs, Aggregation.MethodOf(name)) == v
                <==> AggregationLaws.IsAggregate(name, xs, v)
      {
        AggregationLaws.AggregateByName(name, xs, v);
      }
    }
  }

  // ----- The engine routes -----

  /** The response is no scrape, for this reason. */
  ghost predicate Fails(r: Http.Response, e: Http.ScrapeError) {
    match r
    case Unreachable => e == Http.RequestFailed
    case Response(status, _, readOk) =>
      if status != 200 then e == Http.BadStatus(status) else !readOk && e == Http.BadBody
  }

  ghost predicate Succeeds(r: Http.Response) {
    r.Response? && r.status == 200 && r.readOk
  }

  /** The names a vLLM metric type is exported under, and the factor to the unit KEDA compares. */
  ghost predicate ExportedAs(metric: string, names: set<string>, factor: real) {
    || (metric == "vllm_queue_depth" && names == {"vllm:num_requests_waiting"} && factor == 1.0)
    || (metric == "vllm_kv_cache_usage"
        && names == {"vllm:kv_cache_usage_perc", "vllm:gpu_cache_usage_perc"} && factor == 100.0)
  }

  /**
   * A vLLM metric is the value of the last line of its endpoint's body that carries the gauge; a
   * failed scrape or a body without the gauge is an error, whatever the devices read.
   */
  lemma {:induction false} VLLMRoute(
    env: Env, cfg: ScalerConfig, w: World, scrapes: Scrapes, metric: string, names: set<string>,
    factor: real)
    requires ExportedAs(metric, names, factor) && cfg.metricType == MetricTypeOf(metric)
    ensures var r := Read(env, cfg, w, scrapes);
            var response := w.http(cfg.vllmEndpoint);
            && r.scrapes == scrapes
            && (forall e :: Fails(response, e) ==> r.result == Err(ScrapeFailed(e)))
            && (Succeeds(response) ==>
                  match r.result
                  case Ok(v) =>
                    exists raw :: Vllm.LastCarried(env.parseFloat, response.body, names, raw)
                                  && v == raw * factor
                  case Err(e) =>
                    && e == NotExported(cfg.metricType)
                    && Vllm.NowhereCarried(env.parseFloat, response.body, names))
  {
    hide MetricTypeOf, VLLMReading, Vllm.LastCarried, Vllm.NowhereCarried;
    MetricTypeNames();
    VLLMReadingExact(env, cfg, w);
    assert names == GaugeNames(cfg.metricType) && factor == GaugeScale(cfg.metricType);
  }

  /** The sample a body adds to an endpoint's history. */
  ghost predicate SampledAs(env: Env, w: World, endpoint: string, sample: Triton.Sample) {
    && w.http(endpoint).Response?
    && var points := Points(env.parseFloat, w.http(endpoint).body);
    && sample.count == SeriesTotal(points, "nv_inference_count")
    && sample.queueUs == SeriesTotal(points, "nv_inference_queue_duration_us")
    && sample.at == w.scrapedAt
  }

  /**
   * A failed Triton scrape is an error and leaves every endpoint's history alone; a successful one
   * adds its sample to its own endpoint's history and to no other.
   */
  lemma {:induction false} TritonScrape(
    env: Env, cfg: ScalerConfig, w: World, scrapes: Scrapes, metric: string, other: string)
    requires metric == "triton_request_rate" || metric == "triton_queue_wait_ms"
    requires cfg.metricType == MetricTypeOf(metric)
    ensures var r, e := Read(env, cfg, w, scrapes), cfg.tritonEndpoint;
            && (other != e ==> HistoryOf(r.scrapes, other) == HistoryOf(scrapes, other))
            && var past, s := HistoryOf(scrapes, e), HistoryOf(r.scrapes, e);
            && (forall f :: Fails(w.http(e), f) ==> r.result == Err(ScrapeFailed(f)) && s == past)
            && (Succeeds(w.http(e)) ==>
                  && r.result.Ok?
                  && |s| == |past| + 1 && s[..|past|] == past && SampledAs(env, w, e, s[|past|]))
  {
    hide MetricTypeOf, Points, SeriesTotal, Triton.DeriveAfter;
    MetricTypeNames();
  }

  /** A metric type's value among the derived ones; waits are turned into milliseconds. */
  function DerivedValue(d: Triton.Derived, t: MetricType): real {
    if t == TritonQueueWaitMs then d.avgQueueWaitUs / 1000.0 else d.requestRatePerSec
  }

  /** A Triton reading is derived at the sample it appends. */
  lemma {:induction false} TritonReadingIsReported(env: Env, cfg: ScalerConfig, w: World, scrapes: Scrapes)
    requires IsTritonMetric(cfg.metricType) && Read(env, cfg, w, scrapes).result.Ok?
    ensures var r := Read(env, cfg, w, scrapes);
            var past, s := HistoryOf(scrapes, cfg.tritonEndpoint), HistoryOf(r.scrapes, cfg.tritonEndpoint);
            && |s| == |past| + 1 && past <= s
            && r.result.value == DerivedValue(TritonRuns.Reported(s, |past|), cfg.metricType)
  {
    hide Triton.Counters, Triton.DeriveAfter, Points;
    var past := HistoryOf(scrapes, cfg.tritonEndpoint);
    var s := HistoryOf(Read(env, cfg, w, scrapes).scrapes, cfg.tritonEndpoint);
    assert s[..|past|] == past;
  }

  /** A request rate, against the two clock readings: requests per 10^9 nanoseconds. */
  lemma {:induction false} RateRoute(env: Env, cfg: ScalerConfig, w: World, scrapes: Scrapes)
    requires cfg.metricType == MetricTypeOf("triton_request_rate")
    requires Read(env, cfg, w, scrapes).result.Ok?
    ensures var r := Read(env, cfg, w, scrapes);
            var s := HistoryOf(r.scrapes, cfg.tritonEndpoint);
            var n, v := |s| - 1, r.result.value;
            && n >= 0
            && if n > 0 && s[n].count > s[n - 1].count && s[n].at > s[n - 1].at
               then
                 var gap := s[n].at - s[n - 1].at;
                 v * (if gap <= 9_223_372_036_854_775_807 then gap else 9_223_372_036_854_775_807) as real
                 == (s[n].count - s[n - 1].count) * 1_000_000_000.0
               else v == 0.0
  {
    hide MetricTypeOf, TritonRuns.Reported;
    MetricTypeNames();
    var r := Read(env, cfg, w, scrapes);
    var s := HistoryOf(r.scrapes, cfg.tritonEndpoint);
    TritonReadingIsReported(env, cfg, w, scrapes);
    hide Read;
    TritonRuns.DerivedNeverNegative(s, |s| - 1);
    if |s| > 1 {
      TritonRuns.RateByClock(s, |s| - 1);
    }
  }

  /** A queue wait: milliseconds of new queue time per new inference. */
  lemma {:induction false} WaitRoute(env: Env, cfg: ScalerConfig, w: World, scrapes: Scrapes)
    requires cfg.metricType == MetricTypeOf("triton_queue_wait_ms")
    requires Read(env, cfg, w, scrapes).result.Ok?
    ensures var r := Read(env, cfg, w, scrapes);
            var s := HistoryOf(r.scrapes, cfg.tritonEndpoint);
            var n, v := |s| - 1, r.result.value;
            && n >= 0
            && if n > 0 && s[n].count > s[n - 1].count && s[n].queueUs > s[n - 1].queueUs
               then v * 1000.0 * (s[n].count - s[n - 1].count) == s[n].queueUs - s[n - 1].queueUs
               else v == 0.0
  {
    hide MetricTypeOf, TritonRuns.Reported;
    MetricTypeNames();
    var r := Read(env, cfg, w, scrapes);
    var s := HistoryOf(r.scrapes, cfg.tritonEndpoint);
    TritonReadingIsReported(env, cfg, w, scrapes);
    hide Read;
    TritonRuns.DerivedNeverNegative(s, |s| - 1);
    if |s| > 1 {
      WaitPerInference(s, |s| - 1);
    }
  }

  lemma {:induction false} WaitPerInference(s: seq<Triton.Sample>, i: nat)
    requires 0 < i < |s|
    ensures var wait := TritonRuns.Reported(s, i).avgQueueWaitUs;
            if s[i].count > s[i - 1].count && s[i].queueUs > s[i - 1].queueUs
            then wait * (s[i].count - s[i - 1].count) == s[i].queueUs - s[i - 1].queueUs
            else wait == 0.0
  {
    TritonRuns.ReportedIsDerived(s, i);
    if s[i].count > s[i - 1].count {
      AggregationLaws.QuotientTimes(s[i].queueUs - s[i - 1].queueUs, s[i].count - s[i - 1].count);
    }
  }
}
