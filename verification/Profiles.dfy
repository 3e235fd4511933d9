/** Metric types and the built-in profiles. */
module Profiles {
  import opened Wrappers

  /** Go's string type `MetricType`; every other text is unrecognized. */
  datatype MetricType =
    | GPUUtilization
    | MemoryUtilization
    | MemoryUsedMiB
    | MemoryUsedPercent
    | Temperature
    | PowerDraw
    | PCIeTxKBps
    | PCIeRxKBps
    | NVLinkTxMBps
    | NVLinkRxMBps
    | VLLMQueueDepth
    | VLLMKVCacheUsage
    | TritonQueueWaitMs
    | TritonRequestRate
    | Unrecognized(text: string)

  function TextOf(t: MetricType): string {
    match t
    case GPUUtilization => "gpu_utilization"
    case MemoryUtilization => "memory_utilization"
    case MemoryUsedMiB => "memory_used_mib"
    case MemoryUsedPercent => "memory_used_percent"
    case Temperature => "temperature"
    case PowerDraw => "power_draw"
    case PCIeTxKBps => "pcie_tx_kbps"
    case PCIeRxKBps => "pcie_rx_kbps"
    case NVLinkTxMBps => "nvlink_tx_mbps"
    case NVLinkRxMBps => "nvlink_rx_mbps"
    case VLLMQueueDepth => "vllm_queue_depth"
    case VLLMKVCacheUsage => "vllm_kv_cache_usage"
    case TritonQueueWaitMs => "triton_queue_wait_ms"
    case TritonRequestRate => "triton_request_rate"
    case Unrecognized(text) => text
  }

  /** The conversion `MetricType(v)`: it keeps the text. */
  function MetricTypeOf(text: string): (t: MetricType)
    ensures TextOf(t) == text
  {
    if text == "gpu_utilization" then GPUUtilization
    else if text == "memory_utilization" then MemoryUtilization
    else if text == "memory_used_mib" then MemoryUsedMiB
    else if text == "memory_used_percent" then MemoryUsedPercent
    else if text == "temperature" then Temperature
    else if text == "power_draw" then PowerDraw
    else if text == "pcie_tx_kbps" then PCIeTxKBps
    else if text == "pcie_rx_kbps" then PCIeRxKBps
    else if text == "nvlink_tx_mbps" then NVLinkTxMBps
    else if text == "nvlink_rx_mbps" then NVLinkRxMBps
    else if text == "vllm_queue_depth" then VLLMQueueDepth
    else if text == "vllm_kv_cache_usage" then VLLMKVCacheUsage
    else if text == "triton_queue_wait_ms" then TritonQueueWaitMs
    else if text == "triton_request_rate" then TritonRequestRate
    else Unrecognized(text)
  }

  /** The name of every metric type, as an operator writes it. */
  lemma MetricTypeNames()
    ensures MetricTypeOf("gpu_utilization") == GPUUtilization
    ensures MetricTypeOf("memory_utilization") == MemoryUtilization
    ensures MetricTypeOf("memory_used_mib") == MemoryUsedMiB
    ensures MetricTypeOf("memory_used_percent") == MemoryUsedPercent
    ensures MetricTypeOf("temperature") == Temperature
    ensures MetricTypeOf("power_draw") == PowerDraw
    ensures MetricTypeOf("pcie_tx_kbps") == PCIeTxKBps
    ensures MetricTypeOf("pcie_rx_kbps") == PCIeRxKBps
    ensures MetricTypeOf("nvlink_tx_mbps") == NVLinkTxMBps
    ensures MetricTypeOf("nvlink_rx_mbps") == NVLinkRxMBps
    ensures MetricTypeOf("vllm_queue_depth") == VLLMQueueDepth
    ensures MetricTypeOf("vllm_kv_cache_usage") == VLLMKVCacheUsage
    ensures MetricTypeOf("triton_queue_wait_ms") == TritonQueueWaitMs
    ensures MetricTypeOf("triton_request_rate") == TritonRequestRate
  {
    assert "memory_used_mib"[0] != "gpu_utilization"[0];
    assert "pcie_rx_kbps"[5] != "pcie_tx_kbps"[5];
    assert "nvlink_rx_mbps"[7] != "nvlink_tx_mbps"[7];
    assert "vllm_kv_cache_usage"[0] != "memory_used_percent"[0];
    assert "triton_request_rate"[0] != "memory_used_percent"[0];
    assert "triton_request_rate"[0] != "vllm_kv_cache_usage"[0];
  }

  predicate ValidMetricType(t: MetricType) { !t.Unrecognized? }

  predicate IsVLLMMetric(t: MetricType) { t.VLLMQueueDepth? || t.VLLMKVCacheUsage? }

  predicate IsTritonMetric(t: MetricType) { t.TritonQueueWaitMs? || t.TritonRequestRate? }

  /** The part of a profile that reaches a configuration, and the cooldown, which does not. */
  datatype Profile = Profile(
    metricName: string,
    targetValue: real,
    activationValue: real,
    metricType: MetricType,
    cooldownSeconds: nat)

  /** `profiles.Get`. */
  function Get(name: string): (p: Option<Profile>)
    ensures p.Some? ==> ValidMetricType(p.value.metricType)
  {
    if name == "distributed-training" then
      Some(Profile("keda_gpu_distributed_training", 50000.0, 5000.0, NVLinkTxMBps, 300))
    else if name == "vllm-inference" then
      Some(Profile("keda_gpu_vllm_inference", 80.0, 5.0, MemoryUsedPercent, 60))
    else if name == "vllm-queue-depth" then
      Some(Profile("keda_gpu_vllm_queue_depth", 5.0, 1.0, VLLMQueueDepth, 30))
    else if name == "triton-inference" then
      Some(Profile("keda_gpu_triton_inference", 75.0, 10.0, GPUUtilization, 30))
    else if name == "triton-queue-wait" then
      Some(Profile("keda_gpu_triton_queue_wait", 50.0, 5.0, TritonQueueWaitMs, 30))
    else if name == "triton-request-rate" then
      Some(Profile("keda_gpu_triton_request_rate", 50.0, 1.0, TritonRequestRate, 30))
    else if name == "training" then
      Some(Profile("keda_gpu_training", 90.0, 0.0, GPUUtilization, 300))
    else if name == "batch" then
      Some(Profile("keda_gpu_batch", 70.0, 1.0, MemoryUsedPercent, 30))
    else if name == "ollama" then
      Some(Profile("keda_gpu_ollama", 70.0, 3.0, MemoryUsedPercent, 60))
    else if name == "tgi-inference" then
      Some(Profile("keda_gpu_tgi_inference", 75.0, 5.0, MemoryUsedPercent, 45))
    else None
  }
}
