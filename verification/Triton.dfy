/** The Triton client: reading its counters and differentiating them between scrapes. */
module Triton {
  import opened Wrappers
  import opened Clock
  import opened Exposition
  import opened Http

  const QUEUE_DURATION := "nv_inference_queue_duration_us"
  const REQUEST_SUCCESS := "nv_inference_request_success"
  const REQUEST_FAILURE := "nv_inference_request_failure"
  const INFERENCE_COUNT := "nv_inference_count"
  const GPU_UTILIZATION := "nv_gpu_utilization"

  datatype EngineMetrics = EngineMetrics(
    queueDurationUs: real,
    requestSuccess: real,
    requestFailure: real,
    inferenceCount: real,
    gpuUtilization: real,
    avgQueueWaitUs: real,
    requestRatePerSec: real)

  // ----- Specification -----

  /** Sums over all label sets for the counters, the last value for the gauge. */
  function Counters(points: seq<Point>): EngineMetrics {
    EngineMetrics(
      SeriesTotal(points, QUEUE_DURATION),
      SeriesTotal(points, REQUEST_SUCCESS),
      SeriesTotal(points, REQUEST_FAILURE),
      SeriesTotal(points, INFERENCE_COUNT),
      LastValue(points, {GPU_UTILIZATION}).GetOr(0.0),
      0.0, 0.0)
  }

  /** What a client keeps of one successful scrape. */
  datatype Sample = Sample(count: real, queueUs: real, at: Instant)

  function SampleOf(m: EngineMetrics, now: Instant): Sample {
    Sample(m.inferenceCount, m.queueDurationUs, now)
  }

  datatype Derived = Derived(avgQueueWaitUs: real, requestRatePerSec: real)

  /** The values derived from two consecutive samples. */
  function Derive(prev: Sample, cur: Sample): Derived {
    var dCount := cur.count - prev.count;
    var dQueueUs := cur.queueUs - prev.queueUs;
    var dt := InSeconds(Sub(cur.at, prev.at));
    Derived(
      if dCount > 0.0 && dQueueUs > 0.0 then dQueueUs / dCount else 0.0,
      if dCount > 0.0 && dt > 0.0 then dCount / dt else 0.0)
  }

  /** The values derived at a new sample, given all earlier ones. */
  function DeriveAfter(past: seq<Sample>, cur: Sample): Derived {
    if past == [] then Derived(0.0, 0.0) else Derive(past[|past| - 1], cur)
  }

  function Filled(m: EngineMetrics, past: seq<Sample>, now: Instant): EngineMetrics {
    var d := DeriveAfter(past, SampleOf(m, now));
    m.(avgQueueWaitUs := d.avgQueueWaitUs, requestRatePerSec := d.requestRatePerSec)
  }

  datatype Scraped = Scraped(result: Result<EngineMetrics, ScrapeError>, history: seq<Sample>)

  /** One scrape: a failed one leaves the client's history alone. */
  function ScrapeSpec(pf: FloatParser, http: Response, now: Instant, history: seq<Sample>): Scraped {
    match BodyOf(http)
    case Err(e) => Scraped(Err(e), history)
    case Ok(body) =>
      var m := Counters(Points(pf, body));
      Scraped(Ok(Filled(m, history, now)), history + [SampleOf(m, now)])
  }

  // ----- Reading a body -----

  lemma CounterNamesDiffer()
    ensures QUEUE_DURATION != REQUEST_SUCCESS && QUEUE_DURATION != REQUEST_FAILURE
    ensures QUEUE_DURATION != INFERENCE_COUNT && QUEUE_DURATION != GPU_UTILIZATION
    ensures REQUEST_SUCCESS != REQUEST_FAILURE && REQUEST_SUCCESS != INFERENCE_COUNT
    ensures REQUEST_SUCCESS != GPU_UTILIZATION && REQUEST_FAILURE != INFERENCE_COUNT
    ensures REQUEST_FAILURE != GPU_UTILIZATION && INFERENCE_COUNT != GPU_UTILIZATION
  {
    assert REQUEST_SUCCESS[21] != REQUEST_FAILURE[21];
    assert INFERENCE_COUNT[3] != GPU_UTILIZATION[3];
    assert |QUEUE_DURATION| == 30 && |REQUEST_SUCCESS| == |REQUEST_FAILURE| == 28;
    assert |INFERENCE_COUNT| == |GPU_UTILIZATION| == 18;
  }

  /** `parseMetrics`. */
  method ParseMetrics(pf: FloatParser, lines: seq<string>) returns (m: EngineMetrics)
    ensures m == Counters(Points(pf, lines))
  {
    CounterNamesDiffer();
    m := EngineMetrics(0.0, 0.0, 0.0, 0.0, 0.0, 0.0, 0.0);
    for i := 0 to |lines|
      invariant m == Counters(Points(pf, lines[..i]))
    {
      var line := lines[i];
      assert lines[..i + 1][..i] == lines[..i];
      if line == "" || line[0] == '#' {
        continue;
      }
      var parsed := ParseLine(pf, line);
      if parsed.None? {
        continue;
      }
      var Point(name, value) := parsed.value;
      ghost var before := Points(pf, lines[..i]);
      ghost var points := Points(pf, lines[..i + 1]);
      assert points[..|points| - 1] == before;
      if name == QUEUE_DURATION {
        m := m.(queueDurationUs := m.queueDurationUs + value);
      } else if name == REQUEST_SUCCESS {
        m := m.(requestSuccess := m.requestSuccess + value);
      } else if name == REQUEST_FAILURE {
        m := m.(requestFailure := m.requestFailure + value);
      } else if name == INFERENCE_COUNT {
        m := m.(inferenceCount := m.inferenceCount + value);
      } else if name == GPU_UTILIZATION {
        m := m.(gpuUtilization := value);
      }
    }
    assert lines[..|lines|] == lines;
  }

  // ----- What a body adds up to -----

  /** The sum of a metric over the printed samples whose value text parses. */
  function PrintedTotal(pf: FloatParser, items: seq<Item>, name: string): real {
    if items == [] then 0.0 else
      var last := items[|items| - 1];
      PrintedTotal(pf, items[..|items| - 1], name)
      + if last.Metric? && last.sample.name == name then pf(last.sample.text).GetOr(0.0) else 0.0
  }

  /** The last printed sample of a metric whose value text parses. */
  function PrintedLast(pf: FloatParser, items: seq<Item>, name: string): real {
    if items == [] then 0.0 else
      var last := items[|items| - 1];
      if last.Metric? && last.sample.name == name && pf(last.sample.text).Some?
      then pf(last.sample.text).value
      else PrintedLast(pf, items[..|items| - 1], name)
  }

  lemma {:induction false} MeaningsTotal(pf: FloatParser, items: seq<Item>, name: string)
    ensures SeriesTotal(Meanings(pf, items), name) == PrintedTotal(pf, items, name)
    ensures LastValue(Meanings(pf, items), {name}).GetOr(0.0) == PrintedLast(pf, items, name)
  {
    if items == [] {
    } else {
      var init, last := items[..|items| - 1], items[|items| - 1];
      MeaningsTotal(pf, init, name);
      if last.Metric? && Meaning(pf, last.sample).Some? {
        assert Meanings(pf, items)[..|Meanings(pf, init)|] == Meanings(pf, init);
      }
    }
  }

  /**
   * Printing samples, mixed with any lines that carry none, and parsing the body yields each
   * counter's sum over all label sets, and the last gauge value.
   */
  lemma PrintedBodyCounters(pf: FloatParser, items: seq<Item>)
    requires forall i :: 0 <= i < |items| ==> Legible(pf, items[i])
    ensures var m := Counters(Points(pf, PrintBody(items)));
            && m.queueDurationUs == PrintedTotal(pf, items, "nv_inference_queue_duration_us")
            && m.requestSuccess == PrintedTotal(pf, items, "nv_inference_request_success")
            && m.requestFailure == PrintedTotal(pf, items, "nv_inference_request_failure")
            && m.inferenceCount == PrintedTotal(pf, items, "nv_inference_count")
            && m.gpuUtilization == PrintedLast(pf, items, "nv_gpu_utilization")
  {
    BodyRoundTrip(pf, items);
    hide Points, Meanings, SeriesTotal, LastValue, PrintedTotal, PrintedLast, PrintBody, Legible;
    MeaningsTotal(pf, items, QUEUE_DURATION);
    MeaningsTotal(pf, items, REQUEST_SUCCESS);
    MeaningsTotal(pf, items, REQUEST_FAILURE);
    MeaningsTotal(pf, items, INFERENCE_COUNT);
    MeaningsTotal(pf, items, GPU_UTILIZATION);
  }

  ghost predicate SameCounters(m: EngineMetrics, n: EngineMetrics) {
    && m.queueDurationUs == n.queueDurationUs && m.requestSuccess == n.requestSuccess
    && m.requestFailure == n.requestFailure && m.inferenceCount == n.inferenceCount
  }

  /** Concatenating bodies adds every counter; reordering lines changes none. */
  lemma BodiesAddUp(pf: FloatParser, a: seq<string>, b: seq<string>, shuffled: seq<string>)
    requires multiset(shuffled) == multiset(a + b)
    ensures var ma, mb, m := Counters(Points(pf, a)), Counters(Points(pf, b)), Counters(Points(pf, a + b));
            && m.queueDurationUs == ma.queueDurationUs + mb.queueDurationUs
            && m.requestSuccess == ma.requestSuccess + mb.requestSuccess
            && m.requestFailure == ma.requestFailure + mb.requestFailure
            && m.inferenceCount == ma.inferenceCount + mb.inferenceCount
            && SameCounters(Counters(Points(pf, shuffled)), m)
  {
    hide Points, SeriesTotal, LastValue;
    forall name
      ensures SeriesTotal(Points(pf, a + b), name)
              == SeriesTotal(Points(pf, a), name) + SeriesTotal(Points(pf, b), name)
      ensures SeriesTotal(Points(pf, shuffled), name) == SeriesTotal(Points(pf, a + b), name)
    {
      ValuesAdd(pf, a, b, name);
      LineOrderIrrelevant(pf, shuffled, a + b, name);
    }
  }

  // ----- The client -----

  class Client {
    const endpoint: string
    var havePrev: bool
    var prevInferenceCnt: real
    var prevQueueDurUs: real
    var prevScrapeTime: Instant

    /** Every successful scrape of this client, in the order in which they took the lock. */
    ghost var history: seq<Sample>

    /** The fields hold the latest successful scrape. */
    ghost predicate Valid()
      reads this
    {
      && (havePrev <==> history != [])
      && (havePrev ==>
            history[|history| - 1] == Sample(prevInferenceCnt, prevQueueDurUs, prevScrapeTime))
    }

    constructor (endpoint: string)
      ensures Valid() && this.endpoint == endpoint && history == []
    {
      this.endpoint := endpoint;
      havePrev, prevInferenceCnt, prevQueueDurUs, prevScrapeTime := false, 0.0, 0.0, ZERO_INSTANT;
      history := [];
    }

    /** `applyDerived`: m is the scrape just parsed, now the clock read under the lock. */
    method ApplyDerived(m: EngineMetrics, now: Instant) returns (filled: EngineMetrics)
      requires Valid()
      modifies this
      ensures Valid() && history == old(history) + [SampleOf(m, now)]
      ensures m.avgQueueWaitUs == m.requestRatePerSec == 0.0 ==>
                filled == Filled(m, old(history), now)
    {
      filled := m;
      if havePrev {
        var dCount := m.inferenceCount - prevInferenceCnt;
        var dQueueUs := m.queueDurationUs - prevQueueDurUs;
        var dt := InSeconds(Sub(now, prevScrapeTime));
        if dCount > 0.0 {
          if dQueueUs > 0.0 {
            filled := filled.(avgQueueWaitUs := dQueueUs / dCount);
          }
          if dt > 0.0 {
            filled := filled.(requestRatePerSec := dCount / dt);
          }
        }
      }
      prevInferenceCnt := m.inferenceCount;
      prevQueueDurUs := m.queueDurationUs;
      prevScrapeTime := now;
      havePrev := true;
      history := history + [SampleOf(m, now)];
    }

    method Scrape(pf: FloatParser, http: Response, now: Instant)
      returns (r: Result<EngineMetrics, ScrapeError>)
      requires Valid()
      modifies this
      ensures Valid()
      ensures Scraped(r, history) == ScrapeSpec(pf, http, now, old(history))
    {
      match http
      case Unreachable => r := Err(RequestFailed);
      case Response(status, body, readOk) =>
        if status != STATUS_OK {
          return Err(BadStatus(status));
        }
        var m := ParseMetrics(pf, body);
        if !readOk {
          return Err(BadBody);
        }
        var filled := ApplyDerived(m, now);
        r := Ok(filled);
    }
  }
}
