/** The vLLM client: gauges with presence flags. */
module Vllm {
  import opened Wrappers
  import opened Exposition
  import opened Http

  const QUEUE_DEPTH := "vllm:num_requests_waiting"
  const RUNNING_COUNT := "vllm:num_requests_running"
  const KV_CACHE_USAGE := "vllm:kv_cache_usage_perc"
  const KV_CACHE_USAGE_OLD := "vllm:gpu_cache_usage_perc"
  const SWAPPED_COUNT := "vllm:num_requests_swapped"

  datatype EngineMetrics = EngineMetrics(
    queueDepth: real,
    runningCount: real,
    kvCacheUsage: real,
    swappedCount: real,
    hasQueueDepth: bool,
    hasRunningCount: bool,
    hasKVCacheUsage: bool,
    hasSwappedCount: bool)

  /** The gauges of a body: a flag per gauge, and the last value of each. */
  function Gauges(points: seq<Point>): EngineMetrics {
    var queue := LastValue(points, {QUEUE_DEPTH});
    var running := LastValue(points, {RUNNING_COUNT});
    var cache := LastValue(points, {KV_CACHE_USAGE, KV_CACHE_USAGE_OLD});
    var swapped := LastValue(points, {SWAPPED_COUNT});
    EngineMetrics(
      queue.GetOr(0.0), running.GetOr(0.0), cache.GetOr(0.0), swapped.GetOr(0.0),
      queue.Some?, running.Some?, cache.Some?, swapped.Some?)
  }

  lemma GaugeNamesDiffer()
    ensures QUEUE_DEPTH !in {RUNNING_COUNT, KV_CACHE_USAGE, KV_CACHE_USAGE_OLD, SWAPPED_COUNT}
    ensures RUNNING_COUNT !in {KV_CACHE_USAGE, KV_CACHE_USAGE_OLD, SWAPPED_COUNT}
    ensures SWAPPED_COUNT !in {KV_CACHE_USAGE, KV_CACHE_USAGE_OLD}
  {
    assert QUEUE_DEPTH[18] != RUNNING_COUNT[18] && QUEUE_DEPTH[18] != SWAPPED_COUNT[18];
    assert RUNNING_COUNT[18] != SWAPPED_COUNT[18];
    assert QUEUE_DEPTH[5] == RUNNING_COUNT[5] == SWAPPED_COUNT[5] == 'n';
    assert KV_CACHE_USAGE[5] == 'k' && KV_CACHE_USAGE_OLD[5] == 'g';
  }

  /** `parseMetrics`. */
  method ParseMetrics(pf: FloatParser, lines: seq<string>) returns (m: EngineMetrics)
    ensures m == Gauges(Points(pf, lines))
  {
    GaugeNamesDiffer();
    m := EngineMetrics(0.0, 0.0, 0.0, 0.0, false, false, false, false);
    for i := 0 to |lines|
      invariant m == Gauges(Points(pf, lines[..i]))
    {
      var line := lines[i];
      assert lines[..i + 1][..i] == lines[..i];
      if line == "" || line[0] == '#' {
        continue;
      }
      var parsed := ParseLine(pf, line);
      if parsed.None? {
        continue;
      }
      var Point(name, value) := parsed.value;
      ghost var before := Points(pf, lines[..i]);
      ghost var points := Points(pf, lines[..i + 1]);
      assert points[..|points| - 1] == before;
      if name == QUEUE_DEPTH {
        m := m.(queueDepth := value, hasQueueDepth := true);
      } else if name == RUNNING_COUNT {
        m := m.(runningCount := value, hasRunningCount := true);
      } else if name == KV_CACHE_USAGE || name == KV_CACHE_USAGE_OLD {
        m := m.(kvCacheUsage := value, hasKVCacheUsage := true);
      } else if name == SWAPPED_COUNT {
        m := m.(swappedCount := value, hasSwappedCount := true);
      }
    }
    assert lines[..|lines|] == lines;
  }

  // ----- Presence flags tell the truth -----

  /** Line i of a body carries the value under one of the names. */
  ghost predicate CarriedAt(pf: FloatParser, lines: seq<string>, names: set<string>, i: nat, v: real) {
    i < |lines| && LineCarries(pf, lines[i], names, v)
  }

  ghost predicate LineCarries(pf: FloatParser, line: string, names: set<string>, v: real) {
    && line != "" && line[0] != '#'
    && exists name :: name in names && Carries(pf, line, Point(name, v))
  }

  /** The last line that carries one of the names. */
  ghost predicate LastCarried(pf: FloatParser, lines: seq<string>, names: set<string>, v: real) {
    exists i: nat :: CarriedAt(pf, lines, names, i, v)
                     && forall j: nat, w :: i < j ==> !CarriedAt(pf, lines, names, j, w)
  }

  ghost predicate NowhereCarried(pf: FloatParser, lines: seq<string>, names: set<string>) {
    forall i: nat, v :: !CarriedAt(pf, lines, names, i, v)
  }

  /** The value a line gives to one of the names. */
  function Hit(pf: FloatParser, line: string, names: set<string>): Option<real> {
    match PointOn(pf, line)
    case None => None
    case Some(p) => if p.name in names then Some(p.value) else None
  }

  lemma HitIffCarried(pf: FloatParser, line: string, names: set<string>, v: real)
    ensures Hit(pf, line, names) == Some(v) <==> LineCarries(pf, line, names, v)
  {
    hide ParseLine, Carries;
    if Hit(pf, line, names) == Some(v) {
      LineGrammar(pf, line, PointOn(pf, line).value);
    }
    if LineCarries(pf, line, names, v) {
      var name :| name in names && Carries(pf, line, Point(name, v));
      LineGrammar(pf, line, Point(name, v));
    }
  }

  /** The index of the last line that hits, or -1. */
  lemma {:induction false} LastHit(pf: FloatParser, lines: seq<string>, names: set<string>)
    returns (i: int)
    ensures -1 <= i < |lines|
    ensures forall j :: i < j < |lines| ==> Hit(pf, lines[j], names) == None
    ensures LastValue(Points(pf, lines), names) == if i < 0 then None else Hit(pf, lines[i], names)
    ensures i >= 0 ==> Hit(pf, lines[i], names).Some?
  {
    hide PointOn;
    if lines == [] {
      i := -1;
    } else {
      var last := |lines| - 1;
      var before := Points(pf, lines[..last]);
      if PointOn(pf, lines[last]).Some? {
        assert Points(pf, lines)[..|before|] == before;
      }
      if Hit(pf, lines[last], names).Some? {
        i := last;
      } else {
        i := LastHit(pf, lines[..last], names);
      }
    }
  }

  /**
   * A gauge is present exactly when some line of the body carries it, and its value is that of the
   * last such line.
   */
  lemma GaugeTellsTheTruth(pf: FloatParser, lines: seq<string>, names: set<string>)
    ensures match LastValue(Points(pf, lines), names)
            case Some(v) => LastCarried(pf, lines, names, v)
            case None => NowhereCarried(pf, lines, names)
  {
    hide Hit, LineCarries, Points, LastValue;
    var i := LastHit(pf, lines, names);
    forall j: nat, w | i < j
      ensures !CarriedAt(pf, lines, names, j, w)
    {
      if j < |lines| {
        HitIffCarried(pf, lines[j], names, w);
      }
    }
    if i >= 0 {
      var v := Hit(pf, lines[i], names).value;
      HitIffCarried(pf, lines[i], names, v);
      assert CarriedAt(pf, lines, names, i, v);
    }
  }

  /** The flags and values of a scraped body, all at once. */
  lemma NeverInventsAReading(pf: FloatParser, lines: seq<string>)
    ensures var m := Gauges(Points(pf, lines));
            && (if m.hasQueueDepth then LastCarried(pf, lines, {"vllm:num_requests_waiting"}, m.queueDepth)
                else NowhereCarried(pf, lines, {"vllm:num_requests_waiting"}))
            && (if m.hasRunningCount then LastCarried(pf, lines, {"vllm:num_requests_running"}, m.runningCount)
                else NowhereCarried(pf, lines, {"vllm:num_requests_running"}))
            && (if m.hasKVCacheUsage
                then LastCarried(pf, lines, {"vllm:kv_cache_usage_perc", "vllm:gpu_cache_usage_perc"}, m.kvCacheUsage)
                else NowhereCarried(pf, lines, {"vllm:kv_cache_usage_perc", "vllm:gpu_cache_usage_perc"}))
            && (if m.hasSwappedCount then LastCarried(pf, lines, {"vllm:num_requests_swapped"}, m.swappedCount)
                else NowhereCarried(pf, lines, {"vllm:num_requests_swapped"}))
  {
    hide LastCarried, NowhereCarried, Points, LastValue;
    GaugeTellsTheTruth(pf, lines, {QUEUE_DEPTH});
    GaugeTellsTheTruth(pf, lines, {RUNNING_COUNT});
    GaugeTellsTheTruth(pf, lines, {KV_CACHE_USAGE, KV_CACHE_USAGE_OLD});
    GaugeTellsTheTruth(pf, lines, {SWAPPED_COUNT});
  }

  // ----- The client -----

  function ScrapeSpec(pf: FloatParser, http: Response): Result<EngineMetrics, ScrapeError> {
    match BodyOf(http)
    case Err(e) => Err(e)
    case Ok(body) => Ok(Gauges(Points(pf, body)))
  }

  class Client {
    const endpoint: string

    constructor (endpoint: string)
      ensures this.endpoint == endpoint
    {
      this.endpoint := endpoint;
    }

    method Scrape(pf: FloatParser, http: Response) returns (r: Result<EngineMetrics, ScrapeError>)
      ensures r == ScrapeSpec(pf, http)
    {
      match http
      case Unreachable => r := Err(RequestFailed);
      case Response(status, body, readOk) =>
        if status != STATUS_OK {
          return Err(BadStatus(status));
        }
        var m := ParseMetrics(pf, body);
        r := if readOk then Ok(m) else Err(BadBody);
    }
  }
}
