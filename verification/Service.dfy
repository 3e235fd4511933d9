/**
 * The service as a state machine over concurrent requests. A request begins by parsing its metadata
 * and reading a fresh value outside the lock; a metrics request later commits under the lock, where
 * the damper's clock is read. Steps of different requests interleave freely.
 */
module Service {
  import opened Wrappers
  import opened Clock
  import opened Profiles
  import opened Config
  import opened Readings
  import Aggregation
  import Damper

  datatype ScaledObjectRef = ScaledObjectRef(name: string, namespace: string)

  /** Identifies one metric series. */
  datatype CooldownKey = CooldownKey(
    namespace: string,
    name: string,
    metricName: string,
    metricType: MetricType,
    aggregation: Aggregation.Method,
    gpuIndex: int,
    vllmEndpoint: string,
    tritonEndpoint: string)

  function KeyOf(ref: ScaledObjectRef, cfg: ScalerConfig): CooldownKey {
    CooldownKey(ref.namespace, ref.name, cfg.metricName, cfg.metricType, cfg.aggregation,
                cfg.gpuIndex, cfg.vllmEndpoint, cfg.tritonEndpoint)
  }

  datatype Rpc = IsActive | StreamIsActive | GetMetricSpec | GetMetrics

  datatype Request = Request(rpc: Rpc, ref: ScaledObjectRef, metadata: Metadata, world: World)

  datatype Reply =
    | Rejected(configError: ConfigError)
    | ReadFailed(readError: ReadError)
    | Active(active: bool)
    | Spec(name: string, target: real)
    | Metric(name: string, value: real)

  /** A metrics request between its two steps. */
  datatype Pending = Pending(
    key: CooldownKey, metricName: string, measured: real, cooldown: Duration)

  datatype Begun = Done(reply: Reply) | Waiting(pending: Pending)

  datatype Started = Started(begun: Begun, scrapes: Scrapes)

  /** The first step of a request. */
  function Start(env: Env, q: Request, scrapes: Scrapes): Started {
    match Parsed(env, q.metadata)
    case Err(e) => Started(Done(Rejected(e)), scrapes)
    case Ok(cfg) =>
      if q.rpc == GetMetricSpec then
        Started(Done(Spec(cfg.metricName, cfg.targetValue)), scrapes)
      else
        var r := Read(env, cfg, q.world, scrapes);
        match r.result
        case Err(e) => Started(Done(ReadFailed(e)), r.scrapes)
        case Ok(v) =>
          if q.rpc == GetMetrics then
            Started(Waiting(Pending(KeyOf(q.ref, cfg), cfg.metricName, v, OfSeconds(cfg.cooldownSeconds))),
                    r.scrapes)
          else
            Started(Done(Active(v > cfg.activationThreshold)), r.scrapes)
  }

  type Commit = Damper.Commit<CooldownKey>

  function CommitOf(p: Pending, now: Instant): Commit {
    Damper.Commit(p.key, p.measured, p.cooldown, now)
  }

  /** A request begins, or the request that began as number `id` commits. */
  datatype Action =
    | Begin(request: Request)
    | Finish(id: nat, now: Instant)

  /**
   * `begun` counts the requests; `log` and `answers` record the commits, in lock order, and what
   * each was answered.
   */
  datatype State = State(
    begun: nat,
    pending: map<nat, Pending>,
    table: map<CooldownKey, Damper.Cell>,
    scrapes: Scrapes,
    log: seq<Commit>,
    answers: seq<real>)

  const INITIAL: State := State(0, map[], map[], map[], [], [])

  function BeginStep(env: Env, s: State, q: Request): State {
    var started := Start(env, q, s.scrapes);
    var next := s.(begun := s.begun + 1, scrapes := started.scrapes);
    if started.begun.Waiting? then next.(pending := s.pending[s.begun := started.begun.pending])
    else next
  }

  function CommitStep(s: State, id: nat, now: Instant): State
    requires id in s.pending
  {
    var c := CommitOf(s.pending[id], now);
    s.(pending := s.pending - {id},
       table := Damper.TableStep(s.table, c),
       log := s.log + [c],
       answers := s.answers + [Damper.Reply(s.table, c)])
  }

  /** One step of one request; a request that is not waiting cannot commit. */
  function Step(env: Env, s: State, a: Action): State {
    match a
    case Begin(q) => BeginStep(env, s, q)
    case Finish(id, now) => if id in s.pending then CommitStep(s, id, now) else s
  }

  /** The state after any interleaving of request steps. */
  function Run(env: Env, actions: seq<Action>): State {
    if actions == [] then INITIAL
    else Step(env, Run(env, actions[..|actions| - 1]), actions[|actions| - 1])
  }
}
