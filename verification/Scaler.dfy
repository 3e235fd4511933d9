/** The scaler itself: the object that serves KEDA's calls and keeps clients and cooldowns. */
module Scaler {
  import opened Wrappers
  import opened Clock
  import opened Profiles
  import opened Config
  import opened Readings
  import opened Service
  import Aggregation
  import Damper
  import Http
  import Isolation
  import ServiceLaws
  import Triton
  import Vllm

  /** The damper's state of one series; the scaler's table points to these. */
  class CooldownState {
    var lastValue: real
    var lastScaleDownAt: Instant

    constructor (value: real)
      ensures lastValue == value && lastScaleDownAt == ZERO_INSTANT
    {
      lastValue, lastScaleDownAt := value, ZERO_INSTANT;
    }

    ghost function Cell(): Damper.Cell
      reads this
    {
      Damper.Cell(lastValue, lastScaleDownAt)
    }

    /** What a damped call does to a series already seen. */
    method Damp(value: real, cooldown: Damper.Window, now: Instant) returns (reported: real)
      modifies this
      ensures Damper.Outcome(Cell(), reported)
              == Damper.Apply(Some(old(Cell())), Damper.Reading(value, cooldown, now))
    {
      if value >= lastValue {
        lastValue := value;
        return value;
      }
      if lastScaleDownAt != ZERO_INSTANT && Sub(now, lastScaleDownAt) < cooldown {
        return lastValue;
      }
      lastValue := value;
      lastScaleDownAt := now;
      return value;
    }
  }

  ghost predicate Injective<K, V>(m: map<K, V>) {
    forall k, l :: k in m && l in m && k != l ==> m[k] != m[l]
  }

  lemma InjectiveExtends<K, V>(m: map<K, V>, k: K, v: V)
    requires Injective(m) && v !in m.Values
    ensures Injective(m[k := v])
  {
  }

  class GPUExternalScaler {
    const env: Env
    var vllmClients: map<string, Vllm.Client>
    var tritonClients: map<string, Triton.Client>
    var cooldowns: map<CooldownKey, CooldownState>

    /** Every call of `ApplyCooldown`, in lock order. */
    ghost var log: seq<Commit>

    /**
     * No two series share a state, no two endpoints share a client, clients are filed under their
     * own endpoint, and the stored states are what the log of calls leaves behind.
     */
    ghost predicate Valid()
      reads this, cooldowns.Values, tritonClients.Values
    {
      && Injective(cooldowns)
      && ClientsValid()
      && Table() == Damper.Table(log)
    }

    ghost predicate ClientsValid()
      reads this`tritonClients, this`vllmClients, tritonClients.Values
    {
      && Injective(tritonClients)
      && (forall e :: e in tritonClients ==>
            tritonClients[e].Valid() && tritonClients[e].endpoint == e)
      && (forall e :: e in vllmClients ==> vllmClients[e].endpoint == e)
    }

    ghost function Table(): map<CooldownKey, Damper.Cell>
      reads this`cooldowns, cooldowns.Values
    {
      map k | k in cooldowns :: cooldowns[k].Cell()
    }

    ghost function Scrapes(): Scrapes
      reads this`tritonClients, tritonClients.Values
    {
      map e | e in tritonClients :: tritonClients[e].history
    }

    constructor (env: Env)
      ensures Valid() && this.env == env
      ensures Table() == map[] && Scrapes() == map[] && log == []
      ensures cooldowns == map[] && tritonClients == map[]
    {
      this.env := env;
      vllmClients, tritonClients, cooldowns := map[], map[], map[];
      log := [];
    }

    // ----- The damper -----

    /** `applyCooldown`; now is what the clock reads under the lock, if it is read at all. */
    method ApplyCooldown(key: CooldownKey, value: real, cooldown: Duration, now: Instant)
      returns (reported: real)
      requires Valid()
      modifies this`cooldowns, this`log, cooldowns.Values
      ensures Valid() && fresh(cooldowns.Values - old(cooldowns.Values))
      ensures var c := Damper.Commit(key, value, cooldown, now);
              && log == old(log) + [c]
              && reported == Damper.Reply(old(Table()), c)
              && Table() == Damper.TableStep(old(Table()), c)
      ensures Scrapes() == old(Scrapes())
    {
      hide Damper.Table, Damper.Apply, Scrapes, Injective, ClientsValid;
      Damper.TableAppend(log, Damper.Commit(key, value, cooldown, now));
      log := log + [Damper.Commit(key, value, cooldown, now)];
      reported := value;
      if cooldown > 0 {
        if key !in cooldowns {
          Damper.FirstCall(Damper.Reading(value, cooldown, now));
          AddSeries(key, value);
        } else {
          reported := DampSeries(key, value, cooldown, now);
        }
      }
    }

    /** The first damped call of a series. */
    method AddSeries(key: CooldownKey, value: real)
      requires Injective(cooldowns) && key !in cooldowns && ClientsValid()
      modifies this`cooldowns
      ensures ClientsValid() && Scrapes() == old(Scrapes())
      ensures Injective(cooldowns) && fresh(cooldowns.Values - old(cooldowns.Values))
      ensures Table() == old(Table())[key := Damper.Cell(value, ZERO_INSTANT)]
    {
      hide Injective;
      var st := new CooldownState(value);
      InjectiveExtends(cooldowns, key, st);
      cooldowns := cooldowns[key := st];
    }

    /** Any later damped call: it changes this series and no other. */
    method DampSeries(key: CooldownKey, value: real, cooldown: Damper.Window, now: Instant)
      returns (reported: real)
      requires Injective(cooldowns) && key in cooldowns && ClientsValid()
      modifies cooldowns[key]
      ensures ClientsValid() && Scrapes() == old(Scrapes())
      ensures var o := Damper.Apply(Some(old(Table())[key]), Damper.Reading(value, cooldown, now));
              reported == o.reported && Table() == old(Table())[key := o.cell]
    {
      hide Damper.Apply;
      reported := cooldowns[key].Damp(value, cooldown, now);
    }

    // ----- Reading a fresh value -----

    method GetVLLMClient(endpoint: string) returns (c: Vllm.Client)
      requires Valid()
      modifies this`vllmClients
      ensures Valid() && c.endpoint == endpoint
      ensures endpoint in vllmClients && vllmClients[endpoint] == c
      ensures endpoint in old(vllmClients) ==> vllmClients == old(vllmClients)
    {
      if endpoint in vllmClients {
        return vllmClients[endpoint];
      }
      c := new Vllm.Client(endpoint);
      vllmClients := vllmClients[endpoint := c];
    }

    /** The endpoint's one client, created with an empty history on first use. */
    method GetTritonClient(endpoint: string) returns (c: Triton.Client)
      requires Valid()
      modifies this`tritonClients
      ensures Valid() && c.endpoint == endpoint
      ensures endpoint in tritonClients && tritonClients[endpoint] == c
      ensures endpoint in old(tritonClients) ==> tritonClients == old(tritonClients)
      ensures fresh(tritonClients.Values - old(tritonClients.Values))
      ensures fresh(c) || c in old(tritonClients.Values)
      ensures Table() == old(Table()) && log == old(log)
      ensures Scrapes() == old(Scrapes())[endpoint := HistoryOf(old(Scrapes()), endpoint)]
    {
      hide Damper.Table, Injective;
      if endpoint in tritonClients {
        return tritonClients[endpoint];
      }
      c := new Triton.Client(endpoint);
      InjectiveExtends(tritonClients, endpoint, c);
      tritonClients := tritonClients[endpoint := c];
    }

    method GetVLLMMetricValue(cfg: ScalerConfig, w: World) returns (r: Result<real, ReadError>)
      requires Valid() && IsVLLMMetric(cfg.metricType)
      modifies this`vllmClients
      ensures Valid()
      ensures r == VLLMReading(env, cfg, w)
    {
      var c := GetVLLMClient(cfg.vllmEndpoint);
      var scraped := c.Scrape(env.parseFloat, w.http(c.endpoint));
      if scraped.Err? {
        return Err(ScrapeFailed(scraped.error));
      }
      var m := scraped.value;
      var value := 0.0;
      match cfg.metricType {
        case VLLMQueueDepth =>
          if !m.hasQueueDepth {
            return Err(NotExported(cfg.metricType));
          }
          value := m.queueDepth;
        case VLLMKVCacheUsage =>
          if !m.hasKVCacheUsage {
            return Err(NotExported(cfg.metricType));
          }
          value := m.kvCacheUsage * 100.0;
      }
      return Ok(value);
    }

    method GetTritonMetricValue(cfg: ScalerConfig, w: World) returns (r: Result<real, ReadError>)
      requires Valid() && IsTritonMetric(cfg.metricType)
      modifies this`tritonClients, tritonClients.Values
      ensures Valid() && fresh(tritonClients.Values - old(tritonClients.Values))
      ensures Readings.Reading(r, Scrapes()) == TritonReading(env, cfg, w, old(Scrapes()))
    {
      hide Triton.ScrapeSpec;
      var scraped := ScrapeTriton(cfg.tritonEndpoint, w);
      if scraped.Err? {
        return Err(ScrapeFailed(scraped.error));
      }
      var m := scraped.value;
      var value := 0.0;
      match cfg.metricType {
        case TritonQueueWaitMs => value := m.avgQueueWaitUs / 1000.0;
        case TritonRequestRate => value := m.requestRatePerSec;
      }
      return Ok(value);
    }

    /** Scrapes an endpoint through its own client. */
    method ScrapeTriton(endpoint: string, w: World)
      returns (r: Result<Triton.EngineMetrics, Http.ScrapeError>)
      requires Valid()
      modifies this`tritonClients, tritonClients.Values
      ensures Valid() && fresh(tritonClients.Values - old(tritonClients.Values))
      ensures var s := Triton.ScrapeSpec(
                env.parseFloat, w.http(endpoint), w.scrapedAt, HistoryOf(old(Scrapes()), endpoint));
              r == s.result && Scrapes() == old(Scrapes())[endpoint := s.history]
    {
      hide Triton.ScrapeSpec, Damper.Table, Table, Scrapes, Injective, ClientsValid;
      var c := GetTritonClient(endpoint);
      r := ScrapeKnown(endpoint, w);
    }

    /** Scrapes one client; the other endpoints' histories stay. */
    method ScrapeKnown(endpoint: string, w: World)
      returns (r: Result<Triton.EngineMetrics, Http.ScrapeError>)
      requires ClientsValid() && endpoint in tritonClients
      modifies tritonClients[endpoint]
      ensures ClientsValid() && Table() == old(Table())
      ensures var s := Triton.ScrapeSpec(
                         env.parseFloat, w.http(endpoint), w.scrapedAt, old(Scrapes())[endpoint]);
              r == s.result && Scrapes() == old(Scrapes())[endpoint := s.history]
    {
      hide Triton.ScrapeSpec;
      var c := tritonClients[endpoint];
      r := c.Scrape(env.parseFloat, w.http(c.endpoint), w.scrapedAt);
    }

    /** The device route of `getMetricValue`. */
    method GetDeviceMetricValue(cfg: ScalerConfig, w: World) returns (r: Result<real, ReadError>)
      ensures r == DeviceReading(cfg, w)
    {
      if cfg.gpuIndex >= 0 {
        var collected := w.collectDevice(cfg.gpuIndex);
        if collected.Err? {
          return Err(CollectorFailed(collected.error));
        }
        return Ok(ExtractMetric(collected.value, cfg.metricType));
      }
      var all := w.collectAll;
      if all.Err? {
        return Err(CollectorFailed(all.error));
      }
      if all.value == [] {
        return Err(NoDevices);
      }
      var values := new real[|all.value|];
      for i := 0 to |all.value|
        invariant values[..i] == ExtractAll(all.value, cfg.metricType)[..i]
      {
        values[i] := ExtractMetric(all.value[i], cfg.metricType);
      }
      assert values[..] == ExtractAll(all.value, cfg.metricType);
      var value := Aggregation.Aggregate(values, cfg.aggregation);
      return Ok(value);
    }

    method GetMetricValue(cfg: ScalerConfig, w: World) returns (r: Result<real, ReadError>)
      requires Valid()
      modifies this`vllmClients, this`tritonClients, tritonClients.Values
      ensures Valid() && fresh(tritonClients.Values - old(tritonClients.Values))
      ensures Readings.Reading(r, Scrapes()) == Read(env, cfg, w, old(Scrapes()))
    {
      if IsVLLMMetric(cfg.metricType) {
        r := GetVLLMMetricValue(cfg, w);
      } else if IsTritonMetric(cfg.metricType) {
        r := GetTritonMetricValue(cfg, w);
      } else {
        r := GetDeviceMetricValue(cfg, w);
      }
    }

    // ----- KEDA's calls -----

    /** The first step of a request other than a spec query, then the activity decision. */
    method IsActive(ref: ScaledObjectRef, metadata: Metadata, w: World) returns (reply: Reply)
      requires Valid()
      modifies this`vllmClients, this`tritonClients, tritonClients.Values
      ensures Valid() && fresh(tritonClients.Values - old(tritonClients.Values))
      ensures Started(Done(reply), Scrapes())
              == Start(env, Request(Rpc.IsActive, ref, metadata, w), old(Scrapes()))
      ensures match Parsed(env, metadata)
              case Err(e) => reply == Rejected(e)
              case Ok(cfg) =>
                match Read(env, cfg, w, old(Scrapes())).result
                case Err(e) => reply == ReadFailed(e)
                case Ok(v) => reply == Active(v > ServiceLaws.Threshold(env, metadata))
    {
      hide Parsed, Read, ServiceLaws.Threshold, Damper.Table, Damper.Reply, Table, Scrapes, Injective;
      hide ClientsValid;
      var parsed := ParseMetadata(env, metadata);
      if parsed.Err? {
        return Rejected(parsed.error);
      }
      var cfg := parsed.value;
      var value := GetMetricValue(cfg, w);
      if value.Err? {
        return ReadFailed(value.error);
      }
      ServiceLaws.AcceptedThreshold(env, metadata);
      return Active(value.value > cfg.activationThreshold);
    }

    /** One tick of an activity stream whose metadata was accepted; a failed read sends nothing. */
    method StreamTick(
      ref: ScaledObjectRef, ghost metadata: Metadata, cfg: ScalerConfig, w: World)
      returns (sent: Option<bool>)
      requires Valid() && Parsed(env, metadata) == Ok(cfg)
      modifies this`vllmClients, this`tritonClients, tritonClients.Values
      ensures Valid() && fresh(tritonClients.Values - old(tritonClients.Values))
      ensures var started := Start(env, Request(Rpc.StreamIsActive, ref, metadata, w), old(Scrapes()));
              && Scrapes() == started.scrapes
              && match started.begun.reply
                 case Active(b) => sent == Some(b)
                 case _ => sent == None
      ensures match Read(env, cfg, w, old(Scrapes())).result
              case Err(_) => sent == None
              case Ok(v) => sent == Some(v > ServiceLaws.Threshold(env, metadata))
    {
      hide Parsed, Read, ServiceLaws.Threshold, Damper.Table, Table, Scrapes, Injective, ClientsValid;
      var value := GetMetricValue(cfg, w);
      ServiceLaws.AcceptedThreshold(env, metadata);
      return if value.Err? then None else Some(value.value > cfg.activationThreshold);
    }

    method GetMetricSpec(ref: ScaledObjectRef, metadata: Metadata, w: World) returns (reply: Reply)
      requires Valid()
      ensures Started(Done(reply), Scrapes())
              == Start(env, Request(Rpc.GetMetricSpec, ref, metadata, w), Scrapes())
    {
      hide Parsed, Read, Damper.Table, Damper.Reply, Table, Scrapes, Injective, ClientsValid;
      var parsed := ParseMetadata(env, metadata);
      if parsed.Err? {
        return Rejected(parsed.error);
      }
      return Spec(parsed.value.metricName, parsed.value.targetValue);
    }

    /** Both steps of a metrics request; now is the clock at its commit. */
    method GetMetrics(ref: ScaledObjectRef, metadata: Metadata, w: World, now: Instant)
      returns (reply: Reply)
      requires Valid()
      modifies this, cooldowns.Values, tritonClients.Values
      ensures Valid()
      ensures fresh(cooldowns.Values - old(cooldowns.Values))
      ensures fresh(tritonClients.Values - old(tritonClients.Values))
      ensures var started := Start(env, Request(Rpc.GetMetrics, ref, metadata, w), old(Scrapes()));
              && Scrapes() == started.scrapes
              && match started.begun
                 case Done(r) => reply == r && log == old(log)
                 case Waiting(p) =>
                   && reply == Metric(p.metricName, Damper.Reply(old(Table()), CommitOf(p, now)))
                   && log == old(log) + [CommitOf(p, now)]
      ensures match Parsed(env, metadata)
              case Err(e) => reply == Rejected(e) && log == old(log)
              case Ok(cfg) =>
                match Read(env, cfg, w, old(Scrapes())).result
                case Err(e) => reply == ReadFailed(e) && log == old(log)
                case Ok(v) =>
                  var c := Damper.Commit(KeyOf(ref, cfg), v, OfSeconds(cfg.cooldownSeconds), now);
                  && log == old(log) + [c]
                  && var reports := Damper.Reports(Isolation.Project(log, c.key));
                     if c.cooldown <= 0 then reply == Metric(cfg.metricName, v)
                     else reports != [] && reply == Metric(cfg.metricName, reports[|reports| - 1])
    {
      hide Parsed, Read, Damper.Table, Damper.Reply, Table, Scrapes, Injective, ClientsValid;
      var parsed := ParseMetadata(env, metadata);
      if parsed.Err? {
        return Rejected(parsed.error);
      }
      var cfg := parsed.value;
      var value := GetMetricValue(cfg, w);
      if value.Err? {
        return ReadFailed(value.error);
      }
      var key := KeyOf(ref, cfg);
      ghost var c := Damper.Commit(key, value.value, OfSeconds(cfg.cooldownSeconds), now);
      if c.cooldown > 0 {
        Isolation.LastReply(log, c);
      } else {
        Damper.UndampedReply(Table(), c);
      }
      var reported := ApplyCooldown(key, value.value, OfSeconds(cfg.cooldownSeconds), now);
      return Metric(cfg.metricName, reported);
    }
  }
}
