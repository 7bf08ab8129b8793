/** The metrics collector: counters and a moving average kept up to date, and quantised into a metrics
    pack on each heartbeat.  CPU and memory readings and the clock are parameters. */
module MetricsCollector {
  import opened Wire
  import opened MetricsPack

  const ERROR_RATE_THRESHOLD := 0.5
  const EWMA_ALPHA := 0.3
  const DEFAULT_PREHEAT_DURATION_MS := 120000
  const STEP := 3.22     // one CPU or memory step, in percent

  /** `int(x)`. */
  function Truncate(x: real): int {
    if x >= 0.0 then x.Floor else -(-x).Floor
  }

  function Min(a: int, b: int): int {
    if a < b then a else b
  }

  function Quantised(percent: real): int {
    Min(31, Truncate(percent / STEP))
  }

  /** The next average; an average of exactly zero counts as no average yet. */
  function Smoothed(average: real, sample: real): real {
    if average == 0.0 then sample else EWMA_ALPHA * sample + (1.0 - EWMA_ALPHA) * average
  }

  class Collector {
    var activeConnections: nat
    var ewmaDelayMs: real
    ghost var samples: seq<real>    // every latency recorded so far
    var totalRequests: nat
    var failedRequests: nat
    var errorFlagOverride: bool
    var preheatFlagOverride: Option<bool>
    var preheatDurationMs: int
    var startTimeMs: real

    ghost predicate Valid()
      reads this
    {
      failedRequests <= totalRequests && ewmaDelayMs == Average(samples)
    }

    constructor (preheatDurationMs: Option<int>, now: real)
      ensures Valid() && activeConnections == 0 && ewmaDelayMs == 0.0 && samples == [] && totalRequests == 0
      ensures !errorFlagOverride && preheatFlagOverride == None && startTimeMs == now
      ensures this.preheatDurationMs
           == if preheatDurationMs.Some? && preheatDurationMs.value != 0 then preheatDurationMs.value
              else 120000
    {
      activeConnections, ewmaDelayMs, totalRequests, failedRequests := 0, 0.0, 0, 0;
      errorFlagOverride, preheatFlagOverride := false, None;
      this.preheatDurationMs := if preheatDurationMs.Some? && preheatDurationMs.value != 0
                                then preheatDurationMs.value else DEFAULT_PREHEAT_DURATION_MS;
      startTimeMs := now;
      samples := [];
    }

    method IncrementConnections()
      modifies this`activeConnections
      ensures activeConnections == old(activeConnections) + 1
    {
      activeConnections := activeConnections + 1;
    }

    /** Never below zero, however the calls are paired. */
    method DecrementConnections()
      modifies this`activeConnections
      ensures activeConnections == if old(activeConnections) == 0 then 0 else old(activeConnections) - 1
    {
      activeConnections := if activeConnections - 1 < 0 then 0 else activeConnections - 1;
    }

    method RecordLatency(latencyMs: real)
      requires Valid()
      modifies this`ewmaDelayMs, this`samples
      ensures Valid() && samples == old(samples) + [latencyMs]
    {
      samples := samples + [latencyMs];
      assert samples[..|samples| - 1] == old(samples);
      if ewmaDelayMs == 0.0 {
        ewmaDelayMs := latencyMs;
      } else {
        ewmaDelayMs := EWMA_ALPHA * latencyMs + (1.0 - EWMA_ALPHA) * ewmaDelayMs;
      }
    }

    method RecordRequest(success: bool)
      requires Valid()
      modifies this`totalRequests, this`failedRequests
      ensures Valid() && totalRequests == old(totalRequests) + 1
      ensures failedRequests == old(failedRequests) + if success then 0 else 1
    {
      totalRequests := totalRequests + 1;
      if !success {
        failedRequests := failedRequests + 1;
      }
    }

    method ResetErrorCounters()
      requires Valid()
      modifies this`totalRequests, this`failedRequests
      ensures Valid() && totalRequests == 0
    {
      totalRequests, failedRequests := 0, 0;
    }

    method SetErrorFlag(flag: bool)
      modifies this`errorFlagOverride
      ensures errorFlagOverride == flag && (flag ==> ErrorFlag())
    {
      errorFlagOverride := flag;
    }

    /** `None` returns to detection by uptime. */
    method SetPreheatFlag(flag: Option<bool>)
      modifies this`preheatFlagOverride
      ensures preheatFlagOverride == flag && (flag.Some? ==> forall now :: PreheatFlag(now) == flag.value)
    {
      preheatFlagOverride := flag;
    }

    /** At least half of the requests failed: no division is needed to say so. */
    predicate ErrorFlag()
      reads this
    {
      errorFlagOverride || (totalRequests > 0 && 2 * failedRequests >= totalRequests)
    }

    predicate PreheatFlag(now: real)
      reads this
    {
      match preheatFlagOverride
      case Some(flag) => flag
      case None => now - startTimeMs < preheatDurationMs as real
    }

    method ComputeErrorFlag() returns (flag: bool)
      requires Valid()
      ensures flag == ErrorFlag()
      ensures flag <==> errorFlagOverride || (totalRequests > 0 && 2 * failedRequests >= totalRequests)
    {
      if errorFlagOverride {
        return true;
      }
      var errorRate := 0.0;
      if totalRequests != 0 {
        errorRate := failedRequests as real / totalRequests as real;
        HalfFailed(failedRequests, totalRequests);
      }
      flag := errorRate >= ERROR_RATE_THRESHOLD;
    }

    method CollectMetricsPack(cpu: real, memory: real, now: real) returns (pack: nat)
      requires Valid()
      ensures pack == Pack(Metrics(Quantised(cpu), Quantised(memory), Min(1023, activeConnections),
                                   Min(511, Truncate(ewmaDelayMs)), ErrorFlag(), PreheatFlag(now), false))
      ensures Unpack(pack).error <==> errorFlagOverride || (totalRequests > 0 && 2 * failedRequests >= totalRequests)
      ensures Unpack(pack).preheating <==> if preheatFlagOverride.Some? then preheatFlagOverride.value
                                           else now - startTimeMs < preheatDurationMs as real
      ensures Unpack(pack).conns == if activeConnections < 1023 then activeConnections else 1023
    {
      var errFlag := ComputeErrorFlag();
      var preheat := PreheatFlag(now);
      var cpuQuantized := Min(31, Truncate(cpu / STEP));
      var memQuantized := Min(31, Truncate(memory / STEP));
      var connsClipped := Min(1023, activeConnections);
      var ewmaClipped := Min(511, Truncate(ewmaDelayMs));
      var metrics := Metrics(cpuQuantized, memQuantized, connsClipped, ewmaClipped, errFlag, preheat, false);
      pack := PackMetrics(metrics);
      UnpackPack(metrics);
      hide Pack, Unpack;
    }
  }

  lemma HalfFailed(failed: nat, total: nat)
    requires total > 0
    ensures failed as real / total as real >= ERROR_RATE_THRESHOLD <==> 2 * failed >= total
  {
    var rate, t := failed as real / total as real, total as real;
    assert rate * t == failed as real;
    assert rate >= 0.5 ==> rate * t >= 0.5 * t;
    assert rate < 0.5 ==> rate * t < 0.5 * t;
  }

  // ---------------------------------------------------------------- what the other side reads

  /** What the other side takes a percentage to be. */
  function Reported(field: int): real {
    field as real * 3.22
  }

  lemma QuantisedBracket(percent: real)
    ensures percent >= 0.0 ==>
      0 <= Quantised(percent) <= 31 && Reported(Quantised(percent)) <= percent
    ensures 0.0 <= percent < 32.0 * STEP ==> percent < Reported(Quantised(percent)) + STEP
  {
    var steps := percent / STEP;
    assert steps * STEP == percent;
    if percent >= 0.0 {
      var n := steps.Floor;
      assert n as real <= steps < n as real + 1.0;
      assert steps >= 0.0 && n >= 0;
      if n > 31 {
        assert 31.0 <= n as real;
      }
    }
  }

  /** The reading is reported no higher than it was and less than one step lower. */
  predicate Faithful(field: int, percent: real) {
    Reported(field) <= percent < Reported(field) + 3.22
  }

  /** CPU and memory arrive faithfully exactly when the reading lies in [0, 103.04): 0 to 100 always do, a
      negative reading or a larger one never does. */
  lemma {:induction false} PercentagesSurvive(cpu: real, memory: real, m: Metrics)
    requires m.cpu == Quantised(cpu) && m.memory == Quantised(memory)
    ensures Faithful(Unpack(Pack(m)).cpu, cpu) <==> 0.0 <= cpu < 103.04
    ensures Faithful(Unpack(Pack(m)).memory, memory) <==> 0.0 <= memory < 103.04
  {
    UnpackPack(m);
    FieldFaithful(cpu);
    FieldFaithful(memory);
  }

  lemma FieldFaithful(percent: real)
    ensures Faithful(Quantised(percent) % 32, percent) <==> 0.0 <= percent < 32.0 * STEP
  {
    QuantisedBracket(percent);
    var field := Quantised(percent) % 32;
    hide Quantised;
    assert 0 <= field <= 31 && 0.0 <= field as real <= 31.0;
  }

  /** Counts clip exactly at 1023.  The delay clips at 511 after its fraction is dropped, exactly when
      the average is above -1: a more negative one wraps. */
  lemma {:induction false} CountsClip(conns: nat, average: real, m: Metrics)
    requires m.conns == Min(1023, conns) && m.delay == Min(511, Truncate(average))
    ensures Unpack(Pack(m)).conns == Min(1023, conns)
    ensures Unpack(Pack(m)).delay == Min(511, Truncate(average)) <==> average > -1.0
    ensures Unpack(Pack(m)).error == m.error && Unpack(Pack(m)).preheating == m.preheating
  {
    UnpackPack(m);
    if average < 0.0 {
      assert (-average).Floor as real <= -average < (-average).Floor as real + 1.0;
    }
  }

  // ---------------------------------------------------------------- the moving average

  function Average(samples: seq<real>): real {
    if |samples| == 0 then 0.0 else Smoothed(Average(samples[..|samples| - 1]), samples[|samples| - 1])
  }

  /** The average stays between any two bounds on the samples, from the first sample on. */
  lemma {:induction false} AverageWithinSamples(samples: seq<real>, low: real, high: real)
    requires |samples| > 0 && forall s :: s in samples ==> low <= s <= high
    ensures low <= Average(samples) <= high
  {
    var front, last := samples[..|samples| - 1], samples[|samples| - 1];
    assert samples == front + [last];
    assert last in samples && forall s :: s in front ==> s in samples;
    if |front| > 0 {
      AverageWithinSamples(front, low, high);
    }
  }

  /** Each sample takes the average three tenths of the way to itself; the first, or one after an average of zero,
      takes it all the way. */
  lemma AverageMoves(samples: seq<real>, sample: real)
    ensures var before, after := Average(samples), Average(samples + [sample]);
            if before == 0.0 then after == sample else after - before == 0.3 * (sample - before)
  {
    assert (samples + [sample])[..|samples|] == samples;
  }
}
