/** The two bounds that tripping suggests but does not by itself give: a closed breaker below the threshold
    that its signals leave it, and a closed breaker below its failure rate.  Both are told exactly. */
module BreakerBounds {
  import opened CircuitBreakers

  // ---------------------------------------------------------------- the effective threshold

  predicate Bounded(c: Config, b: Breaker) {
    b.state == Closed ==> b.failures < Threshold(c, b)
  }

  /** The events that lower the threshold of a closed breaker to where its failures already stand, unchecked:
      backpressure, which checks nothing, and the error signal, which does not allow for backpressure. */
  predicate Loosens(c: Config, b: Breaker, e: Event) {
    b.state == Closed &&
    match e
    case Backpressure(active) => active && b.failures >= Threshold(c, b.(backpressure := true))
    case ErrorSet => Threshold(c, b.(remoteError := true)) <= b.failures < Max(1, c.failureThreshold / 2)
    case _ => false
  }

  lemma StepBounded(c: Config, b: Breaker, e: Event, now: real)
    requires c.failureThreshold >= 1 && Bounded(c, b)
    ensures Bounded(c, Step(c, b, e, now)) <==> !Loosens(c, b, e)
  {
    hide RateTrips;
  }

  /** In every state of a run a closed breaker is below its effective threshold, exactly when the configured
      threshold is at least one and no event of the run meets one of the two guards. */
  lemma RunBoundedExactly(c: Config, start: real, evs: seq<Timed>)
    ensures (forall i :: 0 <= i <= |evs| ==> Bounded(c, At(c, NewBreaker(start), evs, i)))
       <==> c.failureThreshold >= 1
            && forall i :: 0 <= i < |evs| ==> !Loosens(c, At(c, NewBreaker(start), evs, i), evs[i].e)
  {
    var b := NewBreaker(start);
    assert At(c, b, evs, 0) == b;
    if c.failureThreshold >= 1 {
      if forall i :: 0 <= i <= |evs| ==> Bounded(c, At(c, b, evs, i)) {
        forall i | 0 <= i < |evs| ensures !Loosens(c, At(c, b, evs, i), evs[i].e) {
          AtStep(c, b, evs, i);
          StepBounded(c, At(c, b, evs, i), evs[i].e, evs[i].now);
        }
      }
      if forall i :: 0 <= i < |evs| ==> !Loosens(c, At(c, b, evs, i), evs[i].e) {
        forall i | 0 <= i <= |evs| ensures Bounded(c, At(c, b, evs, i)) {
          UnloosenedBounded(c, b, evs, i);
        }
      }
    } else {
      assert !Bounded(c, At(c, b, evs, 0));
    }
  }

  lemma {:induction false} UnloosenedBounded(c: Config, b: Breaker, evs: seq<Timed>, i: nat)
    requires c.failureThreshold >= 1 && Bounded(c, b) && i <= |evs|
    requires forall k :: 0 <= k < i ==> !Loosens(c, At(c, b, evs, k), evs[k].e)
    ensures Bounded(c, At(c, b, evs, i))
  {
    if i > 0 {
      UnloosenedBounded(c, b, evs, i - 1);
      AtStep(c, b, evs, i - 1);
      StepBounded(c, At(c, b, evs, i - 1), evs[i - 1].e, evs[i - 1].now);
    }
  }

  /** A run that meets the first guard: raising backpressure over three failures. */
  lemma BackpressureGivesNoBound()
    ensures var c := Config(4, 1.0, 100, 30000.0, 3);
            var evs := [Timed(Failure, 0.0), Timed(Failure, 0.0), Timed(Failure, 0.0), Timed(Backpressure(true), 0.0)];
            var b := Run(c, NewBreaker(0.0), evs);
            b.state == Closed && b.failures >= Threshold(c, b)
  {
    var c := Config(4, 1.0, 100, 30000.0, 3);
    var f := Timed(Failure, 0.0);
    var p := Timed(Backpressure(true), 0.0);
    var evs := [f, f, f, p];
    assert evs[..3] == [f, f, f] && [f, f, f][..2] == [f, f] && [f, f][..1] == [f] && [f][..0] == [];
    assert Run(c, NewBreaker(0.0), [f]).failures == 1;
    assert Run(c, NewBreaker(0.0), [f, f]).failures == 2;
    assert Run(c, NewBreaker(0.0), [f, f, f]).failures == 3;
  }

  /** A run that meets the second: the error signal under backpressure, with three failures of eight. */
  lemma ErrorSignalLoosens()
    ensures var c := Config(8, 1.0, 100, 30000.0, 3);
            var f := Timed(Failure, 0.0);
            var evs := [Timed(Backpressure(true), 0.0), f, f, f, Timed(ErrorSet, 0.0)];
            var b := Run(c, NewBreaker(0.0), evs);
            b.state == Closed && b.failures == 3 == Threshold(c, b)
  {
    var c := Config(8, 1.0, 100, 30000.0, 3);
    var p, f := Timed(Backpressure(true), 0.0), Timed(Failure, 0.0);
    var evs := [p, f, f, f, Timed(ErrorSet, 0.0)];
    assert evs[..4] == [p, f, f, f] && [p, f, f, f][..3] == [p, f, f] && [p, f, f][..2] == [p, f];
    assert [p, f][..1] == [p] && [p][..0] == [];
    assert Run(c, NewBreaker(0.0), [p]).failures == 0;
    assert Run(c, NewBreaker(0.0), [p, f]).failures == 1;
    assert Run(c, NewBreaker(0.0), [p, f, f]).failures == 2;
    assert Run(c, NewBreaker(0.0), [p, f, f, f]).failures == 3;
  }

  // ---------------------------------------------------------------- the failure rate

  function Min(a: int, b: int): int {
    if a < b then a else b
  }

  /** The fewest requests at which the rate is looked at. */
  function Minimum(c: Config): (m: int)
    ensures m >= 1
  {
    Max(1, c.minimumCalls)
  }

  /** The most failures a breaker can be closed with one request short of that. */
  function MostFailures(c: Config): int {
    Min(Minimum(c) - 1, c.failureThreshold - 1)
  }

  function Times(x: real, n: int): real {
    x * n as real
  }

  /** A caller can read this off the configuration. */
  predicate RateHolds(c: Config) {
    c.rateThreshold > 0.0 && (MostFailures(c) - 1) as real < Times(c.rateThreshold, Minimum(c))
  }

  predicate BelowRate(c: Config, b: Breaker) {
    b.state == Closed && b.total > 0 ==> !RateTrips(c, b)
  }

  lemma RateTripsTimes(c: Config, b: Breaker)
    requires b.total > 0
    ensures RateTrips(c, b) <==> b.total >= Minimum(c) && b.failures as real >= Times(c.rateThreshold, b.total)
  {
    var f, t := b.failures as real, b.total as real;
    var q := f / t;
    assert q * t == f;
    assert q >= c.rateThreshold ==> q * t >= c.rateThreshold * t;
    assert q < c.rateThreshold ==> q * t < c.rateThreshold * t;
  }

  /** What keeps a breaker below its rate from one event to the next. */
  predicate RateInvariant(c: Config, b: Breaker) {
    && b.failures <= b.total
    && (b.state == Closed ==> b.failures <= Max(0, c.failureThreshold - 1))
    && (b.state == Closed && b.total >= Minimum(c) ==> b.failures as real < Times(c.rateThreshold, b.total))
  }

  lemma TimesGrows(x: real, m: int, n: int)
    requires x > 0.0 && m <= n
    ensures Times(x, m) <= Times(x, n)
    ensures m >= 1 ==> Times(x, m) > 0.0
  {
    var d := (n - m) as real;
    assert x * d >= 0.0;
    assert m >= 1 ==> x * m as real > 0.0;
  }

  lemma SuccessKeepsRate(c: Config, b: Breaker, now: real)
    requires RateHolds(c) && RateInvariant(c, b) && b.state == Closed
    ensures RateInvariant(c, Step(c, b, Success, now))
  {
    if b.total + 1 >= Minimum(c) {
      TimesGrows(c.rateThreshold, Minimum(c), b.total + 1);
    }
    TimesGrows(c.rateThreshold, b.total, b.total + 1);
    TimesGrows(c.rateThreshold, Minimum(c), Minimum(c));
    hide Times;
  }

  lemma FailureKeepsRate(c: Config, b: Breaker, now: real)
    requires RateHolds(c) && RateInvariant(c, b) && b.state == Closed
    ensures RateInvariant(c, Step(c, b, Failure, now))
  {
    var counted := b.(total := b.total + 1, failures := b.failures + 1);
    RateTripsTimes(c, counted);
    assert Threshold(c, counted) <= Max(1, c.failureThreshold);
    hide Times, RateTrips, Threshold;
  }

  lemma StepKeepsRate(c: Config, b: Breaker, e: Event, now: real)
    requires RateHolds(c) && RateInvariant(c, b)
    ensures RateInvariant(c, Step(c, b, e, now))
  {
    if b.state == Closed && e == Success {
      SuccessKeepsRate(c, b, now);
    } else if b.state == Closed && e == Failure {
      FailureKeepsRate(c, b, now);
    } else {
      TimesGrows(c.rateThreshold, b.total + 1, b.total + 1);
      hide Times, RateTrips, Threshold;
    }
  }

  lemma {:induction false} RunKeepsRate(c: Config, start: real, evs: seq<Timed>)
    requires RateHolds(c)
    ensures RateInvariant(c, Run(c, NewBreaker(start), evs))
  {
    if |evs| > 0 {
      var last := evs[|evs| - 1];
      RunKeepsRate(c, start, evs[..|evs| - 1]);
      StepKeepsRate(c, Run(c, NewBreaker(start), evs[..|evs| - 1]), last.e, last.now);
    }
  }

  function Repeat(e: Event, n: nat): (evs: seq<Timed>)
    ensures |evs| == n
  {
    seq(n, _ => Timed(e, 0.0))
  }

  lemma {:induction false} RunSuccesses(c: Config, b: Breaker, n: nat)
    requires b.state == Closed && b.failures == 0
    ensures Run(c, b, Repeat(Success, n)) == b.(total := b.total + n)
  {
    if n > 0 {
      assert Repeat(Success, n)[..n - 1] == Repeat(Success, n - 1);
      RunSuccesses(c, b, n - 1);
    }
  }

  lemma {:induction false} RunFailures(c: Config, b: Breaker, n: nat)
    requires b.state == Closed && !b.remoteError && !b.backpressure
    requires b.failures + n < c.failureThreshold && b.total + n < Minimum(c)
    ensures Run(c, b, Repeat(Failure, n)) == b.(total := b.total + n, failures := b.failures + n)
  {
    if n > 0 {
      assert Repeat(Failure, n)[..n - 1] == Repeat(Failure, n - 1);
      RunFailures(c, b, n - 1);
    }
  }

  /** With a rate that is not positive, successes alone bring a closed breaker to its rate. */
  lemma ZeroRateBreaks(c: Config, start: real)
    requires c.rateThreshold <= 0.0
    ensures !BelowRate(c, Run(c, NewBreaker(start), Repeat(Success, Minimum(c))))
  {
    var b := NewBreaker(start).(total := Minimum(c));
    RunSuccesses(c, NewBreaker(start), Minimum(c));
    RateTripsTimes(c, b);
    assert c.rateThreshold * Minimum(c) as real <= 0.0;
  }

  /** Successes up to the last moment, then as many failures as fit, then one more success. */
  function LateSuccess(c: Config): seq<Timed>
    requires 0 <= MostFailures(c) < Minimum(c)
  {
    Repeat(Success, Minimum(c) - 1 - MostFailures(c)) + Repeat(Failure, MostFailures(c)) + [Timed(Success, 0.0)]
  }

  lemma LateSuccessRun(c: Config, start: real)
    requires 2 <= MostFailures(c) < Minimum(c)
    ensures Run(c, NewBreaker(start), LateSuccess(c))
         == NewBreaker(start).(total := Minimum(c), failures := MostFailures(c) - 1)
  {
    var b, m, f := NewBreaker(start), Minimum(c), MostFailures(c);
    var calm, tense := Repeat(Success, m - 1 - f), Repeat(Failure, f);
    var b1 := b.(total := m - 1 - f);
    var b2 := b1.(total := m - 1, failures := f);
    RunSuccesses(c, b, m - 1 - f);
    RunFailures(c, b1, f);
    hide Run, Repeat, Step, MostFailures, Minimum;
    RunConcat(c, b, calm, tense);
    RunConcat(c, b, calm + tense, [Timed(Success, 0.0)]);
    RunOne(c, b2, Success, 0.0);
    OneSuccess(c, b2, 0.0);
  }

  lemma OneSuccess(c: Config, b: Breaker, now: real)
    requires b.state == Closed && b.failures > 0
    ensures Step(c, b, Success, now) == b.(total := b.total + 1, failures := b.failures - 1)
  {
  }

  lemma LateSuccessBreaks(c: Config, start: real) returns (evs: seq<Timed>)
    requires c.rateThreshold > 0.0 && !RateHolds(c)
    ensures !BelowRate(c, Run(c, NewBreaker(start), evs))
  {
    ManyFailures(c);
    evs := LateSuccess(c);
    LateSuccessRun(c, start);
    var b := NewBreaker(start).(total := Minimum(c), failures := MostFailures(c) - 1);
    RateTripsTimes(c, b);
    hide Times, RateTrips, Run, LateSuccess, MostFailures, Minimum;
  }

  lemma ManyFailures(c: Config)
    requires c.rateThreshold > 0.0 && !RateHolds(c)
    ensures 2 <= MostFailures(c) < Minimum(c)
  {
    TimesGrows(c.rateThreshold, Minimum(c), Minimum(c));
    hide Times;
  }

  /** In every state of every run a closed breaker is below its failure rate, exactly when the rate is positive
      and no success can carry the total to the minimum over too many failures. */
  lemma BelowRateExactly(c: Config, start: real)
    ensures (forall evs :: BelowRate(c, Run(c, NewBreaker(start), evs))) <==> RateHolds(c)
  {
    if RateHolds(c) {
      forall evs: seq<Timed> ensures BelowRate(c, Run(c, NewBreaker(start), evs)) {
        RunKeepsRate(c, start, evs);
        var b := Run(c, NewBreaker(start), evs);
        if b.total > 0 {
          RateTripsTimes(c, b);
        }
      }
    } else if c.rateThreshold <= 0.0 {
      ZeroRateBreaks(c, start);
    } else {
      var evs := LateSuccessBreaks(c, start);
    }
  }

  /** The default configuration is on the right side. */
  lemma DefaultRateHolds(start: real)
    ensures var c := Config(5, 0.5, 10, 30000.0, 3);
            forall evs :: BelowRate(c, Run(c, NewBreaker(start), evs))
  {
    BelowRateExactly(Config(5, 0.5, 10, 30000.0, 3), start);
    hide Run, BelowRate;
  }

  /** A run of a configuration on the wrong side: a success carries the total to the minimum unchecked. */
  lemma RateGivesNoBound()
    ensures var c := Config(9, 0.3, 3, 30000.0, 3);
            var evs := [Timed(Failure, 0.0), Timed(Failure, 0.0), Timed(Success, 0.0)];
            var b := Run(c, NewBreaker(0.0), evs);
            b.state == Closed && b.total > 0 && RateTrips(c, b)
  {
    var c := Config(9, 0.3, 3, 30000.0, 3);
    var f := Timed(Failure, 0.0);
    var evs := [f, f, Timed(Success, 0.0)];
    assert evs[..2] == [f, f] && [f, f][..1] == [f] && [f][..0] == [];
    assert Run(c, NewBreaker(0.0), [f]).failures == 1;
    assert Run(c, NewBreaker(0.0), [f, f]).failures == 2;
  }
}
