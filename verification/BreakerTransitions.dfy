/** Exactly when a breaker changes its state, and what each event leaves it in, told from the configuration, the
    counters and the signals alone. */
module BreakerTransitions {
  import opened CircuitBreakers

  function AtLeastOne(x: int): int {
    if x > 1 then x else 1
  }

  /** How many failures are too many under each combination of the two signals. */
  function Limit(t: int, remoteError: bool, backpressure: bool): int {
    match (remoteError, backpressure)
    case (false, false) => t
    case (true, false) => AtLeastOne(t / 2)
    case (false, true) => AtLeastOne(3 * t / 4)
    case (true, true) => AtLeastOne(3 * AtLeastOne(t / 2) / 4)
  }

  /** `f` failures out of `n` requests are too many: by their rate, once there are enough requests, or by their
      number. */
  predicate TooMany(c: Config, f: int, n: int, remoteError: bool, backpressure: bool) {
    || (n >= c.minimumCalls && f as real >= c.rateThreshold * n as real)
    || f >= Limit(c.failureThreshold, remoteError, backpressure)
  }

  lemma RateOf(f: int, n: int, rate: real)
    requires n > 0
    ensures f as real / n as real >= rate <==> f as real >= rate * n as real
  {
    var q, d := f as real / n as real, n as real;
    assert q * d == f as real;
    assert q >= rate ==> q * d >= rate * d;
    assert q < rate ==> q * d < rate * d;
  }

  lemma LimitIs(c: Config, b: Breaker)
    ensures Threshold(c, b) == Limit(c.failureThreshold, b.remoteError, b.backpressure)
  {
  }

  lemma TripsExactly(c: Config, b: Breaker)
    requires b.total > 0
    ensures ShouldTrip(c, b) <==> TooMany(c, b.failures, b.total, b.remoteError, b.backpressure)
  {
    LimitIs(c, b);
    RateOf(b.failures, b.total, c.rateThreshold);
    hide Threshold, Limit;
  }

  // ---------------------------------------------------------------- one event

  /** A failure. */
  lemma AfterFailure(c: Config, b: Breaker, now: real)
    ensures var a, f, n := Step(c, b, Failure, now), b.failures + 1, b.total + 1;
            match b.state
            case Closed =>
              if TooMany(c, f, n, b.remoteError, b.backpressure)
              then a == b.(state := Open, failures := f, total := n, changedAt := now)
              else a == b.(failures := f, total := n)
            case HalfOpen => a == b.(state := Open, total := n, changedAt := now)
            case Open => a == b.(total := n)
  {
    TripsExactly(c, b.(failures := b.failures + 1, total := b.total + 1));
    hide ShouldTrip, TooMany;
  }

  /** A success: it takes one failure back, or counts towards recovery. */
  lemma AfterSuccess(c: Config, b: Breaker, now: real)
    ensures var a, n := Step(c, b, Success, now), b.total + 1;
            match b.state
            case Closed => a == b.(total := n, failures := if b.failures == 0 then 0 else b.failures - 1)
            case HalfOpen =>
              if b.successes + 1 >= c.permitted
              then a == b.(state := Closed, total := n, changedAt := now, failures := 0, successes := 0)
              else a == b.(total := n, successes := b.successes + 1)
            case Open => a == b.(total := n)
  {
    hide ShouldTrip;
  }

  /** An acquire: granted while CLOSED; granted while OPEN exactly if the wait is over and there are permits, of which
      it takes the first; granted while HALF_OPEN as long as permits are left. */
  lemma AfterAcquire(c: Config, b: Breaker, now: real)
    ensures var a, granted := Step(c, b, Acquire, now), Grants(c, b, now);
            match b.state
            case Closed => granted && a == b
            case Open =>
              if now - b.changedAt >= c.waitMs
              then (granted <==> c.permitted >= 1)
                   && a == b.(state := HalfOpen, changedAt := now, successes := 0, permits := c.permitted - 1)
              else !granted && a == b
            case HalfOpen => (granted <==> b.permits >= 1) && a == b.(permits := b.permits - 1)
  {
    hide ShouldTrip;
  }

  /** The signals: an error trips a closed breaker with half its failures, an all-clear lets an open one try again at
      once, and backpressure only leaves its flag. */
  lemma AfterSignals(c: Config, b: Breaker, now: real)
    ensures Step(c, b, ErrorSet, now)
         == if b.state == Closed && b.failures >= AtLeastOne(c.failureThreshold / 2)
            then b.(state := Open, remoteError := true, changedAt := now) else b.(remoteError := true)
    ensures Step(c, b, ErrorCleared, now)
         == if b.state == Open
            then b.(state := HalfOpen, remoteError := false, changedAt := now, successes := 0, permits := c.permitted)
            else b.(remoteError := false)
  {
    hide ShouldTrip, Threshold;
  }

  lemma AfterBackpressure(c: Config, b: Breaker, active: bool, now: real)
    ensures Step(c, b, Backpressure(active), now) == b.(backpressure := active)
  {
  }

  /** All events at once. */
  lemma AfterEvent(c: Config, b: Breaker, e: Event, now: real)
    ensures var a := Step(c, b, e, now);
            match e
            case Failure =>
              if b.state == Closed
                 && TooMany(c, b.failures + 1, b.total + 1, b.remoteError, b.backpressure) then a.state == Open
              else if b.state == Closed then a == b.(failures := b.failures + 1, total := b.total + 1)
              else a.state == Open
            case ErrorSet =>
              a.state == if b.state == Closed && b.failures >= AtLeastOne(c.failureThreshold / 2) then Open else b.state
            case _ => b.state == Closed ==> a.state == Closed
    ensures b.state == Closed ==>
      var a := Step(c, b, e, now);
      a.total == b.total + (if e == Failure || e == Success then 1 else 0)
      && a.failures == (match e
                        case Failure => b.failures + 1
                        case Success => if b.failures == 0 then 0 else b.failures - 1
                        case _ => b.failures)
    ensures b.state == Open ==>
      Step(c, b, e, now).state
        == if e == ErrorCleared || (e == Acquire && now - b.changedAt >= c.waitMs) then HalfOpen else Open
  {
    AfterFailure(c, b, now);
    AfterSuccess(c, b, now);
    AfterAcquire(c, b, now);
    AfterSignals(c, b, now);
    if e.Backpressure? {
      AfterBackpressure(c, b, e.active, now);
    }
    hide Step, TooMany, Grants;
  }

  // ---------------------------------------------------------------- over runs

  /** CLOSED turns OPEN at an event exactly if it is a failure that makes too many, or an error signal over half as
      many failures as the threshold allows. */
  lemma OpensExactly(c: Config, b: Breaker, evs: seq<Timed>, i: nat)
    requires i < |evs| && At(c, b, evs, i).state == Closed
    ensures var before := At(c, b, evs, i);
            var byFailure := evs[i].e == Failure
              && TooMany(c, before.failures + 1, before.total + 1, before.remoteError, before.backpressure);
            var bySignal := evs[i].e == ErrorSet && before.failures >= AtLeastOne(c.failureThreshold / 2);
            At(c, b, evs, i + 1).state == if byFailure || bySignal then Open else Closed
  {
    AtStep(c, b, evs, i);
    AfterEvent(c, At(c, b, evs, i), evs[i].e, evs[i].now);
    hide Step, At, TooMany;
  }

  /** The failures and the requests of a breaker that stays closed: every request counts, and a success takes one
      failure back if there is one. */
  function FailuresAfter(f: nat, evs: seq<Timed>): nat {
    if |evs| == 0 then f else
    var before := FailuresAfter(f, evs[..|evs| - 1]);
    match evs[|evs| - 1].e
    case Failure => before + 1
    case Success => if before == 0 then 0 else before - 1
    case _ => before
  }

  function Requests(evs: seq<Timed>): nat {
    if |evs| == 0 then 0
    else Requests(evs[..|evs| - 1]) + if evs[|evs| - 1].e == Failure || evs[|evs| - 1].e == Success then 1 else 0
  }

  lemma {:induction false} ClosedCounts(c: Config, b: Breaker, evs: seq<Timed>)
    requires forall i :: 0 <= i <= |evs| ==> At(c, b, evs, i).state == Closed
    ensures Run(c, b, evs).failures == FailuresAfter(b.failures, evs)
    ensures Run(c, b, evs).total == b.total + Requests(evs)
  {
    if |evs| > 0 {
      var front, last := evs[..|evs| - 1], evs[|evs| - 1];
      assert forall i :: 0 <= i <= |front| ==> front[..i] == evs[..i];
      assert forall i :: 0 <= i <= |front| ==> At(c, b, front, i) == At(c, b, evs, i);
      assert front[..|front|] == front && evs[..|evs|] == evs && evs[..|front|] == front;
      assert At(c, b, evs, |front|).state == Closed && At(c, b, evs, |evs|).state == Closed;
      var before := Run(c, b, front);
      ClosedCounts(c, b, front);
      AfterEvent(c, before, last.e, last.now);
      RunLast(c, b, evs);
      hide Step, Run, At, TooMany;
    } else {
      assert Run(c, b, evs) == b;
    }
  }

  lemma RunLast(c: Config, b: Breaker, evs: seq<Timed>)
    requires |evs| > 0
    ensures Run(c, b, evs) == Step(c, Run(c, b, evs[..|evs| - 1]), evs[|evs| - 1].e, evs[|evs| - 1].now)
  {
  }

  /** After a trip, the next acquire is granted exactly if the wait is over by then and there are permits; OPEN is
      left at an event exactly if that event ends the wait. */
  lemma RecoversExactly(c: Config, b: Breaker, evs: seq<Timed>, i: nat, j: nat)
    requires i < j < |evs| && TripsAt(c, b, evs, i)
    requires forall k :: i < k < j ==> !Releases(c, evs[k], evs[i].now)
    ensures GrantedAt(c, b, evs, j)
       <==> evs[j].e == Acquire && evs[j].now - evs[i].now >= c.waitMs && c.permitted >= 1
    ensures At(c, b, evs, j + 1).state
         == if evs[j].e == ErrorCleared || (evs[j].e == Acquire && evs[j].now - evs[i].now >= c.waitMs)
            then HalfOpen else Open
  {
    StaysOpen(c, b, evs, i, j);
    AtStep(c, b, evs, j);
    var before, now := At(c, b, evs, j), evs[j].now;
    AfterEvent(c, before, evs[j].e, now);
    AfterAcquire(c, before, now);
    hide Step, At, TooMany, Grants;
  }
}
