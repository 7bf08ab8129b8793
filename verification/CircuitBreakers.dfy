/** The circuit breaker of one instance: CLOSED, OPEN and HALF_OPEN, with permits, a decaying failure
    count and two signals from the server.  Every method reads the clock once; `now` is that reading. */
module CircuitBreakers {
  datatype State = Closed | Open | HalfOpen

  datatype Config = Config(
    failureThreshold: int,
    rateThreshold: real,
    minimumCalls: int,
    waitMs: real,
    permitted: int)

  /** The fields of a breaker, as a value. */
  datatype Breaker = Breaker(
    state: State,
    failures: nat,
    successes: nat,
    total: nat,
    changedAt: real,
    permits: int,
    remoteError: bool,
    backpressure: bool)

  function NewBreaker(now: real): Breaker {
    Breaker(Closed, 0, 0, 0, now, 0, false, false)
  }

  function Max(a: int, b: int): int {
    if a > b then a else b
  }

  function TransitionTo(c: Config, b: Breaker, s: State, now: real): Breaker {
    match s
    case Closed => b.(state := s, changedAt := now, failures := 0, successes := 0)
    case HalfOpen => b.(state := s, changedAt := now, successes := 0, permits := c.permitted)
    case Open => b.(state := s, changedAt := now)
  }

  /** `int(t * 0.75)`: truncation toward zero. */
  function ThreeQuarters(t: int): int {
    if t >= 0 then 3 * t / 4 else -(3 * -t / 4)
  }

  function Threshold(c: Config, b: Breaker): int {
    var t := if b.remoteError then Max(1, c.failureThreshold / 2) else c.failureThreshold;
    if b.backpressure then Max(1, ThreeQuarters(t)) else t
  }

  predicate RateTrips(c: Config, b: Breaker)
    requires b.total > 0
  {
    b.total >= c.minimumCalls && b.failures as real / b.total as real >= c.rateThreshold
  }

  predicate ShouldTrip(c: Config, b: Breaker)
    requires b.total > 0
  {
    RateTrips(c, b) || b.failures >= Threshold(c, b)
  }

  datatype Event =
    | Acquire
    | Success
    | Failure
    | ErrorSet
    | ErrorCleared
    | Backpressure(active: bool)

  /** An acquire in HALF_OPEN spends a permit. */
  function Spend(b: Breaker): Breaker {
    b.(permits := b.permits - 1)
  }

  function Step(c: Config, b: Breaker, e: Event, now: real): Breaker {
    match e
    case Acquire =>
      if b.state == HalfOpen then Spend(b)
      else if b.state == Open && now - b.changedAt >= c.waitMs then Spend(TransitionTo(c, b, HalfOpen, now))
      else b
    case Success =>
      var counted := b.(total := b.total + 1);
      if b.state == HalfOpen then
        var more := counted.(successes := b.successes + 1);
        if more.successes >= c.permitted then TransitionTo(c, more, Closed, now) else more
      else if b.state == Closed && b.failures > 0 then counted.(failures := b.failures - 1)
      else counted
    case Failure =>
      var counted := b.(total := b.total + 1);
      if b.state == HalfOpen then TransitionTo(c, counted, Open, now)
      else if b.state == Closed then
        var more := counted.(failures := b.failures + 1);
        if ShouldTrip(c, more) then TransitionTo(c, more, Open, now) else more
      else counted
    case ErrorSet =>
      var flagged := b.(remoteError := true);
      if b.state == Closed && b.failures >= Max(1, c.failureThreshold / 2)
      then TransitionTo(c, flagged, Open, now) else flagged
    case ErrorCleared =>
      var cleared := b.(remoteError := false);
      if b.state == Open then TransitionTo(c, cleared, HalfOpen, now) else cleared
    case Backpressure(active) => b.(backpressure := active)
  }

  /** What `try_acquire` answers. */
  predicate Grants(c: Config, b: Breaker, now: real) {
    match b.state
    case Closed => true
    case HalfOpen => b.permits >= 1
    case Open => now - b.changedAt >= c.waitMs && c.permitted >= 1
  }

  class CircuitBreaker {
    const config: Config
    var state: State
    var failureCount: nat
    var successCount: nat
    var totalRequests: nat
    var lastStateChangeTime: real
    var halfOpenPermits: int
    var remoteErrorFlag: bool
    var backpressureActive: bool

    function Value(): Breaker
      reads this
    {
      Breaker(state, failureCount, successCount, totalRequests, lastStateChangeTime, halfOpenPermits,
              remoteErrorFlag, backpressureActive)
    }

    constructor (config: Config, now: real)
      ensures this.config == config && Value() == NewBreaker(now)
    {
      this.config := config;
      state := Closed;
      failureCount, successCount, totalRequests := 0, 0, 0;
      lastStateChangeTime := now;
      halfOpenPermits := 0;
      remoteErrorFlag, backpressureActive := false, false;
    }

    method TryAcquire(now: real) returns (granted: bool)
      modifies this
      ensures Value() == Step(config, old(Value()), Acquire, now)
      ensures granted == Grants(config, old(Value()), now)
    {
      if state == Closed {
        return true;
      }
      if state == Open {
        var elapsed := now - lastStateChangeTime;
        if elapsed >= config.waitMs {
          Transition(HalfOpen, now);
          granted := TryAcquireHalfOpen();
          return;
        }
        return false;
      }
      granted := TryAcquireHalfOpen();
    }

    method TryAcquireHalfOpen() returns (granted: bool)
      modifies this
      ensures Value() == Spend(old(Value())) && granted == (old(halfOpenPermits) >= 1)
    {
      halfOpenPermits := halfOpenPermits - 1;
      granted := halfOpenPermits >= 0;
    }

    method RecordSuccess(now: real)
      modifies this
      ensures Value() == Step(config, old(Value()), Success, now)
    {
      totalRequests := totalRequests + 1;
      if state == HalfOpen {
        successCount := successCount + 1;
        if successCount >= config.permitted {
          Transition(Closed, now);
        }
      } else if state == Closed {
        if failureCount > 0 {
          failureCount := failureCount - 1;
        }
      }
    }

    method RecordFailure(now: real)
      modifies this
      ensures Value() == Step(config, old(Value()), Failure, now)
    {
      totalRequests := totalRequests + 1;
      if state == HalfOpen {
        Transition(Open, now);
      } else if state == Closed {
        failureCount := failureCount + 1;
        var trip := ComputeShouldTrip();
        if trip {
          Transition(Open, now);
        }
      }
    }

    method OnRemoteErrorFlagSet(now: real)
      modifies this
      ensures Value() == Step(config, old(Value()), ErrorSet, now)
    {
      remoteErrorFlag := true;
      if state == Closed {
        var effectiveThreshold := Max(1, config.failureThreshold / 2);
        if failureCount >= effectiveThreshold {
          Transition(Open, now);
        }
      }
    }

    method OnRemoteErrorFlagCleared(now: real)
      modifies this
      ensures Value() == Step(config, old(Value()), ErrorCleared, now)
    {
      remoteErrorFlag := false;
      if state == Open {
        Transition(HalfOpen, now);
      }
    }

    method OnBackpressure(active: bool)
      modifies this
      ensures forall now :: Value() == Step(config, old(Value()), Backpressure(active), now)
    {
      backpressureActive := active;
    }

    method ComputeShouldTrip() returns (trip: bool)
      requires totalRequests > 0
      ensures trip == ShouldTrip(config, Value())
    {
      var threshold := config.failureThreshold;
      if remoteErrorFlag {
        threshold := Max(1, threshold / 2);
      }
      if backpressureActive {
        threshold := Max(1, ThreeQuarters(threshold));
      }
      if totalRequests >= config.minimumCalls {
        var failureRate := failureCount as real / totalRequests as real;
        if failureRate >= config.rateThreshold {
          return true;
        }
      }
      trip := failureCount >= threshold;
    }

    method Transition(newState: State, now: real)
      modifies this
      ensures Value() == TransitionTo(config, old(Value()), newState, now)
    {
      state := newState;
      lastStateChangeTime := now;
      if newState == Closed {
        failureCount, successCount := 0, 0;
      } else if newState == HalfOpen {
        successCount := 0;
        halfOpenPermits := config.permitted;
      }
    }
  }

  // ---------------------------------------------------------------- runs

  datatype Timed = Timed(e: Event, now: real)

  function Run(c: Config, b: Breaker, evs: seq<Timed>): Breaker {
    if |evs| == 0 then b
    else var last := evs[|evs| - 1]; Step(c, Run(c, b, evs[..|evs| - 1]), last.e, last.now)
  }

  /** The state before event number `i` of a run. */
  function At(c: Config, b: Breaker, evs: seq<Timed>, i: nat): Breaker
    requires i <= |evs|
  {
    Run(c, b, evs[..i])
  }

  lemma AtStep(c: Config, b: Breaker, evs: seq<Timed>, i: nat)
    requires i < |evs|
    ensures At(c, b, evs, i + 1) == Step(c, At(c, b, evs, i), evs[i].e, evs[i].now)
  {
    assert evs[..i + 1][..i] == evs[..i];
  }

  lemma {:induction false} RunConcat(c: Config, b: Breaker, xs: seq<Timed>, ys: seq<Timed>)
    ensures Run(c, b, xs + ys) == Run(c, Run(c, b, xs), ys)
    decreases |ys|
  {
    if |ys| == 0 {
      assert xs + ys == xs;
    } else {
      assert (xs + ys)[..|xs + ys| - 1] == xs + ys[..|ys| - 1];
      RunConcat(c, b, xs, ys[..|ys| - 1]);
    }
  }

  lemma RunOne(c: Config, b: Breaker, e: Event, now: real)
    ensures Run(c, b, [Timed(e, now)]) == Step(c, b, e, now)
  {
    assert [Timed(e, now)][..0] == [];
  }

  predicate GrantedAt(c: Config, b: Breaker, evs: seq<Timed>, i: nat)
    requires i < |evs|
  {
    evs[i].e == Acquire && Grants(c, At(c, b, evs, i), evs[i].now)
  }

  // ---------------------------------------------------------------- thresholds in every reachable state

  predicate BelowThresholds(c: Config, b: Breaker) {
    b.state == Closed ==>
      b.failures < c.failureThreshold && (b.remoteError ==> b.failures < Max(1, c.failureThreshold / 2))
  }

  lemma StepStaysBelow(c: Config, b: Breaker, e: Event, now: real)
    requires c.failureThreshold >= 1 && BelowThresholds(c, b)
    ensures BelowThresholds(c, Step(c, b, e, now))
  {
  }

  /** A closed breaker is below its threshold, and below half of it under a remote error, in every state
      of every run: exactly when the threshold is at least one. */
  lemma {:induction false} ClosedBelowThresholds(c: Config, start: real)
    ensures c.failureThreshold >= 1 <==> forall evs :: BelowThresholds(c, Run(c, NewBreaker(start), evs))
  {
    if c.failureThreshold >= 1 {
      forall evs: seq<Timed> ensures BelowThresholds(c, Run(c, NewBreaker(start), evs)) {
        RunStaysBelow(c, start, evs);
      }
    } else {
      assert !BelowThresholds(c, Run(c, NewBreaker(start), []));
    }
  }

  lemma {:induction false} RunStaysBelow(c: Config, start: real, evs: seq<Timed>)
    requires c.failureThreshold >= 1
    ensures BelowThresholds(c, Run(c, NewBreaker(start), evs))
  {
    if |evs| > 0 {
      var last := evs[|evs| - 1];
      RunStaysBelow(c, start, evs[..|evs| - 1]);
      StepStaysBelow(c, Run(c, NewBreaker(start), evs[..|evs| - 1]), last.e, last.now);
    }
  }

  // ---------------------------------------------------------------- after a trip

  predicate TripsAt(c: Config, b: Breaker, evs: seq<Timed>, i: nat)
    requires i < |evs|
  {
    At(c, b, evs, i).state != Open && At(c, b, evs, i + 1).state == Open
  }

  /** Event `k` ends the wait of a trip at time `t`: the server cleared its error, or the wait is over. */
  predicate Releases(c: Config, ev: Timed, t: real) {
    ev.e == ErrorCleared || (ev.e == Acquire && ev.now - t >= c.waitMs)
  }

  /** After a trip nothing is granted before an event that ends the wait, from any starting state. */
  lemma {:induction false} NoGrantBeforeRelease(c: Config, b: Breaker, evs: seq<Timed>, i: nat, j: nat)
    requires i < j < |evs| && TripsAt(c, b, evs, i) && GrantedAt(c, b, evs, j)
    ensures exists k :: i < k <= j && Releases(c, evs[k], evs[i].now)
  {
    if forall k :: i < k <= j ==> !Releases(c, evs[k], evs[i].now) {
      StaysOpen(c, b, evs, i, j);
    }
  }

  lemma {:induction false} StaysOpen(c: Config, b: Breaker, evs: seq<Timed>, i: nat, j: nat)
    requires i < j < |evs| && TripsAt(c, b, evs, i)
    requires forall k :: i < k < j ==> !Releases(c, evs[k], evs[i].now)
    ensures At(c, b, evs, j).state == Open && At(c, b, evs, j).changedAt == evs[i].now
    decreases j
  {
    if j == i + 1 {
      AtStep(c, b, evs, i);
    } else {
      StaysOpen(c, b, evs, i, j - 1);
      AtStep(c, b, evs, j - 1);
      assert !Releases(c, evs[j - 1], evs[i].now);
    }
  }

  // ---------------------------------------------------------------- half-open episodes

  /** Event `i` opens a HALF_OPEN episode, and the breaker stays in it until event `j`. */
  ghost predicate Episode(c: Config, b: Breaker, evs: seq<Timed>, i: nat, j: nat) {
    && i < j <= |evs|
    && At(c, b, evs, i).state != HalfOpen
    && forall k :: i < k <= j ==> At(c, b, evs, k).state == HalfOpen
  }

  function Attempts(evs: seq<Timed>, i: nat, j: nat): nat
    requires i <= j <= |evs|
    decreases j - i
  {
    if i == j then 0 else Attempts(evs, i, j - 1) + if evs[j - 1].e == Acquire then 1 else 0
  }

  function Grantings(c: Config, b: Breaker, evs: seq<Timed>, i: nat, j: nat): nat
    requires i <= j <= |evs|
    decreases j - i
  {
    if i == j then 0 else Grantings(c, b, evs, i, j - 1) + if GrantedAt(c, b, evs, j - 1) then 1 else 0
  }

  function Successes(evs: seq<Timed>, i: nat, j: nat): nat
    requires i <= j <= |evs|
    decreases j - i
  {
    if i == j then 0 else Successes(evs, i, j - 1) + if evs[j - 1].e == Success then 1 else 0
  }

  predicate NoFailure(evs: seq<Timed>, i: nat, j: nat)
    requires i <= j <= |evs|
  {
    forall k :: i <= k < j ==> evs[k].e != Failure
  }

  /** One event inside an episode: what it does to the permits and the successes. */
  lemma EpisodeStep(c: Config, b: Breaker, e: Event, now: real)
    requires b.state == HalfOpen && Step(c, b, e, now).state == HalfOpen
    ensures e != Failure
    ensures Step(c, b, e, now).permits == b.permits - if e == Acquire then 1 else 0
    ensures Step(c, b, e, now).successes == b.successes + if e == Success then 1 else 0
    ensures e == Success ==> b.successes + 1 < c.permitted
    ensures Grants(c, b, now) <==> b.permits >= 1
  {
    hide ShouldTrip;
  }

  /** The event that opens an episode. */
  lemma EpisodeOpens(c: Config, b: Breaker, e: Event, now: real)
    requires b.state != HalfOpen && Step(c, b, e, now).state == HalfOpen
    ensures e == Acquire || e == ErrorCleared
    ensures Step(c, b, e, now).permits == c.permitted - if e == Acquire then 1 else 0
    ensures Step(c, b, e, now).successes == 0
    ensures e == Acquire ==> (Grants(c, b, now) <==> c.permitted >= 1)
  {
    hide ShouldTrip;
  }

  /** Through an episode the permits left and the successes counted follow from the events alone, and
      exactly min(attempts, permitted) acquires are granted. */
  lemma {:induction false} EpisodeLedger(c: Config, b: Breaker, evs: seq<Timed>, i: nat, j: nat)
    requires Episode(c, b, evs, i, j)
    ensures var attempts := Attempts(evs, i, j);
            && At(c, b, evs, j).permits == c.permitted - attempts
            && Grantings(c, b, evs, i, j) == (if attempts < c.permitted then attempts else Max(0, c.permitted))
    ensures At(c, b, evs, j).successes == Successes(evs, i, j) && NoFailure(evs, i, j)
    ensures Successes(evs, i, j) < Max(1, c.permitted)
    decreases j
  {
    AtStep(c, b, evs, j - 1);
    hide Step, At, Grants;
    var before, last := At(c, b, evs, j - 1), evs[j - 1];
    if j == i + 1 {
      EpisodeOpens(c, before, last.e, last.now);
    } else {
      EpisodeLedger(c, b, evs, i, j - 1);
      EpisodeStep(c, before, last.e, last.now);
    }
  }

  /** Once the permits are spent, no acquire is granted in the rest of the episode. */
  lemma SpentEpisodeRefuses(c: Config, b: Breaker, evs: seq<Timed>, i: nat, j: nat)
    requires Episode(c, b, evs, i, j) && j < |evs| && evs[j].e == Acquire
    ensures GrantedAt(c, b, evs, j) <==> Attempts(evs, i, j) < c.permitted
    ensures At(c, b, evs, j + 1).state == HalfOpen
  {
    EpisodeLedger(c, b, evs, i, j);
    AtStep(c, b, evs, j);
  }

  /** How an episode ends: only by a recorded outcome; CLOSED after exactly `permitted` successes (one, if
      `permitted` is smaller) and no failure, OPEN by a failure. */
  lemma EpisodeEnd(c: Config, b: Breaker, evs: seq<Timed>, i: nat, j: nat)
    requires Episode(c, b, evs, i, j) && j < |evs|
    ensures At(c, b, evs, j + 1).state == Open <==> evs[j].e == Failure
    ensures At(c, b, evs, j + 1).state == Closed
       <==> evs[j].e == Success && Successes(evs, i, j + 1) == Max(1, c.permitted) && NoFailure(evs, i, j + 1)
    ensures At(c, b, evs, j + 1).state == HalfOpen ==> Episode(c, b, evs, i, j + 1)
  {
    EpisodeLedger(c, b, evs, i, j);
    AtStep(c, b, evs, j);
  }

  /** CLOSED is entered from a half-open episode and from nowhere else. */
  lemma {:induction false} ClosedOnlyThroughEpisode(c: Config, b: Breaker, evs: seq<Timed>, j: nat)
    requires b.state == Closed && j < |evs|
    requires At(c, b, evs, j).state != Closed && At(c, b, evs, j + 1).state == Closed
    ensures exists i :: Episode(c, b, evs, i, j) && evs[j].e == Success
                        && Successes(evs, i, j + 1) == Max(1, c.permitted) && NoFailure(evs, i, j + 1)
  {
    AtStep(c, b, evs, j);
    var i := EpisodeStart(c, b, evs, j);
    EpisodeEnd(c, b, evs, i, j);
  }

  lemma {:induction false} EpisodeStart(c: Config, b: Breaker, evs: seq<Timed>, j: nat) returns (i: nat)
    requires b.state != HalfOpen && j <= |evs| && At(c, b, evs, j).state == HalfOpen
    ensures Episode(c, b, evs, i, j)
  {
    assert At(c, b, evs, 0) == b;
    i := j - 1;
    while At(c, b, evs, i).state == HalfOpen
      invariant 0 <= i < j && forall k :: i < k <= j ==> At(c, b, evs, k).state == HalfOpen
      decreases i
    {
      i := i - 1;
    }
  }
}
