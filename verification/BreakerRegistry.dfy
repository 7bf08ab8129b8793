/** One breaker per instance, created by its first failure and driven by outcomes, availability checks
    and service snapshots. */
module BreakerRegistry {
  import opened Wire
  import opened CircuitBreakers
  import opened Instances
  import opened MetricsPack

  // ---------------------------------------------------------------- the registry as a value

  predicate ErrorBit(metricsPack: nat) {
    Unpack(metricsPack).error
  }

  function SignalOf(i: Instance): Event {
    if ErrorBit(i.metricsPack) then ErrorSet else ErrorCleared
  }

  type Breakers = map<string, Breaker>

  datatype Action =
    | Check(ip: string, port: nat)             // is_instance_available
    | Succeed(ip: string, port: nat)           // record_success
    | Fail(ip: string, port: nat)              // record_failure
    | Fetch(id: string)                        // get_breaker
    | Update(instances: seq<Instance>)         // on_service_snapshot_updated

  function Apply(c: Config, m: Breakers, key: string, e: Event, now: real): Breakers {
    if key in m then m[key := Step(c, m[key], e, now)] else m
  }

  function Ensured(m: Breakers, key: string, now: real): Breakers {
    if key in m then m else m[key := NewBreaker(now)]
  }

  /** The readings of the clock during one call, in order: for a snapshot, one for each instance. */
  type Clock = nat -> real

  function Updated(c: Config, m: Breakers, instances: seq<Instance>, clock: Clock): Breakers {
    if |instances| == 0 then m else
    var i := instances[|instances| - 1];
    Apply(c, Updated(c, m, instances[..|instances| - 1], clock), InstanceKey(i), SignalOf(i), clock(|instances| - 1))
  }

  function Act(c: Config, m: Breakers, a: Action, clock: Clock): Breakers {
    match a
    case Check(ip, port) => Apply(c, m, Key(ip, port), Acquire, clock(0))
    case Succeed(ip, port) => Apply(c, m, Key(ip, port), Success, clock(0))
    case Fail(ip, port) => Apply(c, Ensured(m, Key(ip, port), clock(0)), Key(ip, port), Failure, clock(1))
    case Fetch(id) => Ensured(m, id, clock(0))
    case Update(instances) => Updated(c, m, instances, clock)
  }

  /** What `is_instance_available` answers. */
  predicate Available(c: Config, m: Breakers, key: string, now: real) {
    key in m ==> Grants(c, m[key], now)
  }

  class CircuitBreakerRegistry {
    const config: Config
    var breakers: map<string, CircuitBreaker>

    ghost predicate Valid()
      reads this, breakers.Values
    {
      && (forall k :: k in breakers ==> breakers[k].config == config)
      && (forall k, l :: k in breakers && l in breakers && k != l ==> breakers[k] != breakers[l])
    }

    ghost function Value(): Breakers
      reads this, breakers.Values
    {
      map k | k in breakers :: breakers[k].Value()
    }

    constructor (config: Config)
      ensures Valid() && Value() == map[] && this.config == config && breakers == map[]
    {
      this.config := config;
      breakers := map[];
    }

    method GetBreaker(id: string, now: real) returns (b: CircuitBreaker)
      requires Valid()
      modifies this
      ensures Valid() && Value() == Ensured(old(Value()), id, now)
      ensures id in breakers && b == breakers[id]
      ensures breakers.Keys == old(breakers).Keys + {id}
      ensures forall k :: k in old(breakers) ==> breakers[k] == old(breakers)[k]
      ensures id !in old(breakers) ==> fresh(b)
    {
      hide Step, NewBreaker;
      if id !in breakers {
        AddBreaker(id, now);
      }
      b := breakers[id];
    }

    method AddBreaker(id: string, now: real)
      requires Valid() && id !in breakers
      modifies this
      ensures Valid() && Value() == old(Value())[id := NewBreaker(now)]
      ensures id in breakers && fresh(breakers[id]) && breakers == old(breakers)[id := breakers[id]]
    {
      hide Step, NewBreaker;
      var created := new CircuitBreaker(config, now);
      breakers := breakers[id := created];
    }

    method OnServiceSnapshotUpdated(instances: seq<Instance>, clock: Clock)
      requires Valid()
      modifies breakers.Values
      ensures Valid() && breakers == old(breakers)
      ensures Value() == Updated(config, old(Value()), instances, clock)
    {
      hide Step, InstanceKey, SignalOf;
      for n := 0 to |instances|
        invariant Valid() && breakers == old(breakers)
        invariant Value() == Updated(config, old(Value()), instances[..n], clock)
      {
        assert instances[..n + 1][..n] == instances[..n];
        Notice(instances[n], clock(n));
      }
      assert instances[..|instances|] == instances;
    }

    /** The body of the loop over a snapshot's instances. */
    method Notice(i: Instance, now: real)
      requires Valid()
      modifies breakers.Values
      ensures Valid() && breakers == old(breakers)
      ensures Value() == Apply(config, old(Value()), InstanceKey(i), SignalOf(i), now)
    {
      hide Step, InstanceKey;
      var id := InstanceKey(i);
      if id !in breakers {
        return;
      }
      var breaker := breakers[id];
      if ErrorBit(i.metricsPack) {
        breaker.OnRemoteErrorFlagSet(now);
      } else {
        breaker.OnRemoteErrorFlagCleared(now);
      }
    }

    method IsInstanceAvailable(ip: string, port: nat, clock: Clock) returns (available: bool)
      requires Valid()
      modifies breakers.Values
      ensures Valid() && breakers == old(breakers)
      ensures Value() == Act(config, old(Value()), Check(ip, port), clock)
      ensures available == Available(config, old(Value()), Key(ip, port), clock(0))
    {
      var id := Key(ip, port);
      if id !in breakers {
        return true;
      }
      available := breakers[id].TryAcquire(clock(0));
    }

    method RecordSuccess(ip: string, port: nat, clock: Clock)
      requires Valid()
      modifies breakers.Values
      ensures Valid() && breakers == old(breakers)
      ensures Value() == Act(config, old(Value()), Succeed(ip, port), clock)
    {
      var id := Key(ip, port);
      if id in breakers {
        breakers[id].RecordSuccess(clock(0));
      }
    }

    method RecordFailure(ip: string, port: nat, clock: Clock)
      requires Valid()
      modifies this, breakers.Values
      ensures Valid()
      ensures Value() == Act(config, old(Value()), Fail(ip, port), clock)
    {
      hide Step, Key, Apply, Ensured;
      var _ := GetBreaker(Key(ip, port), clock(0));
      Failed(Key(ip, port), clock(1));
    }

    /** A failure of a breaker that exists. */
    method Failed(id: string, now: real)
      requires Valid() && id in breakers
      modifies breakers.Values
      ensures Valid() && breakers == old(breakers)
      ensures Value() == Apply(config, old(Value()), id, Failure, now)
    {
      hide Step;
      var breaker := breakers[id];
      breaker.RecordFailure(now);
    }
  }

  // ---------------------------------------------------------------- non-interference

  datatype TimedAction = TimedAction(a: Action, clock: Clock)

  function RunAll(c: Config, m: Breakers, acts: seq<TimedAction>): Breakers {
    if |acts| == 0 then m
    else var last := acts[|acts| - 1]; Act(c, RunAll(c, m, acts[..|acts| - 1]), last.a, last.clock)
  }

  function Lookup(m: Breakers, key: string): Option<Breaker> {
    if key in m then Some(m[key]) else None
  }

  /** What an action means for one key: perhaps that a breaker must exist, and then events for it. */
  datatype Projected = Projected(creates: bool, evs: seq<Timed>)

  function Signals(instances: seq<Instance>, key: string, clock: Clock): seq<Timed> {
    if |instances| == 0 then [] else
    var i := instances[|instances| - 1];
    Signals(instances[..|instances| - 1], key, clock)
      + if InstanceKey(i) == key then [Timed(SignalOf(i), clock(|instances| - 1))] else []
  }

  function Project(t: TimedAction, key: string): Projected {
    match t.a
    case Check(ip, port) => Projected(false, if Key(ip, port) == key then [Timed(Acquire, t.clock(0))] else [])
    case Succeed(ip, port) => Projected(false, if Key(ip, port) == key then [Timed(Success, t.clock(0))] else [])
    case Fail(ip, port) =>
      Projected(Key(ip, port) == key, if Key(ip, port) == key then [Timed(Failure, t.clock(1))] else [])
    case Fetch(id) => Projected(id == key, [])
    case Update(instances) => Projected(false, Signals(instances, key, t.clock))
  }

  /** The history of one key on its own: the time its breaker was created, and the events since. */
  datatype History = Absent | Since(created: real, evs: seq<Timed>)

  function HistoryOf(acts: seq<TimedAction>, key: string): History {
    if |acts| == 0 then Absent else
    var last := acts[|acts| - 1];
    var p := Project(last, key);
    match HistoryOf(acts[..|acts| - 1], key)
    case Absent => if p.creates then Since(last.clock(0), p.evs) else Absent
    case Since(created, evs) => Since(created, evs + p.evs)
  }

  /** A single breaker run on that history. */
  function Alone(c: Config, h: History): Option<Breaker> {
    match h
    case Absent => None
    case Since(created, evs) => Some(Run(c, NewBreaker(created), evs))
  }

  /** A snapshot reaches a key through its own instances only, and creates nothing. */
  lemma {:induction false} UpdateProjects(c: Config, m: Breakers, instances: seq<Instance>, key: string, clock: Clock)
    ensures Updated(c, m, instances, clock).Keys == m.Keys
    ensures key in m ==> Updated(c, m, instances, clock)[key] == Run(c, m[key], Signals(instances, key, clock))
  {
    if |instances| > 0 {
      var front, i := instances[..|instances| - 1], instances[|instances| - 1];
      UpdateProjects(c, m, front, key, clock);
      if key in m {
        var so, now := Signals(front, key, clock), clock(|front|);
        RunConcat(c, m[key], so, [Timed(SignalOf(i), now)]);
        RunOne(c, Run(c, m[key], so), SignalOf(i), now);
        assert so + [] == so;
      }
    }
  }

  lemma ActProjects(c: Config, m: Breakers, t: TimedAction, key: string)
    ensures Lookup(Act(c, m, t.a, t.clock), key)
         == if key in m then Some(Run(c, m[key], Project(t, key).evs))
            else if Project(t, key).creates then Some(Run(c, NewBreaker(t.clock(0)), Project(t, key).evs))
            else None
  {
    hide Step, Key;
    match t.a {
      case Update(instances) => UpdateProjects(c, m, instances, key, t.clock);
      case Check(_, _) => if key in m { RunOne(c, m[key], Acquire, t.clock(0)); }
      case Succeed(_, _) => if key in m { RunOne(c, m[key], Success, t.clock(0)); }
      case Fail(_, _) => RunOne(c, if key in m then m[key] else NewBreaker(t.clock(0)), Failure, t.clock(1));
      case Fetch(_) =>
    }
  }

  /** Breakers do not interfere: after any interleaving of actions, what the registry holds under a key is
      what a breaker of its own would be in after that key's history. */
  lemma {:induction false} BreakersDoNotInterfere(c: Config, acts: seq<TimedAction>, key: string)
    ensures Lookup(RunAll(c, map[], acts), key) == Alone(c, HistoryOf(acts, key))
  {
    if |acts| > 0 {
      hide Step, Project, Act;
      var front, last := acts[..|acts| - 1], acts[|acts| - 1];
      BreakersDoNotInterfere(c, front, key);
      ActProjects(c, RunAll(c, map[], front), last, key);
      match HistoryOf(front, key) {
        case Absent =>
        case Since(created, evs) => RunConcat(c, NewBreaker(created), evs, Project(last, key).evs);
      }
    }
  }

  // ---------------------------------------------------------------- what a snapshot says

  /** The last instance of a snapshot with this key. */
  function LastListed(instances: seq<Instance>, key: string): Option<Instance> {
    if |instances| == 0 then None
    else if InstanceKey(instances[|instances| - 1]) == key then Some(instances[|instances| - 1])
    else LastListed(instances[..|instances| - 1], key)
  }

  /** After a snapshot a breaker's error flag is bit 29 of what its instance, listed last, reports; a breaker whose
      instance is not listed is as it was. */
  lemma {:induction false} SnapshotSetsFlag(c: Config, m: Breakers, instances: seq<Instance>, key: string, clock: Clock)
    requires key in m
    ensures var after, listed := Updated(c, m, instances, clock), LastListed(instances, key);
            && key in after
            && (listed.Some? ==> (after[key].remoteError <==> listed.value.metricsPack / 0x2000_0000 % 2 == 1))
            && (listed.None? ==> after[key] == m[key])
  {
    if |instances| > 0 {
      SnapshotSetsFlag(c, m, instances[..|instances| - 1], key, clock);
      hide InstanceKey;
    }
  }

  /** An instance without a failure so far, and without a breaker asked for, is always available. */
  lemma {:induction false} UnfailedAvailable(c: Config, acts: seq<TimedAction>, key: string, now: real)
    requires forall t :: t in acts ==> !t.a.Fetch? && (t.a.Fail? ==> Key(t.a.ip, t.a.port) != key)
    ensures Available(c, RunAll(c, map[], acts), key, now)
  {
    Unfailed(acts, key);
    BreakersDoNotInterfere(c, acts, key);
  }

  lemma {:induction false} Unfailed(acts: seq<TimedAction>, key: string)
    requires forall t :: t in acts ==> !t.a.Fetch? && (t.a.Fail? ==> Key(t.a.ip, t.a.port) != key)
    ensures HistoryOf(acts, key) == Absent
  {
    if |acts| > 0 {
      assert acts[|acts| - 1] in acts;
      Unfailed(acts[..|acts| - 1], key);
    }
  }
}
