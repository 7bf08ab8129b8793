/** What asking about a half-open breaker costs: every question spends a permit, chosen or not, and once the
    permits are spent only the outcome of a request, which is no longer sent, would move the breaker on. */
module StrandedBreakers {
  import opened CircuitBreakers
  import opened Instances
  import B = BreakerRegistry
  import S = BreakerAwareSelection

  // ---------------------------------------------------------------- one breaker

  /** Half open, with no permit left. */
  predicate Stranded(b: Breaker) {
    b.state == HalfOpen && b.permits <= 0
  }

  predicate Outcome(e: Event) {
    e == Success || e == Failure
  }

  lemma StepStrands(c: Config, b: Breaker, e: Event, now: real)
    requires Stranded(b) && !Outcome(e)
    ensures Stranded(Step(c, b, e, now)) && !Grants(c, b, now)
  {
  }

  /** A stranded breaker stays stranded, and grants nothing, through every run without an outcome. */
  lemma {:induction false} StaysStranded(c: Config, b: Breaker, evs: seq<Timed>)
    requires Stranded(b) && forall t :: t in evs ==> !Outcome(t.e)
    ensures Stranded(Run(c, b, evs)) && forall i :: 0 <= i < |evs| ==> !GrantedAt(c, b, evs, i)
  {
    if |evs| > 0 {
      var front, last := evs[..|evs| - 1], evs[|evs| - 1];
      assert evs == front + [last] && last in evs;
      StaysStranded(c, b, front);
      hide Run, Step, Stranded, Grants;
      StepStrands(c, Run(c, b, front), last.e, last.now);
      assert Run(c, b, evs) == Step(c, Run(c, b, front), last.e, last.now) by { LastStep(c, b, evs); }
      forall i | 0 <= i < |evs| ensures !GrantedAt(c, b, evs, i) {
        assert i < |front| ==> evs[..i] == front[..i] && evs[i] == front[i] && !GrantedAt(c, b, front, i);
      }
    }
  }

  lemma LastStep(c: Config, b: Breaker, evs: seq<Timed>)
    requires |evs| > 0
    ensures Run(c, b, evs) == Step(c, Run(c, b, evs[..|evs| - 1]), evs[|evs| - 1].e, evs[|evs| - 1].now)
  {
  }

  // ---------------------------------------------------------------- one selection

  /** How many of the first `n` instances a pass asks about under `key`. */
  function Questions(instances: seq<Instance>, healthyOnly: bool, n: nat, key: string): nat
    requires n <= |instances|
  {
    if n == 0 then 0 else
    var i := instances[n - 1];
    Questions(instances, healthyOnly, n - 1, key)
      + if (healthyOnly ==> i.healthy) && InstanceKey(i) == key then 1 else 0
  }

  ghost predicate HalfOpenAt(s: S.Asking, key: string) {
    key in s.breakers && s.breakers[key].state == HalfOpen
  }

  function Spent(b: Breaker, n: nat): Breaker {
    b.(permits := b.permits - n)
  }

  lemma Question(c: Config, s: S.Asking, i: Instance, key: string, clock: B.Clock)
    requires HalfOpenAt(s, key)
    ensures var (granted, next) := S.RegistryOracle(c, clock)(s, i);
            && HalfOpenAt(next, key)
            && next.breakers[key] == Spent(s.breakers[key], if InstanceKey(i) == key then 1 else 0)
            && (InstanceKey(i) == key ==> (granted <==> s.breakers[key].permits >= 1))
  {
    var now := clock(s.questions);
    HalfOpenAcquire(c, s.breakers[key], now);
    hide InstanceKey, Step, Grants, Spent;
    assert S.RegistryOracle(c, clock)(s, i).1.breakers == B.Apply(c, s.breakers, InstanceKey(i), Acquire, now);
  }

  lemma HalfOpenAcquire(c: Config, b: Breaker, now: real)
    requires b.state == HalfOpen
    ensures Step(c, b, Acquire, now) == Spent(b, 1) && Spent(b, 1).state == HalfOpen && Spent(b, 0) == b
    ensures Grants(c, b, now) <==> b.permits >= 1
  {
  }

  lemma SpentMore(b: Breaker, n: nat, k: nat)
    ensures Spent(Spent(b, n), k) == Spent(b, n + k)
  {
  }

  /** A pass takes one permit for every question under the key, grants it while permits are left, and changes
      nothing else about the breaker. */
  lemma {:induction false} PassSpends(c: Config, s: S.Asking, instances: seq<Instance>, healthyOnly: bool, n: nat,
                                      key: string, clock: B.Clock)
    requires n <= |instances| && HalfOpenAt(s, key)
    ensures var p := S.RunPass(S.RegistryOracle(c, clock), s, instances, healthyOnly, n);
            && HalfOpenAt(p.state, key)
            && p.state.breakers[key] == Spent(s.breakers[key], Questions(instances, healthyOnly, n, key))
            && forall k :: k in p.granted ==>
                 k < n && (InstanceKey(instances[k]) == key ==>
                             Questions(instances, healthyOnly, k, key) < s.breakers[key].permits)
  {
    hide S.RegistryOracle, InstanceKey, Spent;
    if n == 0 {
      SpendNothing(s.breakers[key]);
    } else {
      PassSpends(c, s, instances, healthyOnly, n - 1, key, clock);
      var p := S.RunPass(S.RegistryOracle(c, clock), s, instances, healthyOnly, n - 1);
      var asked := Questions(instances, healthyOnly, n - 1, key);
      if healthyOnly ==> instances[n - 1].healthy {
        Question(c, p.state, instances[n - 1], key, clock);
        SpentMore(s.breakers[key], asked, if InstanceKey(instances[n - 1]) == key then 1 else 0);
        PermitsSpent(s.breakers[key], asked);
      }
    }
  }

  lemma SpendNothing(b: Breaker)
    ensures Spent(b, 0) == b
  {
  }

  lemma PermitsSpent(b: Breaker, n: nat)
    ensures Spent(b, n).permits == b.permits - n
  {
  }

  /** The questions of a whole selection: those of the first pass, and those of the second if there is one. */
  function SelectionQuestions(c: Config, s: S.Asking, instances: seq<Instance>, key: string, clock: B.Clock): nat {
    Questions(instances, true, |instances|, key)
      + if S.FirstPass(S.RegistryOracle(c, clock), s, instances).granted == []
        then Questions(instances, false, |instances|, key) else 0
  }

  /** The registry after a selection. */
  function Selected(c: Config, s: S.Asking, instances: seq<Instance>, clock: B.Clock): S.Asking {
    S.Decisive(S.RegistryOracle(c, clock), s, instances).state
  }

  /** A selection takes one permit for every question, though it sends at most one request. */
  lemma SelectionSpends(c: Config, s: S.Asking, instances: seq<Instance>, key: string, clock: B.Clock)
    requires HalfOpenAt(s, key)
    ensures var after := Selected(c, s, instances, clock);
            && HalfOpenAt(after, key)
            && after.breakers[key] == Spent(s.breakers[key], SelectionQuestions(c, s, instances, key, clock))
  {
    var oracle := S.RegistryOracle(c, clock);
    var n := |instances|;
    PassSpends(c, s, instances, true, n, key, clock);
    var first := S.FirstPass(oracle, s, instances);
    PassSpends(c, first.state, instances, false, n, key, clock);
    hide S.RunPass, S.RegistryOracle, Spent, Questions, HalfOpenAt;
    SpentMore(s.breakers[key], Questions(instances, true, n, key), Questions(instances, false, n, key));
  }

  /** A stranded instance is never among the granted ones. */
  lemma StrandedNeverGranted(c: Config, s: S.Asking, instances: seq<Instance>, k: nat, clock: B.Clock)
    requires k < |instances|
    requires InstanceKey(instances[k]) in s.breakers && Stranded(s.breakers[InstanceKey(instances[k])])
    ensures k !in S.Decisive(S.RegistryOracle(c, clock), s, instances).granted
  {
    var key := InstanceKey(instances[k]);
    PassSpends(c, s, instances, true, |instances|, key, clock);
    var first := S.FirstPass(S.RegistryOracle(c, clock), s, instances);
    PassSpends(c, first.state, instances, false, |instances|, key, clock);
    hide S.RunPass, S.RegistryOracle, Questions;
  }

  // ---------------------------------------------------------------- many selections

  /** Selections one after the other, each among its own instances. */
  function AfterRounds(c: Config, s: S.Asking, rounds: seq<seq<Instance>>, clock: B.Clock): S.Asking {
    if |rounds| == 0 then s
    else Selected(c, AfterRounds(c, s, rounds[..|rounds| - 1], clock), rounds[|rounds| - 1], clock)
  }

  function AllQuestions(c: Config, s: S.Asking, rounds: seq<seq<Instance>>, key: string, clock: B.Clock): nat {
    if |rounds| == 0 then 0 else
    var front, last := rounds[..|rounds| - 1], rounds[|rounds| - 1];
    AllQuestions(c, s, front, key, clock)
      + SelectionQuestions(c, AfterRounds(c, s, front, clock), last, key, clock)
  }

  /** As long as no outcome comes back, a half-open breaker stays half open through any selections, and is stranded
      exactly when they have asked about it as often as it had permits. */
  lemma {:induction false} SelectionsStrand(c: Config, s: S.Asking, rounds: seq<seq<Instance>>, key: string,
                                            clock: B.Clock)
    requires HalfOpenAt(s, key)
    ensures var after, asked := AfterRounds(c, s, rounds, clock), AllQuestions(c, s, rounds, key, clock);
            && HalfOpenAt(after, key) && after.breakers[key] == Spent(s.breakers[key], asked)
            && (Stranded(after.breakers[key]) <==> asked >= s.breakers[key].permits)
  {
    hide Selected, SelectionQuestions, Spent;
    if |rounds| == 0 {
      SpendNothing(s.breakers[key]);
    } else {
      var front, last := rounds[..|rounds| - 1], rounds[|rounds| - 1];
      var before := AfterRounds(c, s, front, clock);
      SelectionsStrand(c, s, front, key, clock);
      SelectionSpends(c, before, last, key, clock);
      SpentMore(s.breakers[key], AllQuestions(c, s, front, key, clock),
                SelectionQuestions(c, before, last, key, clock));
    }
    PermitsSpent(s.breakers[key], AllQuestions(c, s, rounds, key, clock));
  }

  // ---------------------------------------------------------------- in the registry

  /** No outcome is recorded for the key. */
  ghost predicate NoOutcome(acts: seq<B.TimedAction>, key: string) {
    forall t :: t in acts ==>
      (t.a.Succeed? || t.a.Fail? ==> Key(t.a.ip, t.a.port) != key)
  }

  lemma {:induction false} SignalsAreNoOutcomes(instances: seq<Instance>, key: string, clock: B.Clock)
    ensures forall t :: t in B.Signals(instances, key, clock) ==> !Outcome(t.e)
  {
    if |instances| > 0 {
      SignalsAreNoOutcomes(instances[..|instances| - 1], key, clock);
    }
  }

  lemma ProjectsNoOutcome(t: B.TimedAction, key: string)
    requires t.a.Succeed? || t.a.Fail? ==> Key(t.a.ip, t.a.port) != key
    ensures forall e :: e in B.Project(t, key).evs ==> !Outcome(e.e)
  {
    if t.a.Update? {
      SignalsAreNoOutcomes(t.a.instances, key, t.clock);
    }
  }

  /** A stranded breaker stays stranded through everything else the registry does: checks under any key, outcomes
      under other keys, and snapshots, whether they set or clear its error flag. */
  lemma {:induction false} RegistryStaysStranded(c: Config, m: B.Breakers, acts: seq<B.TimedAction>, key: string)
    requires key in m && Stranded(m[key]) && NoOutcome(acts, key)
    ensures var after := B.RunAll(c, m, acts);
            key in after && Stranded(after[key]) && forall now :: !B.Available(c, after, key, now)
  {
    if |acts| == 0 {
    } else {
      hide B.Act, B.Project, Stranded;
      var front, last := acts[..|acts| - 1], acts[|acts| - 1];
      assert acts == front + [last] && last in acts;
      RegistryStaysStranded(c, m, front, key);
      var before := B.RunAll(c, m, front);
      ProjectsNoOutcome(last, key);
      B.ActProjects(c, before, last, key);
      StaysStranded(c, before[key], B.Project(last, key).evs);
    }
    NotAvailable(c, B.RunAll(c, m, acts), key);
  }

  lemma NotAvailable(c: Config, m: B.Breakers, key: string)
    requires key in m && Stranded(m[key])
    ensures forall now :: !B.Available(c, m, key, now)
  {
  }
}
