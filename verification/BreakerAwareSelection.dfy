/** Selection that asks a stateful availability check first: healthy instances in a first pass, and all
    of them in a second one if the first granted none. */
module BreakerAwareSelection {
  import opened Wire
  import opened CircuitBreakers
  import opened Instances
  import opened LoadBalancer
  import BreakerRegistry

  /** `is_available(host, port)` with its state made explicit. */
  type Oracle<!S> = (S, Instance) -> (bool, S)

  /** A pass over the instances: the state it leaves, and the positions it was granted and asked about. */
  datatype Pass<S> = Pass(state: S, granted: seq<nat>, asked: seq<nat>)

  function RunPass<S>(avail: Oracle<S>, s: S, instances: seq<Instance>, healthyOnly: bool, n: nat): Pass<S>
    requires n <= |instances|
  {
    if n == 0 then Pass(s, [], []) else
    var p := RunPass(avail, s, instances, healthyOnly, n - 1);
    var i := instances[n - 1];
    if healthyOnly && !i.healthy then p else
    var (available, next) := avail(p.state, i);
    Pass(next, if available then p.granted + [n - 1] else p.granted, p.asked + [n - 1])
  }

  function FirstPass<S>(avail: Oracle<S>, s: S, instances: seq<Instance>): Pass<S> {
    RunPass(avail, s, instances, true, |instances|)
  }

  function SecondPass<S>(avail: Oracle<S>, s: S, instances: seq<Instance>): Pass<S> {
    RunPass(avail, s, instances, false, |instances|)
  }

  predicate AscendingPositions(xs: seq<nat>, bound: nat) {
    (forall i, j :: 0 <= i < j < |xs| ==> xs[i] < xs[j]) && forall i :: 0 <= i < |xs| ==> xs[i] < bound
  }

  lemma AppendPosition(xs: seq<nat>, n: nat)
    requires AscendingPositions(xs, n)
    ensures AscendingPositions(xs, n + 1) && AscendingPositions(xs + [n], n + 1)
    ensures forall k :: k in xs + [n] <==> k in xs || k == n
  {
  }

  /** `asked` lists the instances a pass over the first `n` considers, in order, and `granted` some of those. */
  ghost predicate PassLists(instances: seq<Instance>, healthyOnly: bool, n: nat, asked: seq<nat>, granted: seq<nat>)
    requires n <= |instances|
  {
    && AscendingPositions(asked, n) && AscendingPositions(granted, n)
    && (forall k :: k in asked <==> 0 <= k < n && (healthyOnly ==> instances[k].healthy))
    && (forall k :: k in granted ==> k in asked)
  }

  lemma ListSkipped(instances: seq<Instance>, n: nat, asked: seq<nat>, granted: seq<nat>)
    requires n < |instances| && !instances[n].healthy && PassLists(instances, true, n, asked, granted)
    ensures PassLists(instances, true, n + 1, asked, granted)
  {
  }

  lemma ListAsked(instances: seq<Instance>, healthyOnly: bool, n: nat, asked: seq<nat>, granted: seq<nat>)
    requires n < |instances| && (healthyOnly ==> instances[n].healthy)
    requires PassLists(instances, healthyOnly, n, asked, granted)
    ensures PassLists(instances, healthyOnly, n + 1, asked + [n], granted)
    ensures PassLists(instances, healthyOnly, n + 1, asked + [n], granted + [n])
  {
    AppendPosition(asked, n);
    AppendPosition(granted, n);
    hide AscendingPositions;
  }

  lemma ListNone(instances: seq<Instance>, healthyOnly: bool)
    ensures PassLists(instances, healthyOnly, 0, [], [])
  {
  }

  /** A pass asks once about each instance it considers, in order, and grants only what it asked about. */
  lemma {:induction false} PassAsksOnce<S>(avail: Oracle<S>, s: S, instances: seq<Instance>, healthyOnly: bool, n: nat)
    requires n <= |instances|
    ensures var p := RunPass(avail, s, instances, healthyOnly, n);
            PassLists(instances, healthyOnly, n, p.asked, p.granted)
  {
    hide PassLists;
    if n == 0 {
      ListNone(instances, healthyOnly);
    } else {
      var p, q := RunPass(avail, s, instances, healthyOnly, n - 1), RunPass(avail, s, instances, healthyOnly, n);
      PassAsksOnce(avail, s, instances, healthyOnly, n - 1);
      if healthyOnly && !instances[n - 1].healthy {
        ListSkipped(instances, n - 1, p.asked, p.granted);
        assert q == p;
      } else {
        ListAsked(instances, healthyOnly, n - 1, p.asked, p.granted);
        assert q.asked == p.asked + [n - 1];
        assert q.granted == p.granted || q.granted == p.granted + [n - 1];
      }
    }
  }

  ghost predicate InBounds(positions: seq<nat>, instances: seq<Instance>) {
    forall k :: k in positions ==> k < |instances|
  }

  // ---------------------------------------------------------------- questions and answers

  /** The positions among the first `n` that are worth a question: all, or those of the healthy instances. */
  function Considered(instances: seq<Instance>, healthyOnly: bool, n: nat): (positions: seq<nat>)
    requires n <= |instances|
    ensures InBounds(positions, instances)
  {
    if n == 0 then [] else
    Considered(instances, healthyOnly, n - 1) + if healthyOnly && !instances[n - 1].healthy then [] else [n - 1]
  }

  lemma {:induction false} ConsideredExactly(instances: seq<Instance>, healthyOnly: bool, n: nat)
    requires n <= |instances|
    ensures AscendingPositions(Considered(instances, healthyOnly, n), n)
    ensures forall k :: k in Considered(instances, healthyOnly, n) <==>
              0 <= k < n && (healthyOnly ==> instances[k].healthy)
  {
    if n > 0 {
      ConsideredExactly(instances, healthyOnly, n - 1);
      AppendPosition(Considered(instances, healthyOnly, n - 1), n - 1);
      hide AscendingPositions;
    }
  }

  /** The state after some questions, asked one after the other. */
  ghost function StateAfter<S>(avail: Oracle<S>, s: S, instances: seq<Instance>, positions: seq<nat>): S
    requires InBounds(positions, instances)
  {
    if |positions| == 0 then s else
    var front, last := positions[..|positions| - 1], positions[|positions| - 1];
    assert last in positions && forall k :: k in front ==> k in positions;
    avail(StateAfter(avail, s, instances, front), instances[last]).1
  }

  /** The answer to question number `j` of some. */
  ghost predicate Yes<S>(avail: Oracle<S>, s: S, instances: seq<Instance>, positions: seq<nat>, j: int)
    requires InBounds(positions, instances)
  {
    && 0 <= j < |positions|
    && (assert positions[j] in positions && forall k :: k in positions[..j] ==> k in positions;
        avail(StateAfter(avail, s, instances, positions[..j]), instances[positions[j]]).0)
  }

  /** The positions of the questions answered yes, in order. */
  ghost function Granted<S>(avail: Oracle<S>, s: S, instances: seq<Instance>, positions: seq<nat>): seq<nat>
    requires InBounds(positions, instances)
  {
    if |positions| == 0 then [] else
    var front, last := positions[..|positions| - 1], positions[|positions| - 1];
    assert last in positions && forall k :: k in front ==> k in positions;
    Granted(avail, s, instances, front) + if Yes(avail, s, instances, positions, |positions| - 1) then [last] else []
  }

  /** A pass asks exactly the questions worth asking, leaves the state that they lead to, and grants exactly what is
      answered yes. */
  lemma {:induction false} PassGrantsYes<S>(avail: Oracle<S>, s: S, instances: seq<Instance>, healthyOnly: bool, n: nat)
    requires n <= |instances|
    ensures var p, questions := RunPass(avail, s, instances, healthyOnly, n), Considered(instances, healthyOnly, n);
            && p.asked == questions && p.state == StateAfter(avail, s, instances, questions)
            && p.granted == Granted(avail, s, instances, questions)
  {
    hide RunPass, Considered, StateAfter, Granted, InBounds;
    if n == 0 {
      PassNone(avail, s, instances, healthyOnly);
    } else {
      var before, last := Considered(instances, healthyOnly, n - 1), instances[n - 1];
      PassGrantsYes(avail, s, instances, healthyOnly, n - 1);
      PassStep(avail, s, instances, healthyOnly, n);
      ConsideredStep(instances, healthyOnly, n);
      if !healthyOnly || last.healthy {
        OneMoreQuestion(avail, s, instances, before, n - 1);
      }
    }
  }

  lemma PassNone<S>(avail: Oracle<S>, s: S, instances: seq<Instance>, healthyOnly: bool)
    ensures RunPass(avail, s, instances, healthyOnly, 0) == Pass(s, [], [])
    ensures Considered(instances, healthyOnly, 0) == []
    ensures StateAfter(avail, s, instances, []) == s && Granted(avail, s, instances, []) == []
  {
  }

  lemma ConsideredStep(instances: seq<Instance>, healthyOnly: bool, n: nat)
    requires 0 < n <= |instances|
    ensures var before := Considered(instances, healthyOnly, n - 1);
            Considered(instances, healthyOnly, n)
              == if healthyOnly && !instances[n - 1].healthy then before else before + [n - 1]
  {
  }

  lemma PassStep<S>(avail: Oracle<S>, s: S, instances: seq<Instance>, healthyOnly: bool, n: nat)
    requires 0 < n <= |instances|
    ensures var p, i := RunPass(avail, s, instances, healthyOnly, n - 1), instances[n - 1];
            var (answer, next) := avail(p.state, i);
            RunPass(avail, s, instances, healthyOnly, n)
              == if healthyOnly && !i.healthy then p
                 else Pass(next, p.granted + (if answer then [n - 1] else []), p.asked + [n - 1])
  {
    var p := RunPass(avail, s, instances, healthyOnly, n - 1);
    assert p.granted + [] == p.granted;
  }

  lemma OneMoreQuestion<S>(avail: Oracle<S>, s: S, instances: seq<Instance>, positions: seq<nat>, k: nat)
    requires InBounds(positions, instances) && k < |instances|
    ensures InBounds(positions + [k], instances)
    ensures var (answer, next) := avail(StateAfter(avail, s, instances, positions), instances[k]);
            && StateAfter(avail, s, instances, positions + [k]) == next
            && Granted(avail, s, instances, positions + [k])
               == Granted(avail, s, instances, positions) + if answer then [k] else []
  {
    assert (positions + [k])[..|positions|] == positions;
  }

  /** A position is granted if and only if some question about it is answered yes. */
  lemma {:induction false} GrantedExactly<S>(
      avail: Oracle<S>, s: S, instances: seq<Instance>, positions: seq<nat>, k: nat)
    requires InBounds(positions, instances)
    ensures k in Granted(avail, s, instances, positions)
       <==> exists j :: 0 <= j < |positions| && positions[j] == k && Yes(avail, s, instances, positions, j)
  {
    if |positions| > 0 {
      var front, n := positions[..|positions| - 1], |positions| - 1;
      assert InBounds(front, instances) by { assert forall x :: x in front ==> x in positions; }
      GrantedExactly(avail, s, instances, front, k);
      forall j | 0 <= j < n
        ensures Yes(avail, s, instances, front, j) <==> Yes(avail, s, instances, positions, j)
      {
        assert front[..j] == positions[..j];
      }
      hide Yes;
      if k in Granted(avail, s, instances, front) {
        var j :| 0 <= j < |front| && front[j] == k && Yes(avail, s, instances, front, j);
        assert positions[j] == k && Yes(avail, s, instances, positions, j);
      }
      if j :| 0 <= j < |positions| && positions[j] == k && Yes(avail, s, instances, positions, j) {
        assert j < n ==> front[j] == k && Yes(avail, s, instances, front, j);
      }
    }
  }

  lemma YesGrants<S>(avail: Oracle<S>, s: S, instances: seq<Instance>, positions: seq<nat>)
    requires InBounds(positions, instances)
    ensures Granted(avail, s, instances, positions) == [] <==> forall j :: !Yes(avail, s, instances, positions, j)
  {
    var granted := Granted(avail, s, instances, positions);
    if granted != [] {
      GrantedExactly(avail, s, instances, positions, granted[0]);
    }
    if j :| Yes(avail, s, instances, positions, j) {
      GrantedExactly(avail, s, instances, positions, positions[j]);
    }
  }

  /** An oracle without a state of its own. */
  function Stateless<S>(ok: Instance -> bool): Oracle<S> {
    (s: S, i: Instance) => (ok(i), s)
  }

  /** With it, exactly the healthy instances that are available are granted, or all that are available if none of
      those is healthy. */
  lemma StatelessGrants<S>(ok: Instance -> bool, s: S, instances: seq<Instance>, k: nat)
    ensures var granted := Decisive(Stateless(ok), s, instances).granted;
            var someHealthy := exists i :: 0 <= i < |instances| && instances[i].healthy && ok(instances[i]);
            var chosen := k < |instances| && ok(instances[k]) && (someHealthy ==> instances[k].healthy);
            k in granted <==> chosen
  {
    var n := |instances|;
    StatelessPass(ok, s, instances, true, n);
    StatelessPass(ok, FirstPass(Stateless(ok), s, instances).state, instances, false, n);
    var first := FirstPass(Stateless(ok), s, instances).granted;
    assert first != [] ==> first[0] in first;
    hide RunPass;
  }

  lemma {:induction false} StatelessPass<S>(
      ok: Instance -> bool, s: S, instances: seq<Instance>, healthyOnly: bool, n: nat)
    requires n <= |instances|
    ensures forall k :: k in RunPass(Stateless(ok), s, instances, healthyOnly, n).granted <==>
              0 <= k < n && (healthyOnly ==> instances[k].healthy) && ok(instances[k])
  {
    if n > 0 {
      StatelessPass(ok, s, instances, healthyOnly, n - 1);
    }
  }

  /** Among the granted instances, the draw `u` belongs to number `p`. */
  ghost predicate OwnsAmong(instances: seq<Instance>, granted: seq<nat>, u: real, p: nat)
    requires InBounds(granted, instances) && p < |granted|
  {
    var candidates := At(instances, granted);
    Owns(candidates, Point(u, Total(candidates)), p)
  }

  ghost function At(instances: seq<Instance>, positions: seq<nat>): seq<Instance>
    requires InBounds(positions, instances)
  {
    seq(|positions|, j requires 0 <= j < |positions| => assert positions[j] in positions; instances[positions[j]])
  }

  /** The pass a selection settles on: the first that grants anything, or else the second. */
  function Decisive<S>(avail: Oracle<S>, s: S, instances: seq<Instance>): Pass<S> {
    var first := FirstPass(avail, s, instances);
    if |first.granted| > 0 then first else SecondPass(avail, first.state, instances)
  }

  lemma GrantedInBounds<S>(avail: Oracle<S>, s: S, instances: seq<Instance>)
    ensures InBounds(Decisive(avail, s, instances).granted, instances)
  {
    PassAsksOnce(avail, s, instances, true, |instances|);
    PassAsksOnce(avail, FirstPass(avail, s, instances).state, instances, false, |instances|);
    hide RunPass;
  }

  /** All positions asked about, in order. */
  function Queries<S>(avail: Oracle<S>, s: S, instances: seq<Instance>): seq<nat> {
    var first := FirstPass(avail, s, instances);
    first.asked + if |first.granted| > 0 then [] else SecondPass(avail, first.state, instances).asked
  }

  /** One of the two list comprehensions. */
  method Filter<S>(avail: Oracle<S>, s: S, instances: seq<Instance>, healthyOnly: bool)
    returns (available: seq<Instance>, state: S, ghost positions: seq<nat>)
    ensures RunPass(avail, s, instances, healthyOnly, |instances|).granted == positions
    ensures RunPass(avail, s, instances, healthyOnly, |instances|).state == state
    ensures AscendingPositions(positions, |instances|) && available == At(instances, positions)
  {
    available, state, positions := [], s, [];
    for n := 0 to |instances|
      invariant RunPass(avail, s, instances, healthyOnly, n).granted == positions
      invariant RunPass(avail, s, instances, healthyOnly, n).state == state
      invariant AscendingPositions(positions, n) && available == At(instances, positions)
    {
      if !healthyOnly || instances[n].healthy {
        var answer := avail(state, instances[n]);
        state := answer.1;
        if answer.0 {
          available := available + [instances[n]];
          positions := positions + [n];
        }
      }
    }
  }

  /** The decisive pass, told from the questions and their answers: that over the healthy instances if any of them is
      answered yes, and otherwise one over all instances, in the state the first has left. */
  lemma DecisiveAnswers<S>(avail: Oracle<S>, s: S, instances: seq<Instance>)
    ensures var n := |instances|;
            var first := Considered(instances, true, n);
            var second := Considered(instances, false, n);
            var between := StateAfter(avail, s, instances, first);
            var d := Decisive(avail, s, instances);
            if exists j :: Yes(avail, s, instances, first, j) then
              d.state == between && d.granted == Granted(avail, s, instances, first) != []
            else
              && d.state == StateAfter(avail, between, instances, second)
              && d.granted == Granted(avail, between, instances, second)
              && (d.granted == [] <==> forall j :: !Yes(avail, between, instances, second, j))
  {
    var n := |instances|;
    PassGrantsYes(avail, s, instances, true, n);
    var between := FirstPass(avail, s, instances).state;
    PassGrantsYes(avail, between, instances, false, n);
    YesGrants(avail, s, instances, Considered(instances, true, n));
    YesGrants(avail, between, instances, Considered(instances, false, n));
    hide RunPass, Granted, StateAfter, Yes, Considered;
  }

  /** The question that got position `k` granted. */
  lemma GrantedByYes<S>(avail: Oracle<S>, s: S, instances: seq<Instance>, positions: seq<nat>, k: nat)
    requires InBounds(positions, instances) && k in Granted(avail, s, instances, positions)
    ensures exists j :: Yes(avail, s, instances, positions, j) && positions[j] == k
  {
    GrantedExactly(avail, s, instances, positions, k);
    hide Granted, StateAfter;
  }

  /** `position` was answered yes, by the healthy instances' questions if any of those was, or else by all instances';
      it is the first if nobody was. */
  ghost predicate ChosenByAnswers<S>(avail: Oracle<S>, s: S, instances: seq<Instance>, position: nat) {
    var first := Considered(instances, true, |instances|);
    var second := Considered(instances, false, |instances|);
    var between := StateAfter(avail, s, instances, first);
    if exists j :: Yes(avail, s, instances, first, j) then
      exists j :: Yes(avail, s, instances, first, j) && first[j] == position
    else if exists j :: Yes(avail, between, instances, second, j) then
      exists j :: Yes(avail, between, instances, second, j) && second[j] == position
    else position == 0
  }

  lemma DecisiveChooses<S>(avail: Oracle<S>, s: S, instances: seq<Instance>, position: nat)
    requires var granted := Decisive(avail, s, instances).granted;
             if granted == [] then position == 0 else position in granted
    ensures ChosenByAnswers(avail, s, instances, position)
  {
    var first := Considered(instances, true, |instances|);
    var second := Considered(instances, false, |instances|);
    var between := StateAfter(avail, s, instances, first);
    DecisiveAnswers(avail, s, instances);
    hide Decisive, Granted, StateAfter, Yes, Considered, InBounds;
    if exists j :: Yes(avail, s, instances, first, j) {
      GrantedByYes(avail, s, instances, first, position);
    } else if exists j :: Yes(avail, between, instances, second, j) {
      GrantedByYes(avail, between, instances, second, position);
    }
  }

  /** `select_with_circuit_breaker`.  The position it returns is that of the chosen instance. */
  method SelectAvailable<S>(avail: Oracle<S>, s: S, instances: seq<Instance>, u: real)
    returns (r: Option<Instance>, state: S, ghost position: nat)
    requires 0.0 <= u < 1.0
    ensures r.None? <==> instances == []
    ensures r.None? ==> state == s
    ensures r.Some? ==> position < |instances| && r.value == instances[position]
    ensures r.Some? ==> state == Decisive(avail, s, instances).state
    ensures r.Some? ==> if Decisive(avail, s, instances).granted == [] then position == 0
                        else position in Decisive(avail, s, instances).granted
    ensures r.Some? ==> ChosenByAnswers(avail, s, instances, position)
    ensures InBounds(Decisive(avail, s, instances).granted, instances)
    ensures var granted := Decisive(avail, s, instances).granted;
            granted != [] && !AnyHealthy(At(instances, granted)) ==> position == granted[0]
    ensures r.Some? && |FirstPass(avail, s, instances).granted| > 0 ==> r.value.healthy
    ensures var granted := Decisive(avail, s, instances).granted;
            |granted| >= 2 && AnyHealthy(At(instances, granted)) ==>
              exists p :: 0 <= p < |granted| && granted[p] == position && OwnsAmong(instances, granted, u, p)
  {
    state, position := s, 0;
    GrantedInBounds(avail, s, instances);
    if |instances| == 0 {
      return None, state, 0;
    }
    PassAsksOnce(avail, s, instances, true, |instances|);
    hide RunPass, ChosenByAnswers;
    var available;
    ghost var positions;
    available, state, positions := Filter(avail, state, instances, true);
    if |available| == 0 {
      available, state, positions := Filter(avail, state, instances, false);
    }
    if |available| == 0 {
      DecisiveChooses(avail, s, instances, 0);
      return Some(instances[0]), state, 0;
    }
    ghost var p;
    r, p := Select(available, u);
    position := positions[p];
    DecisiveChooses(avail, s, instances, position);
  }

  /** No position is asked about more than twice, and not twice in one pass. */
  lemma QueriedAtMostTwice<S>(avail: Oracle<S>, s: S, instances: seq<Instance>, k: nat)
    ensures multiset(Queries(avail, s, instances))[k] <= 2
  {
    var first := FirstPass(avail, s, instances);
    PassAsksOnce(avail, s, instances, true, |instances|);
    PassAsksOnce(avail, first.state, instances, false, |instances|);
    AscendingOnce(first.asked, |instances|, k);
    AscendingOnce(SecondPass(avail, first.state, instances).asked, |instances|, k);
  }

  lemma {:induction false} AscendingOnce(xs: seq<nat>, bound: nat, k: nat)
    requires AscendingPositions(xs, bound)
    ensures multiset(xs)[k] <= 1
  {
    if |xs| > 0 {
      var front, last := xs[..|xs| - 1], xs[|xs| - 1];
      assert xs == front + [last];
      assert forall i :: 0 <= i < |front| ==> front[i] == xs[i];
      AscendingOnce(front, bound, k);
      assert k == last ==> k !in front;
    }
  }

  // ---------------------------------------------------------------- with the breaker registry

  /** The registry, and how many questions it has been asked. */
  datatype Asking = Asking(breakers: BreakerRegistry.Breakers, questions: nat)

  /** The registry's `is_instance_available` as an oracle; it reads the clock once at each question. */
  function RegistryOracle(c: Config, clock: BreakerRegistry.Clock): Oracle<Asking> {
    (s: Asking, i: Instance) =>
      (BreakerRegistry.Available(c, s.breakers, InstanceKey(i), clock(s.questions)),
       Asking(BreakerRegistry.Apply(c, s.breakers, InstanceKey(i), Acquire, clock(s.questions)), s.questions + 1))
  }

  /** The breaker under `key` is open, and its wait is not over at any question before number `bound`. */
  ghost predicate Tripped(c: Config, s: Asking, key: string, clock: BreakerRegistry.Clock, bound: nat) {
    && key in s.breakers && s.breakers[key].state == Open
    && forall q :: s.questions <= q < bound ==> clock(q) - s.breakers[key].changedAt < c.waitMs
  }

  lemma QuestionKeepsTripped(c: Config, s: Asking, i: Instance, key: string, clock: BreakerRegistry.Clock, bound: nat)
    requires Tripped(c, s, key, clock, bound) && s.questions < bound
    ensures var (granted, next) := RegistryOracle(c, clock)(s, i);
            && Tripped(c, next, key, clock, bound) && next.questions == s.questions + 1
            && (InstanceKey(i) == key ==> !granted)
  {
    hide InstanceKey;
    assert clock(s.questions) - s.breakers[key].changedAt < c.waitMs;
  }

  /** Through a pass a tripped breaker stays tripped, and no instance of its key is granted. */
  lemma {:induction false} PassKeepsTripped(c: Config, s: Asking, instances: seq<Instance>, healthyOnly: bool, n: nat,
                                            key: string, clock: BreakerRegistry.Clock, bound: nat)
    requires n <= |instances| && s.questions + n <= bound && Tripped(c, s, key, clock, bound)
    ensures var p := RunPass(RegistryOracle(c, clock), s, instances, healthyOnly, n);
            && Tripped(c, p.state, key, clock, bound) && p.state.questions <= s.questions + n
            && forall k :: k in p.granted ==> k < n && InstanceKey(instances[k]) != key
  {
    hide Tripped, RegistryOracle, InstanceKey;
    if n > 0 {
      PassKeepsTripped(c, s, instances, healthyOnly, n - 1, key, clock, bound);
      var p := RunPass(RegistryOracle(c, clock), s, instances, healthyOnly, n - 1);
      QuestionKeepsTripped(c, p.state, instances[n - 1], key, clock, bound);
    }
  }

  /** An instance whose breaker is open, and whose wait is over at none of the selection's questions, is never among
      the granted. */
  lemma TrippedNeverChosen(c: Config, s: Asking, instances: seq<Instance>, k: nat, clock: BreakerRegistry.Clock)
    requires k < |instances|
    requires Tripped(c, s, InstanceKey(instances[k]), clock, s.questions + 2 * |instances|)
    ensures k !in Decisive(RegistryOracle(c, clock), s, instances).granted
  {
    var key, bound := InstanceKey(instances[k]), s.questions + 2 * |instances|;
    PassKeepsTripped(c, s, instances, true, |instances|, key, clock, bound);
    var after := FirstPass(RegistryOracle(c, clock), s, instances).state;
    PassKeepsTripped(c, after, instances, false, |instances|, key, clock, bound);
    hide RunPass, Tripped, RegistryOracle;
  }
}
