/** Adaptive load balancing: a weight for each instance from its metrics pack, a weighted draw, and
    the draw restricted to the instances a stateful availability check grants. */
module LoadBalancer {
  import opened Wire
  import opened Instances
  import opened MetricsPack

  // ---------------------------------------------------------------- effective weight

  function AtLeast(floor: real, x: real): real {
    if x < floor then floor else x
  }

  function RawCpu(cpu: real): real {
    if cpu <= 60.0 then 1.0
    else if cpu <= 80.0 then 1.0 - (cpu - 60.0) * 0.015
    else 0.7 - (cpu - 80.0) * 0.03
  }

  function RawMemory(memory: real): real {
    if memory <= 70.0 then 1.0
    else if memory <= 90.0 then 1.0 - (memory - 70.0) * 0.01
    else 0.8 - (memory - 90.0) * 0.06
  }

  function RawConns(conns: real): real {
    if conns <= 200.0 then 1.0
    else if conns <= 600.0 then 1.0 - (conns - 200.0) * 0.001
    else 0.6 - (conns - 600.0) * 0.001
  }

  function RawDelay(delay: real): real {
    if delay <= 50.0 then 1.0
    else if delay <= 200.0 then 1.0 - (delay - 50.0) * 0.002
    else if delay <= 1000.0 then 0.7 - (delay - 200.0) * 0.0005
    else 0.3 - (delay - 1000.0) * 0.0001
  }

  function CpuFactor(m: Metrics): real { AtLeast(0.05, RawCpu(m.cpu as real * 3.22)) }
  function MemoryFactor(m: Metrics): real { AtLeast(0.05, RawMemory(m.memory as real * 3.22)) }
  function ConnFactor(m: Metrics): real { AtLeast(0.05, RawConns(m.conns as real)) }
  function LatencyFactor(m: Metrics): real { AtLeast(0.05, RawDelay(m.delay as real)) }
  function ErrorPenalty(m: Metrics): real { if m.error then 0.1 else 1.0 }
  function PreheatPenalty(m: Metrics): real { if m.preheating then 0.3 else 1.0 }

  /** The declared weight, or 1 for a weight that is not positive. */
  function Declared(i: Instance): (w: real)
    ensures w > 0.0
  {
    if i.weight > 0.0 then i.weight else 1.0
  }

  function Times(x: real, f: real): real {
    x * f
  }

  function Scaled(w: real, m: Metrics): real {
    Times(Times(Times(Times(Times(Times(w, CpuFactor(m)), MemoryFactor(m)), ConnFactor(m)), LatencyFactor(m)),
                ErrorPenalty(m)), PreheatPenalty(m))
  }

  function EffectiveWeight(i: Instance): real {
    if i.metricsPack == 0 then Declared(i) else AtLeast(0.001, Scaled(Declared(i), Unpack(i.metricsPack)))
  }

  predicate IsFactor(x: real) {
    0.0 < x <= 1.0
  }

  /** Every factor the instance's load contributes lies in (0, 1]. */
  lemma FactorsBounded(m: Metrics)
    ensures IsFactor(CpuFactor(m)) && IsFactor(MemoryFactor(m)) && IsFactor(ConnFactor(m))
    ensures IsFactor(LatencyFactor(m)) && IsFactor(ErrorPenalty(m)) && IsFactor(PreheatPenalty(m))
  {
  }

  /** In no 32-bit pack does a factor need its 0.05 floor, and no delay reaches the branch above 1000. */
  lemma ClampsUnreachable(p: u32)
    ensures var m := Unpack(p);
            && RawCpu(m.cpu as real * 3.22) > 0.05 && RawMemory(m.memory as real * 3.22) > 0.05
            && RawConns(m.conns as real) > 0.05 && RawDelay(m.delay as real) > 0.05 && m.delay as real <= 1000.0
  {
    PackUnpack(p);
    var m := Unpack(p);
    assert m.cpu <= 31 && m.memory <= 31 && m.conns <= 1023 && m.delay <= 511;
    assert m.cpu as real <= 31.0 && m.memory as real <= 31.0 && m.conns as real <= 1023.0 && m.delay as real <= 511.0;
  }

  /** `b` is at least as loaded as `a` in every respect the weight looks at. */
  predicate NoLighter(a: Metrics, b: Metrics) {
    && a.cpu <= b.cpu && a.memory <= b.memory && a.conns <= b.conns && a.delay <= b.delay
    && (a.error ==> b.error) && (a.preheating ==> b.preheating)
  }

  lemma FactorsFall(a: Metrics, b: Metrics)
    requires NoLighter(a, b)
    ensures CpuFactor(b) <= CpuFactor(a) && MemoryFactor(b) <= MemoryFactor(a)
    ensures ConnFactor(b) <= ConnFactor(a) && LatencyFactor(b) <= LatencyFactor(a)
    ensures ErrorPenalty(b) <= ErrorPenalty(a) && PreheatPenalty(b) <= PreheatPenalty(a)
  {
    assert a.cpu as real <= b.cpu as real && a.memory as real <= b.memory as real;
    assert a.conns as real <= b.conns as real && a.delay as real <= b.delay as real;
  }

  lemma TimesFactor(x: real, y: real, f: real, g: real)
    requires 0.0 < x <= y && IsFactor(f) && IsFactor(g) && f <= g
    ensures 0.0 < Times(x, f) <= Times(y, g) <= y
  {
    assert x * (g - f) >= 0.0;
    assert (y - x) * g >= 0.0;
    assert y * (1.0 - g) >= 0.0;
    assert x * f > 0.0;
  }

  /** More load never raises the product, and the product never exceeds the weight it starts from. */
  lemma ScaledFalls(w: real, a: Metrics, b: Metrics)
    requires w > 0.0 && NoLighter(a, b)
    ensures 0.0 < Scaled(w, b) <= Scaled(w, a) <= w
  {
    FactorsBounded(a);
    FactorsBounded(b);
    FactorsFall(a, b);
    hide CpuFactor, MemoryFactor, ConnFactor, LatencyFactor, ErrorPenalty, PreheatPenalty, Times;
    var x1, y1 := Times(w, CpuFactor(b)), Times(w, CpuFactor(a));
    var x2, y2 := Times(x1, MemoryFactor(b)), Times(y1, MemoryFactor(a));
    var x3, y3 := Times(x2, ConnFactor(b)), Times(y2, ConnFactor(a));
    var x4, y4 := Times(x3, LatencyFactor(b)), Times(y3, LatencyFactor(a));
    var x5, y5 := Times(x4, ErrorPenalty(b)), Times(y4, ErrorPenalty(a));
    TimesFactor(w, w, CpuFactor(b), CpuFactor(a));
    TimesFactor(x1, y1, MemoryFactor(b), MemoryFactor(a));
    TimesFactor(x2, y2, ConnFactor(b), ConnFactor(a));
    TimesFactor(x3, y3, LatencyFactor(b), LatencyFactor(a));
    TimesFactor(x4, y4, ErrorPenalty(b), ErrorPenalty(a));
    TimesFactor(x5, y5, PreheatPenalty(b), PreheatPenalty(a));
  }

  /** With the zero pack counted as no load, the shortcut and the formula are one rule. */
  lemma ShortcutAgrees(i: Instance)
    requires Declared(i) >= 0.001
    ensures EffectiveWeight(i) == AtLeast(0.001, Scaled(Declared(i), Unpack(i.metricsPack)))
  {
    if i.metricsPack == 0 {
      var m := Unpack(0);
      assert CpuFactor(m) == 1.0 && MemoryFactor(m) == 1.0 && ConnFactor(m) == 1.0 && LatencyFactor(m) == 1.0;
    }
  }

  /** The effective weight lies in [0.001, declared] for every pack exactly when the declared weight is at least
      0.001. */
  lemma {:induction false} EffectiveWeightBounded(i: Instance)
    ensures (forall p: u32 :: 0.001 <= EffectiveWeight(i.(metricsPack := p)) <= Declared(i))
       <==> Declared(i) >= 0.001
  {
    if Declared(i) >= 0.001 {
      forall p: u32 ensures 0.001 <= EffectiveWeight(i.(metricsPack := p)) <= Declared(i) {
        ScaledFalls(Declared(i), Unpack(p), Unpack(p));
      }
    } else {
      assert EffectiveWeight(i.(metricsPack := 0)) == Declared(i);
    }
  }

  lemma FallsAboveFloor(i: Instance, j: Instance)
    requires Declared(i) == Declared(j) >= 0.001
    requires NoLighter(Unpack(i.metricsPack), Unpack(j.metricsPack))
    ensures EffectiveWeight(j) <= EffectiveWeight(i)
  {
    ShortcutAgrees(i);
    ShortcutAgrees(j);
    ScaledFalls(Declared(i), Unpack(i.metricsPack), Unpack(j.metricsPack));
  }

  /** More load never weighs more, the zero pack included, exactly when the declared weight is at least 0.001: below
      that the floor lifts a loaded instance over one with the zero pack. */
  lemma {:induction false} EffectiveWeightFalls(i: Instance)
    ensures (forall p: u32, q: u32 :: NoLighter(Unpack(p), Unpack(q)) ==>
               EffectiveWeight(i.(metricsPack := q)) <= EffectiveWeight(i.(metricsPack := p)))
       <==> Declared(i) >= 0.001
  {
    if Declared(i) >= 0.001 {
      forall p: u32, q: u32 | NoLighter(Unpack(p), Unpack(q))
        ensures EffectiveWeight(i.(metricsPack := q)) <= EffectiveWeight(i.(metricsPack := p))
      {
        hide EffectiveWeight, NoLighter, Unpack;
        FallsAboveFloor(i.(metricsPack := p), i.(metricsPack := q));
      }
    } else {
      LiftedByFloor(i);
    }
  }

  lemma LiftedByFloor(i: Instance)
    requires Declared(i) < 0.001
    ensures NoLighter(Unpack(0), Unpack(1))
    ensures EffectiveWeight(i.(metricsPack := 1)) > EffectiveWeight(i.(metricsPack := 0))
  {
    hide Scaled;
  }

  lemma EffectiveWeightPositive(i: Instance)
    ensures EffectiveWeight(i) > 0.0
  {
  }

  // ---------------------------------------------------------------- the weighted draw

  /** The weight of the healthy instances among the first `n`. */
  function Mass(instances: seq<Instance>, n: nat): real
    requires n <= |instances|
  {
    if n == 0 then 0.0
    else Mass(instances, n - 1) + if instances[n - 1].healthy then EffectiveWeight(instances[n - 1]) else 0.0
  }

  function Total(instances: seq<Instance>): real {
    Mass(instances, |instances|)
  }

  predicate AnyHealthy(instances: seq<Instance>) {
    exists i :: 0 <= i < |instances| && instances[i].healthy
  }

  lemma {:induction false} MassGrows(instances: seq<Instance>, m: nat, n: nat)
    requires m <= n <= |instances|
    ensures 0.0 <= Mass(instances, m) <= Mass(instances, n)
    ensures Mass(instances, m) == Mass(instances, n) <==> forall i :: m <= i < n ==> !instances[i].healthy
    decreases n, n - m
  {
    if m < n {
      MassGrows(instances, m, n - 1);
      EffectiveWeightPositive(instances[n - 1]);
    } else if n > 0 {
      MassGrows(instances, n - 1, n - 1);
      EffectiveWeightPositive(instances[n - 1]);
    }
  }

  /** `random() * total_weight`: the point a draw `u` picks out of a total weight `t`. */
  function Point(u: real, t: real): real {
    u * t
  }

  /** A draw of `x` out of the total weight belongs to instance `i`. */
  predicate Owns(instances: seq<Instance>, x: real, i: nat)
    requires i < |instances|
  {
    instances[i].healthy
    && (Mass(instances, i) < x <= Mass(instances, i + 1) || (x == 0.0 && Mass(instances, i) == 0.0))
  }

  /** `select` on a draw `u` in [0, 1).  The position it returns is that of the chosen instance. */
  method Select(instances: seq<Instance>, u: real) returns (r: Option<Instance>, ghost position: nat)
    requires 0.0 <= u < 1.0
    ensures r.None? <==> instances == []
    ensures r.Some? ==> position < |instances| && r.value == instances[position]
    ensures (|instances| == 1 || (|instances| > 0 && !AnyHealthy(instances))) ==> position == 0
    ensures |instances| >= 2 && AnyHealthy(instances) ==> Owns(instances, Point(u, Total(instances)), position)
  {
    hide EffectiveWeight, Mass, Owns, Weighs;
    if |instances| == 0 {
      return None, 0;
    }
    if |instances| == 1 {
      return Some(instances[0]), 0;
    }
    var weighted, totalWeight, places := WeighHealthy(instances);
    if |weighted| == 0 {
      return Some(instances[0]), 0;
    }
    if totalWeight <= 0.0 {
      assert false;
    }
    var randomValue := u * totalWeight;
    assert randomValue == Point(u, Total(instances)) && 0.0 <= randomValue < totalWeight;
    var k := Draw(instances, weighted, places, randomValue);
    r, position := Some(weighted[k].0), places[k];
  }

  /** The first loop of `select`: the healthy instances with their weights, and the sum of the weights. */
  method WeighHealthy(instances: seq<Instance>)
    returns (weighted: seq<(Instance, real)>, totalWeight: real, ghost places: seq<nat>)
    ensures Weighs(instances, |instances|, weighted, places) && totalWeight == Total(instances)
    ensures |weighted| == |places| && (|weighted| > 0 <==> AnyHealthy(instances))
    ensures |weighted| > 0 ==> totalWeight > 0.0
    ensures forall k :: 0 <= k < |places| ==> places[k] < |instances| && weighted[k].0 == instances[places[k]]
  {
    hide EffectiveWeight;
    weighted, places, totalWeight := [], [], 0.0;
    for n := 0 to |instances|
      invariant totalWeight == Mass(instances, n)
      invariant Weighs(instances, n, weighted, places)
    {
      if instances[n].healthy {
        var ew := EffectiveWeight(instances[n]);
        weighted := weighted + [(instances[n], ew)];
        places := places + [n];
        totalWeight := totalWeight + ew;
      }
    }
    MassGrows(instances, 0, |instances|);
    assert |places| > 0 ==> instances[places[0]].healthy;
  }

  /** The second loop of `select`; its last line, after the loop, is never reached. */
  method Draw(instances: seq<Instance>, weighted: seq<(Instance, real)>, ghost places: seq<nat>, randomValue: real)
    returns (k: nat)
    requires Weighs(instances, |instances|, weighted, places) && |weighted| > 0
    requires 0.0 <= randomValue <= Total(instances)
    ensures k < |weighted| == |places| && places[k] < |instances| && Owns(instances, randomValue, places[k])
  {
    hide EffectiveWeight, Mass;
    MassGrows(instances, 0, 0);
    assert Mass(instances, 0) == 0.0 by { MassOfNone(instances); }
    var cumulative := 0.0;
    k := 0;
    while k < |weighted|
      invariant k <= |weighted|
      invariant cumulative == Mass(instances, if k == 0 then 0 else places[k - 1] + 1)
      invariant k > 0 ==> cumulative < randomValue
    {
      Between(instances, weighted, places, k);
      cumulative := cumulative + weighted[k].1;
      if randomValue <= cumulative {
        return;
      }
      k := k + 1;
    }
    AfterLast(instances, weighted, places);
    assert false;
  }

  lemma MassOfNone(instances: seq<Instance>)
    ensures Mass(instances, 0) == 0.0
  {
  }

  /** The last healthy instance completes the total. */
  lemma AfterLast(instances: seq<Instance>, weighted: seq<(Instance, real)>, places: seq<nat>)
    requires Weighs(instances, |instances|, weighted, places) && |places| > 0
    ensures Mass(instances, places[|places| - 1] + 1) == Total(instances)
  {
    MassGrows(instances, places[|places| - 1] + 1, |instances|);
  }

  /** `weighted` lists the healthy instances among the first `n`, in order, and `places` their positions. */
  ghost predicate Weighs(instances: seq<Instance>, n: nat, weighted: seq<(Instance, real)>, places: seq<nat>)
    requires n <= |instances|
  {
    && |weighted| == |places|
    && (forall k :: 0 <= k < |places| ==>
          places[k] < n && instances[places[k]].healthy
          && weighted[k] == (instances[places[k]], EffectiveWeight(instances[places[k]])))
    && (forall k, l :: 0 <= k < l < |places| ==> places[k] < places[l])
    && (forall i :: 0 <= i < n && instances[i].healthy ==> i in places)
  }

  /** No healthy instance lies between two neighbours of the weighted list. */
  lemma Gap(instances: seq<Instance>, weighted: seq<(Instance, real)>, places: seq<nat>, k: nat)
    requires Weighs(instances, |instances|, weighted, places) && k < |places|
    ensures var from := if k == 0 then 0 else places[k - 1] + 1;
            from <= places[k] < |instances| && forall i :: from <= i < places[k] ==> !instances[i].healthy
  {
    hide EffectiveWeight;
    var from := if k == 0 then 0 else places[k - 1] + 1;
    assert forall l :: 0 <= l < |places| ==> (l < k ==> places[l] < from) && (l >= k ==> places[l] >= places[k]);
    assert forall i :: from <= i < places[k] ==> i !in places;
  }

  lemma Between(instances: seq<Instance>, weighted: seq<(Instance, real)>, places: seq<nat>, k: nat)
    requires Weighs(instances, |instances|, weighted, places) && k < |places|
    ensures Mass(instances, places[k]) == Mass(instances, if k == 0 then 0 else places[k - 1] + 1)
    ensures Mass(instances, places[k] + 1) == Mass(instances, places[k]) + weighted[k].1
  {
    hide EffectiveWeight, Mass;
    assert instances[places[k]].healthy && weighted[k].1 == EffectiveWeight(instances[places[k]]);
    Gap(instances, weighted, places, k);
    hide Weighs;
    MassGrows(instances, if k == 0 then 0 else places[k - 1] + 1, places[k]);
    MassStep(instances, places[k]);
  }

  lemma MassStep(instances: seq<Instance>, i: nat)
    requires i < |instances| && instances[i].healthy
    ensures Mass(instances, i + 1) == Mass(instances, i) + EffectiveWeight(instances[i])
  {
  }

  /** No draw belongs to two instances, so the position `Select` returns is the only one that owns the draw. */
  lemma OwnerUnique(instances: seq<Instance>, x: real, i: nat, j: nat)
    requires i < |instances| && j < |instances| && Owns(instances, x, i) && Owns(instances, x, j)
    ensures i == j
  {
    EffectiveWeightPositive(instances[i]);
    EffectiveWeightPositive(instances[j]);
    if i < j { MassGrows(instances, i + 1, j); MassGrows(instances, 0, i); }
    if j < i { MassGrows(instances, j + 1, i); MassGrows(instances, 0, j); }
  }

  /** `x` as a share of `t`. */
  function Share(x: real, t: real): real
    requires t > 0.0
  {
    x / t
  }

  /** The draws that belong to a healthy instance form an interval of [0, 1] as long as its share of the weight. */
  lemma {:induction false} OwnedInterval(instances: seq<Instance>, i: nat, u: real)
    requires i < |instances| && instances[i].healthy && u >= 0.0
    ensures Total(instances) > 0.0
    ensures var low := Share(Mass(instances, i), Total(instances));
            var share := Share(EffectiveWeight(instances[i]), Total(instances));
            Owns(instances, Point(u, Total(instances)), i) <==> low < u <= low + share || (u == 0.0 && low == 0.0)
  {
    EffectiveWeightPositive(instances[i]);
    MassGrows(instances, 0, i);
    MassGrows(instances, i + 1, |instances|);
    var a, w, t := Mass(instances, i), EffectiveWeight(instances[i]), Total(instances);
    assert Mass(instances, i + 1) == a + w;
    hide EffectiveWeight, Mass, Total, Point, Share;
    IntervalForm(a, w, u, t);
  }

  lemma IntervalForm(a: real, w: real, u: real, t: real)
    requires t > 0.0
    ensures a < Point(u, t) <= a + w || (Point(u, t) == 0.0 && a == 0.0)
       <==> Share(a, t) < u <= Share(a, t) + Share(w, t) || (u == 0.0 && Share(a, t) == 0.0)
  {
    Rescale(a, u, t);
    Rescale(a + w, u, t);
    assert (a + w) / t == a / t + w / t;
    assert u * t == 0.0 <==> u == 0.0;
    assert a / t == 0.0 <==> a == 0.0;
  }

  lemma Rescale(a: real, u: real, t: real)
    requires t > 0.0
    ensures a / t < u <==> a < u * t
    ensures u <= a / t <==> u * t <= a
  {
    var q := a / t;
    assert q * t == a;
    assert q < u ==> q * t < u * t;
    assert u <= q ==> u * t <= q * t;
  }
}
