/** The effective weight in closed form: what each field of the metrics pack does to it, as numbers in the raw field. */
module WeightFormula {
  import opened Instances
  import opened LoadBalancer
  import opened MetricsPack
  import opened Wire

  // ---------------------------------------------------------------- the pieces, in steps of 3.22 percent and in units

  /** Flat to 18 (57.96 percent), falling to 24 (77.28 percent), and falling twice as fast to 31 (99.82 percent). */
  function CpuPart(c: nat): real {
    if c <= 18 then 1.0 else if c <= 24 then 1.9 - 0.0483 * c as real else 3.1 - 0.0966 * c as real
  }

  /** Flat to 21 (67.62 percent), falling to 27 (86.94 percent), and then six times as fast. */
  function MemoryPart(m: nat): real {
    if m <= 21 then 1.0 else if m <= 27 then 1.7 - 0.0322 * m as real else 6.2 - 0.1932 * m as real
  }

  /** Flat to 200 connections, and then one line to the end. */
  function ConnPart(n: nat): real {
    if n <= 200 then 1.0 else 1.2 - 0.001 * n as real
  }

  /** Flat to 50, falling to 200, and more gently from there. */
  function DelayPart(d: nat): real {
    if d <= 50 then 1.0 else if d <= 200 then 1.1 - 0.002 * d as real else 0.8 - 0.0005 * d as real
  }

  /** The load in a pack: its fields at bits 0, 5, 10, 20, 29 and 30. */
  datatype Load = Load(cpu: nat, memory: nat, conns: nat, delay: nat, error: bool, preheating: bool)

  function LoadOf(p: nat): Load {
    Load(p % 32, p / 0x20 % 32, p / 0x400 % 1024, p / 0x10_0000 % 512,
         p / 0x2000_0000 % 2 == 1, p / 0x4000_0000 % 2 == 1)
  }

  function Product(x: real, y: real): real {
    x * y
  }

  /** What is left of the declared weight under a load: a product of one part for each field. */
  function Part(l: Load): real {
    Product(Product(Product(Product(Product(CpuPart(l.cpu), MemoryPart(l.memory)), ConnPart(l.conns)),
                            DelayPart(l.delay)),
                    if l.error then 0.1 else 1.0),
            if l.preheating then 0.3 else 1.0)
  }

  function NotBelow(floor: real, x: real): real {
    if x > floor then x else floor
  }

  // ---------------------------------------------------------------- the formula

  lemma CpuIs(m: Metrics)
    requires 0 <= m.cpu < 32
    ensures CpuFactor(m) == CpuPart(m.cpu)
  {
    var c := m.cpu as real;
    assert m.cpu <= 18 ==> c <= 18.0;
    assert m.cpu >= 19 ==> c >= 19.0;
    assert m.cpu <= 24 ==> c <= 24.0;
    assert m.cpu >= 25 ==> c >= 25.0;
    assert c <= 31.0;
  }

  lemma MemoryIs(m: Metrics)
    requires 0 <= m.memory < 32
    ensures MemoryFactor(m) == MemoryPart(m.memory)
  {
    var c := m.memory as real;
    assert m.memory <= 21 ==> c <= 21.0;
    assert m.memory >= 22 ==> c >= 22.0;
    assert m.memory <= 27 ==> c <= 27.0;
    assert m.memory >= 28 ==> c >= 28.0;
    assert c <= 31.0;
  }

  lemma ConnIs(m: Metrics)
    requires 0 <= m.conns < 1024
    ensures ConnFactor(m) == ConnPart(m.conns)
  {
    assert m.conns as real <= 1023.0;
  }

  lemma DelayIs(m: Metrics)
    requires 0 <= m.delay < 512
    ensures LatencyFactor(m) == DelayPart(m.delay)
  {
    assert m.delay as real <= 511.0;
  }

  lemma Associates(x: real, y: real, z: real)
    ensures Product(Product(x, y), z) == Product(x, Product(y, z))
  {
  }

  lemma Regrouped(w: real, a: real, b: real, c: real, d: real, e: real, f: real)
    ensures Product(Product(Product(Product(Product(Product(w, a), b), c), d), e), f)
         == Product(w, Product(Product(Product(Product(Product(a, b), c), d), e), f))
  {
    hide Product;
    Associates(w, a, b);
    Associates(w, Product(a, b), c);
    Associates(w, Product(Product(a, b), c), d);
    Associates(w, Product(Product(Product(a, b), c), d), e);
    Associates(w, Product(Product(Product(Product(a, b), c), d), e), f);
  }

  lemma TimesIs(x: real, y: real)
    ensures Times(x, y) == Product(x, y)
  {
  }

  /** The product that the source works out. */
  lemma ScaledIsProduct(w: real, m: Metrics)
    ensures Scaled(w, m)
         == Product(Product(Product(Product(Product(Product(w, CpuFactor(m)), MemoryFactor(m)), ConnFactor(m)),
                                    LatencyFactor(m)),
                            if m.error then 0.1 else 1.0),
                    if m.preheating then 0.3 else 1.0)
  {
    var a, b, c, d := CpuFactor(m), MemoryFactor(m), ConnFactor(m), LatencyFactor(m);
    var e, f := ErrorPenalty(m), PreheatPenalty(m);
    assert e == (if m.error then 0.1 else 1.0) && f == if m.preheating then 0.3 else 1.0;
    hide Product, Times, CpuFactor, MemoryFactor, ConnFactor, LatencyFactor, ErrorPenalty, PreheatPenalty;
    TimesIs(w, a);
    TimesIs(Product(w, a), b);
    TimesIs(Product(Product(w, a), b), c);
    TimesIs(Product(Product(Product(w, a), b), c), d);
    TimesIs(Product(Product(Product(Product(w, a), b), c), d), e);
    TimesIs(Product(Product(Product(Product(Product(w, a), b), c), d), e), f);
  }

  lemma LoadUnpacked(p: u32)
    ensures var m, l := Unpack(p), LoadOf(p);
            && m.cpu == l.cpu < 32 && m.memory == l.memory < 32 && m.conns == l.conns < 1024 && m.delay == l.delay < 512
            && m.error == l.error && m.preheating == l.preheating
  {
  }

  lemma ScaledIs(w: real, m: Metrics, l: Load)
    requires m.cpu == l.cpu < 32 && m.memory == l.memory < 32 && m.conns == l.conns < 1024 && m.delay == l.delay < 512
    requires m.error == l.error && m.preheating == l.preheating
    ensures Scaled(w, m) == Product(w, Part(l))
  {
    CpuIs(m);
    MemoryIs(m);
    ConnIs(m);
    DelayIs(m);
    hide CpuFactor, MemoryFactor, ConnFactor, LatencyFactor, CpuPart, MemoryPart, ConnPart, DelayPart, Product, Scaled;
    ScaledIsProduct(w, m);
    Regrouped(w, CpuFactor(m), MemoryFactor(m), ConnFactor(m), LatencyFactor(m),
              if m.error then 0.1 else 1.0, if m.preheating then 0.3 else 1.0);
  }

  /** The effective weight of any instance: without a report the declared weight, or 1 for one that is not positive;
      with one, what the load leaves of it, but never less than 0.001. */
  lemma WeightIs(i: Instance)
    ensures var declared := if i.weight > 0.0 then i.weight else 1.0;
            EffectiveWeight(i)
              == if i.metricsPack == 0 then declared
                 else NotBelow(0.001, Product(declared, Part(LoadOf(i.metricsPack))))
  {
    LoadUnpacked(i.metricsPack);
    hide Scaled, Part, Unpack, LoadOf, Product;
    ScaledIs(Declared(i), Unpack(i.metricsPack), LoadOf(i.metricsPack));
  }

  // ---------------------------------------------------------------- single fields, and their product

  const IDLE := Load(0, 0, 0, 0, false, false)

  /** A load in one field alone. */
  lemma SingleParts(l: Load)
    ensures Part(IDLE) == 1.0
    ensures Part(IDLE.(cpu := l.cpu)) == CpuPart(l.cpu) && Part(IDLE.(memory := l.memory)) == MemoryPart(l.memory)
    ensures Part(IDLE.(conns := l.conns)) == ConnPart(l.conns) && Part(IDLE.(delay := l.delay)) == DelayPart(l.delay)
    ensures Part(IDLE.(error := true)) == 0.1 && Part(IDLE.(preheating := true)) == 0.3
  {
    OneTimes(CpuPart(l.cpu));
    OneTimes(MemoryPart(l.memory));
    OneTimes(ConnPart(l.conns));
    OneTimes(DelayPart(l.delay));
    OneTimes(1.0);
    OneTimes(0.1);
    OneTimes(0.3);
    IdleParts();
    hide Product, CpuPart, MemoryPart, ConnPart, DelayPart;
  }

  lemma IdleParts()
    ensures CpuPart(0) == 1.0 && MemoryPart(0) == 1.0 && ConnPart(0) == 1.0 && DelayPart(0) == 1.0
  {
  }

  lemma OneTimes(x: real)
    ensures Product(1.0, x) == x && Product(x, 1.0) == x
  {
  }

  /** The pack with one field alone reports the load in that field alone. */
  lemma SinglePacks(l: Load)
    requires l.cpu < 32 && l.memory < 32 && l.conns < 1024 && l.delay < 512
    ensures LoadOf(0) == IDLE && LoadOf(0x8000_0000) == IDLE
    ensures LoadOf(l.cpu) == IDLE.(cpu := l.cpu) && LoadOf(0x20 * l.memory) == IDLE.(memory := l.memory)
    ensures LoadOf(0x400 * l.conns) == IDLE.(conns := l.conns)
    ensures LoadOf(0x10_0000 * l.delay) == IDLE.(delay := l.delay)
    ensures LoadOf(0x2000_0000) == IDLE.(error := true) && LoadOf(0x4000_0000) == IDLE.(preheating := true)
  {
    MemoryAlone(l.memory);
    ConnsAlone(l.conns);
    DelayAlone(l.delay);
  }

  lemma MemoryAlone(m: nat)
    requires m < 32
    ensures LoadOf(0x20 * m) == IDLE.(memory := m)
  {
    var p := 0x20 * m;
    assert p % 32 == 0 && p / 0x20 == m;
  }

  lemma ConnsAlone(n: nat)
    requires n < 1024
    ensures LoadOf(0x400 * n) == IDLE.(conns := n)
  {
    FieldUnmoved(0, 1, 32, 32 * n);
    FieldUnmoved(0, 0x20, 32, n);
    Quotient(0x400 * n, 0x400, n, 0);
  }

  lemma DelayAlone(d: nat)
    requires d < 512
    ensures LoadOf(0x10_0000 * d) == IDLE.(delay := d)
  {
    FieldUnmoved(0, 1, 32, 0x8000 * d);
    FieldUnmoved(0, 0x20, 32, 0x400 * d);
    FieldUnmoved(0, 0x400, 1024, d);
    Quotient(0x10_0000 * d, 0x10_0000, d, 0);
  }

  /** An instance that declares 100 and reports `p`: its weight never reaches the floor. */
  function Reference(p: u32): Instance {
    Instance("", 0, 100.0, true, p)
  }

  /** What is left of a weight, measured on an instance that never reaches the floor. */
  function Relative(p: u32): real {
    EffectiveWeight(Reference(p)) / 100.0
  }

  lemma PartsBounded(l: Load)
    requires l.cpu < 32 && l.memory < 32 && l.conns < 1024 && l.delay < 512
    ensures 0.1 <= CpuPart(l.cpu) <= 1.0 && 0.2 <= MemoryPart(l.memory) <= 1.0
    ensures 0.17 <= ConnPart(l.conns) <= 1.0 && 0.5 <= DelayPart(l.delay) <= 1.0
  {
    assert l.cpu as real <= 31.0 && l.memory as real <= 31.0 && l.conns as real <= 1023.0 && l.delay as real <= 511.0;
    assert l.cpu <= 24 ==> l.cpu as real <= 24.0;
    assert l.memory <= 27 ==> l.memory as real <= 27.0;
    assert l.delay <= 200 ==> l.delay as real <= 200.0;
    assert l.cpu >= 19 ==> l.cpu as real >= 19.0;
    assert l.memory >= 22 ==> l.memory as real >= 22.0;
    assert l.conns >= 201 ==> l.conns as real >= 201.0;
    assert l.delay >= 51 ==> l.delay as real >= 51.0;
    assert l.cpu >= 25 ==> l.cpu as real >= 25.0;
    assert l.memory >= 28 ==> l.memory as real >= 28.0;
    assert l.delay >= 201 ==> l.delay as real >= 201.0;
  }

  lemma AtLeastProduct(x: real, a: real, y: real, b: real)
    requires 0.0 <= a <= x && 0.0 <= b <= y
    ensures Product(x, y) >= a * b >= 0.0
  {
    assert (x - a) * y >= 0.0 && a * (y - b) >= 0.0;
  }

  lemma PartAboveFloor(l: Load)
    requires l.cpu < 32 && l.memory < 32 && l.conns < 1024 && l.delay < 512
    ensures Product(100.0, Part(l)) > 0.001
  {
    PartsBounded(l);
    var a, b, c, d := CpuPart(l.cpu), MemoryPart(l.memory), ConnPart(l.conns), DelayPart(l.delay);
    var e, f := if l.error then 0.1 else 1.0, if l.preheating then 0.3 else 1.0;
    hide CpuPart, MemoryPart, ConnPart, DelayPart, Product;
    AtLeastProduct(a, 0.1, b, 0.2);
    AtLeastProduct(Product(a, b), 0.02, c, 0.17);
    AtLeastProduct(Product(Product(a, b), c), 0.0034, d, 0.5);
    AtLeastProduct(Product(Product(Product(a, b), c), d), 0.0017, e, 0.1);
    AtLeastProduct(Product(Product(Product(Product(a, b), c), d), e), 0.00017, f, 0.3);
    AtLeastProduct(100.0, 100.0, Part(l), 0.000051);
  }

  lemma Hundredth(x: real)
    ensures Product(100.0, x) / 100.0 == x
  {
  }

  lemma RelativeIs(p: u32)
    ensures Relative(p) == Part(LoadOf(p))
  {
    LoadUnpacked(p);
    hide Part, LoadOf, EffectiveWeight, Unpack, Product;
    WeightIs(Reference(p));
    PartAboveFloor(LoadOf(p));
    NothingReported();
    Hundredth(Part(LoadOf(p)));
  }

  lemma NothingReported()
    ensures Part(LoadOf(0)) == 1.0
  {
    SinglePacks(IDLE);
    SingleParts(IDLE);
    hide Part, LoadOf;
  }

  /** A single field on its own, as a pack and as a number. */
  lemma CpuAlone(c: nat)
    requires c < 32
    ensures Relative(c) == CpuPart(c)
  {
    SinglePacks(IDLE.(cpu := c));
    SingleParts(IDLE.(cpu := c));
    RelativeIs(c);
    hide Relative, Part, LoadOf, CpuPart;
  }

  lemma MemoryRelative(m: nat)
    requires m < 32
    ensures Relative(0x20 * m) == MemoryPart(m)
  {
    SingleParts(IDLE.(memory := m));
    MemoryAlone(m);
    RelativeIs(0x20 * m);
    hide Relative, Part, LoadOf, MemoryPart;
  }

  lemma ConnsRelative(n: nat)
    requires n < 1024
    ensures Relative(0x400 * n) == ConnPart(n)
  {
    SingleParts(IDLE.(conns := n));
    ConnsAlone(n);
    RelativeIs(0x400 * n);
    hide Relative, Part, LoadOf, ConnPart;
  }

  lemma DelayRelative(d: nat)
    requires d < 512
    ensures Relative(0x10_0000 * d) == DelayPart(d)
  {
    SingleParts(IDLE.(delay := d));
    DelayAlone(d);
    RelativeIs(0x10_0000 * d);
    hide Relative, Part, LoadOf, DelayPart;
  }

  lemma FlagsRelative()
    ensures Relative(0x2000_0000) == 0.1 && Relative(0x4000_0000) == 0.3
  {
    SinglePacks(IDLE);
    SingleParts(IDLE);
    RelativeIs(0x2000_0000);
    RelativeIs(0x4000_0000);
    hide Relative, Part, LoadOf;
  }

  /** The loads of a pack combine by multiplication: what is left under all of them is the product of what is left
      under each alone. */
  lemma LoadsMultiply(p: u32)
    ensures var l := LoadOf(p);
            && 0x20 * l.memory < 0x400 && 0x400 * l.conns < 0x10_0000 && 0x10_0000 * l.delay < 0x2000_0000
            && Relative(p)
               == Product(Product(Product(Product(Product(Relative(l.cpu), Relative(0x20 * l.memory)),
                                                  Relative(0x400 * l.conns)),
                                          Relative(0x10_0000 * l.delay)),
                                  if l.error then Relative(0x2000_0000) else 1.0),
                          if l.preheating then Relative(0x4000_0000) else 1.0)
  {
    var l := LoadOf(p);
    LoadUnpacked(p);
    hide LoadOf, Unpack, CpuPart, MemoryPart, ConnPart, DelayPart, Product, Relative;
    RelativeIs(p);
    CpuAlone(l.cpu);
    MemoryRelative(l.memory);
    ConnsRelative(l.conns);
    DelayRelative(l.delay);
    FlagsRelative();
  }

  // ---------------------------------------------------------------- the two flags

  /** Setting the error bit divides a weight by exactly ten, as far as the floor allows. */
  lemma ErrorWeighs(i: Instance)
    requires i.metricsPack / 0x2000_0000 % 2 == 0 && (i.metricsPack == 0 || EffectiveWeight(i) > 0.001)
    ensures i.metricsPack + 0x2000_0000 < 0x1_0000_0000
    ensures EffectiveWeight(i.(metricsPack := i.metricsPack + 0x2000_0000))
         == NotBelow(0.001, EffectiveWeight(i) / 10.0)
  {
    var p := i.metricsPack;
    assert p / 0x2000_0000 <= 7 && p < 0x2000_0000 * (p / 0x2000_0000) + 0x2000_0000;
    SetError(p);
    ErrorPart(LoadOf(p), DeclaredBy(i));
    hide LoadOf, Part, EffectiveWeight, Product, DeclaredBy, NotBelow;
    Unfloored(i);
    Reporting(i, p + 0x2000_0000);
  }

  /** Setting the preheat bit leaves exactly three tenths. */
  lemma PreheatWeighs(i: Instance)
    requires i.metricsPack / 0x4000_0000 % 2 == 0 && (i.metricsPack == 0 || EffectiveWeight(i) > 0.001)
    ensures i.metricsPack + 0x4000_0000 < 0x1_0000_0000
    ensures EffectiveWeight(i.(metricsPack := i.metricsPack + 0x4000_0000))
         == NotBelow(0.001, 0.3 * EffectiveWeight(i))
  {
    var p := i.metricsPack;
    assert p / 0x4000_0000 <= 3 && p < 0x4000_0000 * (p / 0x4000_0000) + 0x4000_0000;
    SetPreheating(p);
    PreheatPart(LoadOf(p), DeclaredBy(i));
    hide LoadOf, Part, EffectiveWeight, Product, DeclaredBy, NotBelow;
    Unfloored(i);
    Reporting(i, p + 0x4000_0000);
  }

  /** The delay scale bit is not looked at. */
  lemma ScaleIgnored(i: Instance)
    requires i.metricsPack < 0x8000_0000 && (i.metricsPack == 0 || EffectiveWeight(i) > 0.001)
    ensures EffectiveWeight(i.(metricsPack := i.metricsPack + 0x8000_0000)) == NotBelow(0.001, EffectiveWeight(i))
  {
    var p := i.metricsPack;
    SetScale(p);
    hide LoadOf, Part, EffectiveWeight, Product, DeclaredBy, NotBelow;
    Unfloored(i);
    Reporting(i, p + 0x8000_0000);
  }

  function DeclaredBy(i: Instance): real {
    if i.weight > 0.0 then i.weight else 1.0
  }

  lemma Reporting(i: Instance, p: u32)
    requires p != 0
    ensures EffectiveWeight(i.(metricsPack := p)) == NotBelow(0.001, Product(DeclaredBy(i), Part(LoadOf(p))))
  {
    WeightIs(i.(metricsPack := p));
    hide EffectiveWeight, LoadOf, Part, Product;
  }

  lemma Unfloored(i: Instance)
    requires i.metricsPack == 0 || EffectiveWeight(i) > 0.001
    ensures EffectiveWeight(i) == Product(DeclaredBy(i), Part(LoadOf(i.metricsPack)))
  {
    WeightIs(i);
    NothingReported();
    OneTimes(DeclaredBy(i));
    hide EffectiveWeight, LoadOf, Part, Product;
  }

  lemma SetError(p: nat)
    requires p / 0x2000_0000 % 2 == 0
    ensures LoadOf(p + 0x2000_0000) == LoadOf(p).(error := true) && !LoadOf(p).error
  {
    HighBits(p, 1);
    HalfOfEven(p / 0x2000_0000);
    TwiceDivided(p);
    TwiceDivided(p + 0x2000_0000);
  }

  lemma SetPreheating(p: nat)
    requires p / 0x4000_0000 % 2 == 0
    ensures LoadOf(p + 0x4000_0000) == LoadOf(p).(preheating := true) && !LoadOf(p).preheating
  {
    HigherBits(p, 1);
    HalfOfEven(p / 0x4000_0000);
  }

  lemma SetScale(p: nat)
    ensures LoadOf(p + 0x8000_0000) == LoadOf(p)
  {
    HigherBits(p, 2);
    EvenSteps(p / 0x4000_0000, 1);
  }

  /** Above the error bit nothing below is moved. */
  lemma HigherBits(p: nat, u: nat)
    ensures var q := p + 0x4000_0000 * u;
            && q % 32 == p % 32 && q / 0x20 % 32 == p / 0x20 % 32 && q / 0x400 % 1024 == p / 0x400 % 1024
            && q / 0x10_0000 % 512 == p / 0x10_0000 % 512 && q / 0x2000_0000 % 2 == p / 0x2000_0000 % 2
            && q / 0x4000_0000 == p / 0x4000_0000 + u
  {
    HighBits(p, 2 * u);
    EvenSteps(p / 0x2000_0000, u);
    Quotient(p + 0x4000_0000 * u, 0x4000_0000, p / 0x4000_0000 + u, p % 0x4000_0000);
  }

  lemma EvenSteps(n: nat, u: nat)
    ensures (n + 2 * u) % 2 == n % 2
  {
  }

  lemma HalfOfEven(n: nat)
    requires n % 2 == 0
    ensures (n + 1) / 2 == n / 2 && (n + 1) % 2 == 1
  {
  }

  lemma TwiceDivided(p: nat)
    ensures p / 0x4000_0000 == p / 0x2000_0000 / 2
  {
  }

  /** What is added in multiples of a field's end does not move the field. */
  lemma FieldUnmoved(p: nat, place: nat, width: nat, t: nat)
    requires place > 0 && width > 0
    ensures (p + place * (width * t)) / place % width == p / place % width
  {
    var x, k := p / place, width * t;
    assert p + place * k == place * (x + k) + p % place;
    Quotient(p + place * k, place, x + k, p % place);
    var y := x / width;
    assert x + k == width * (y + t) + x % width;
    Quotient(x + k, width, y + t, x % width);
    assert (x + k) % width == x + k - width * ((x + k) / width);
  }

  lemma HighBits(p: nat, u: nat)
    ensures var q := p + 0x2000_0000 * u;
            && q % 32 == p % 32 && q / 0x20 % 32 == p / 0x20 % 32 && q / 0x400 % 1024 == p / 0x400 % 1024
            && q / 0x10_0000 % 512 == p / 0x10_0000 % 512 && q / 0x2000_0000 == p / 0x2000_0000 + u
  {
    FieldUnmoved(p, 1, 32, 0x100_0000 * u);
    FieldUnmoved(p, 0x20, 32, 0x8_0000 * u);
    FieldUnmoved(p, 0x400, 1024, 0x200 * u);
    FieldUnmoved(p, 0x10_0000, 512, u);
    Quotient(p + 0x2000_0000 * u, 0x2000_0000, p / 0x2000_0000 + u, p % 0x2000_0000);
  }

  lemma ErrorPart(l: Load, w: real)
    requires !l.error
    ensures Product(w, Part(l.(error := true))) == Product(w, Part(l)) / 10.0
  {
    var x := Product(Product(Product(CpuPart(l.cpu), MemoryPart(l.memory)), ConnPart(l.conns)), DelayPart(l.delay));
    var f := if l.preheating then 0.3 else 1.0;
    OneTimes(x);
    assert Part(l) == Product(x, f) && Part(l.(error := true)) == Product(Product(x, 0.1), f);
    hide Part, CpuPart, MemoryPart, ConnPart, DelayPart;
    Tenth(w, x, f);
  }

  lemma PreheatPart(l: Load, w: real)
    requires !l.preheating
    ensures Product(w, Part(l.(preheating := true))) == 0.3 * Product(w, Part(l))
  {
    var x := Product(Product(Product(CpuPart(l.cpu), MemoryPart(l.memory)), ConnPart(l.conns)), DelayPart(l.delay));
    var y := Product(x, if l.error then 0.1 else 1.0);
    OneTimes(y);
    assert Part(l) == y && Part(l.(preheating := true)) == Product(y, 0.3);
    hide Part, CpuPart, MemoryPart, ConnPart, DelayPart;
    Tenths(w, y);
  }

  lemma Tenth(w: real, x: real, f: real)
    ensures Product(w, Product(Product(x, 0.1), f)) == Product(w, Product(x, f)) / 10.0
  {
    var y, z := x * f, w * (x * f);
    assert x * 0.1 * f == y * 0.1;
    assert w * (y * 0.1) == z * 0.1;
  }

  lemma Tenths(w: real, x: real)
    ensures Product(w, Product(x, 0.3)) == 0.3 * Product(w, x)
  {
    var y := w * x;
    assert w * (x * 0.3) == y * 0.3;
  }

  // ---------------------------------------------------------------- strict decrease

  /** Beyond its first knot every field costs weight with every step. */
  lemma LoadCosts(c: nat, m: nat, n: nat, d: nat)
    requires 18 <= c < 31 && 21 <= m < 31 && 200 <= n < 1023 && 50 <= d < 511
    ensures Relative(c + 1) < Relative(c) && Relative(0x20 * (m + 1)) < Relative(0x20 * m)
    ensures Relative(0x400 * (n + 1)) < Relative(0x400 * n)
    ensures Relative(0x10_0000 * (d + 1)) < Relative(0x10_0000 * d)
  {
    PartsFall(c, m, n, d);
    hide CpuPart, MemoryPart, ConnPart, DelayPart, Relative;
    CpuAlone(c);
    CpuAlone(c + 1);
    MemoryRelative(m);
    MemoryRelative(m + 1);
    ConnsRelative(n);
    ConnsRelative(n + 1);
    DelayRelative(d);
    DelayRelative(d + 1);
  }

  lemma PartsFall(c: nat, m: nat, n: nat, d: nat)
    requires 18 <= c < 31 && 21 <= m < 31 && 200 <= n < 1023 && 50 <= d < 511
    ensures CpuPart(c + 1) < CpuPart(c) && MemoryPart(m + 1) < MemoryPart(m)
    ensures ConnPart(n + 1) < ConnPart(n) && DelayPart(d + 1) < DelayPart(d)
  {
    assert (c + 1) as real == c as real + 1.0 && (m + 1) as real == m as real + 1.0;
    assert (n + 1) as real == n as real + 1.0 && (d + 1) as real == d as real + 1.0;
    assert c == 18 || c == 24 || c != 18;
    assert c > 24 ==> c as real >= 25.0;
  }

  /** Values at the ends of the pieces. */
  lemma Knots()
    ensures Relative(18) == 1.0 && Relative(24) == 0.7408 && Relative(31) == 0.1054
    ensures Relative(0x20 * 21) == 1.0 && Relative(0x20 * 27) == 0.8306 && Relative(0x20 * 31) == 0.2108
    ensures Relative(0x400 * 200) == 1.0 && Relative(0x400 * 600) == 0.6 && Relative(0x400 * 1023) == 0.177
    ensures Relative(0x10_0000 * 50) == 1.0 && Relative(0x10_0000 * 200) == 0.7 && Relative(0x10_0000 * 511) == 0.5445
    ensures Relative(0x2000_0000) == 0.1 && Relative(0x4000_0000) == 0.3
  {
    hide Relative;
    CpuAlone(18);
    CpuAlone(24);
    CpuAlone(31);
    MemoryRelative(21);
    MemoryRelative(27);
    MemoryRelative(31);
    ConnsRelative(200);
    ConnsRelative(600);
    ConnsRelative(1023);
    DelayRelative(50);
    DelayRelative(200);
    DelayRelative(511);
    FlagsRelative();
  }
}
