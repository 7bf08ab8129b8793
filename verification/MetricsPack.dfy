/** The 32-bit metrics pack: seven fields in one word (section 9.5 of the HMMP specification v07). */
module MetricsPack {
  import opened Bits

  const TWO_TO_THE_32 := 0x1_0000_0000

  datatype Metrics = Metrics(
    cpu: int,
    memory: int,
    conns: int,
    delay: int,
    error: bool,
    preheating: bool,
    coarse: bool)

  function Bit(b: bool): nat {
    if b then 1 else 0
  }

  /** The word as a sum of fields in their places, each cut to its width (`& 0x1F` and so on, on any integer). */
  function Pack(m: Metrics): nat {
    m.cpu % 32 + 0x20 * (m.memory % 32) + 0x400 * (m.conns % 1024) + 0x10_0000 * (m.delay % 512)
      + 0x2000_0000 * Bit(m.error) + 0x4000_0000 * Bit(m.preheating) + 0x8000_0000 * Bit(m.coarse)
  }

  /** Shifts and masks. */
  function Unpack(p: nat): Metrics {
    Metrics(p % 32, p / 0x20 % 32, p / 0x400 % 1024, p / 0x10_0000 % 512,
            p / 0x2000_0000 % 2 == 1, p / 0x4000_0000 % 2 == 1, p / 0x8000_0000 % 2 == 1)
  }

  // ---------------------------------------------------------------- bitwise accumulation

  lemma FieldBelow(low: nat, field: nat, width: nat, place: nat)
    requires low < place && field < width
    ensures low + field * place < width * place
  {
    var above := width - 1 - field;
    assert width * place == (field + above + 1) * place == field * place + above * place + place;
  }

  /** Or-ing a field into its place: what the word becomes, and that it stays below the next place. */
  lemma OrField(low: nat, field: nat, width: nat, shift: nat, place: nat)
    requires place == Pow2(shift) && low < place && field < width
    ensures Or(low, field * place) == low + field * place < width * place
  {
    hide Pow2, Or;
    OrAdds(low, field, shift);
    FieldBelow(low, field, width, place);
  }

  /** The source's way: or the masked and shifted fields into one word. */
  method PackMetrics(m: Metrics) returns (pack: nat)
    ensures pack == Pack(m)
  {
    hide Pow2, Or;
    pack := PackFields(m);
    pack := PackFlag(pack, m.error, 29, 0x2000_0000);
    pack := PackFlag(pack, m.preheating, 30, 0x4000_0000);
    pack := PackFlag(pack, m.coarse, 31, 0x8000_0000);
  }

  method PackFields(m: Metrics) returns (pack: nat)
    ensures pack == m.cpu % 32 + 0x20 * (m.memory % 32) + 0x400 * (m.conns % 1024) + 0x10_0000 * (m.delay % 512)
    ensures pack < 0x2000_0000
  {
    Places();
    var cpu, memory, conns, delay := m.cpu % 32, m.memory % 32, m.conns % 1024, m.delay % 512;
    hide Pow2, Or;
    pack := 0;
    OrZero(cpu);
    pack := Or(pack, cpu);
    OrField(pack, memory, 32, 5, 0x20);
    pack := Or(pack, memory * 0x20);
    OrField(pack, conns, 1024, 10, 0x400);
    pack := Or(pack, conns * 0x400);
    OrField(pack, delay, 512, 20, 0x10_0000);
    pack := Or(pack, delay * 0x10_0000);
  }

  method PackFlag(low: nat, flag: bool, shift: nat, place: nat) returns (pack: nat)
    requires (shift == 29 && place == 0x2000_0000) || (shift == 30 && place == 0x4000_0000)
          || (shift == 31 && place == 0x8000_0000)
    requires low < place
    ensures pack == low + place * Bit(flag) < 2 * place
  {
    pack := low;
    if flag {
      Places();
      hide Pow2, Or;
      OrField(low, 1, 2, shift, place);
      pack := Or(pack, 1 * place);
    }
  }

  // ---------------------------------------------------------------- mutual inverses

  predicate InRange(m: Metrics) {
    0 <= m.cpu < 32 && 0 <= m.memory < 32 && 0 <= m.conns < 1024 && 0 <= m.delay < 512
  }

  /** Taking a word apart at one place. */
  lemma Split(low: int, high: int, width: int)
    requires 0 <= low < width && high >= 0
    ensures (low + width * high) % width == low && (low + width * high) / width == high
  {
    var p := low + width * high;
    var d := p / width - high;
    assert width * d == low - p % width;
    assert d >= 1 ==> width * d >= width;
    assert d <= -1 ==> width * d <= -width;
  }

  /** The fields are reached one after the other. */
  lemma Quotients(p: nat)
    ensures p / 0x400 == p / 0x20 / 32
    ensures p / 0x10_0000 == p / 0x400 / 1024
    ensures p / 0x2000_0000 == p / 0x10_0000 / 512
  {
  }

  lemma FlagQuotients(p: nat)
    ensures p / 0x4000_0000 == p / 0x2000_0000 / 2
    ensures p / 0x8000_0000 == p / 0x2000_0000 / 4
  {
  }

  /** The three flags above bit 29, as a number. */
  function Flags(m: Metrics): nat {
    Bit(m.error) + 2 * Bit(m.preheating) + 4 * Bit(m.coarse)
  }

  lemma FlagsUnpack(p: nat)
    ensures var m := Unpack(p);
            (p / 0x2000_0000 < 8 ==> p / 0x2000_0000 == Flags(m))
            && forall n: Metrics :: p / 0x2000_0000 == Flags(n)
                 ==> m.error == n.error && m.preheating == n.preheating && m.coarse == n.coarse
  {
    FlagQuotients(p);
    var h := p / 0x2000_0000;
    assert h < 8 ==> h == h % 2 + 2 * (h / 2 % 2) + 4 * (h / 4 % 2);
  }

  lemma Digits(c: nat, e: nat, n: nat, d: nat, h: nat)
    requires c < 32 && e < 32 && n < 1024 && d < 512
    ensures var p := c + 0x20 * (e + 32 * (n + 1024 * (d + 512 * h)));
            && p % 32 == c && p / 0x20 % 32 == e && p / 0x400 % 1024 == n
            && p / 0x10_0000 % 512 == d && p / 0x2000_0000 == h
  {
    var h4 := d + 512 * h;
    var h3 := n + 1024 * h4;
    var h2 := e + 32 * h3;
    var p := c + 0x20 * h2;
    assert p % 32 == c && p / 0x20 == h2 by { Split(c, h2, 32); }
    assert h2 % 32 == e && h2 / 32 == h3 by { Split(e, h3, 32); }
    assert h3 % 1024 == n && h3 / 1024 == h4 by { Split(n, h4, 1024); }
    assert h4 % 512 == d && h4 / 512 == h by { Split(d, h, 512); }
    Quotients(p);
  }

  lemma SumOfDigits(p: nat)
    ensures p == p % 32 + 0x20 * (p / 0x20 % 32) + 0x400 * (p / 0x400 % 1024) + 0x10_0000 * (p / 0x10_0000 % 512)
                 + 0x2000_0000 * (p / 0x2000_0000)
  {
    Quotients(p);
    Recombine(p / 0x20, 32);
    Recombine(p / 0x400, 1024);
    Recombine(p / 0x10_0000, 512);
  }

  lemma Recombine(p: nat, width: nat)
    requires width > 0
    ensures p == p % width + width * (p / width)
  {
  }

  /** The word, one field inside the other. */
  lemma PackNested(m: Metrics)
    ensures Pack(m)
         == m.cpu % 32 + 0x20 * (m.memory % 32 + 32 * (m.conns % 1024 + 1024 * (m.delay % 512 + 512 * Flags(m))))
    ensures Flags(m) < 8 && Pack(m) < TWO_TO_THE_32
  {
  }

  lemma UnpackFields(m: Metrics)
    ensures var n := Unpack(Pack(m));
            && n.cpu == m.cpu % 32 && n.memory == m.memory % 32 && n.conns == m.conns % 1024 && n.delay == m.delay % 512
            && Pack(m) / 0x2000_0000 == Flags(m)
  {
    PackNested(m);
    hide Pack, Flags, Bit;
    Digits(m.cpu % 32, m.memory % 32, m.conns % 1024, m.delay % 512, Flags(m));
  }

  lemma ModWhole(x: int, width: nat)
    requires width > 0
    ensures x % width == x <==> 0 <= x < width
  {
  }

  /** Every field comes back cut to its width; a field that fits comes back whole. */
  lemma {:induction false} UnpackPack(m: Metrics)
    ensures Pack(m) < TWO_TO_THE_32
    ensures Unpack(Pack(m))
         == m.(cpu := m.cpu % 32, memory := m.memory % 32, conns := m.conns % 1024, delay := m.delay % 512)
    ensures Unpack(Pack(m)) == m <==> InRange(m)
  {
    hide Pack, Unpack, Flags;
    PackNested(m);
    UnpackFields(m);
    FlagsUnpack(Pack(m));
    ModWhole(m.cpu, 32);
    ModWhole(m.memory, 32);
    ModWhole(m.conns, 1024);
    ModWhole(m.delay, 512);
  }

  lemma UnpackInRange(p: nat)
    ensures InRange(Unpack(p))
  {
  }

  lemma PackDigits(p: nat)
    ensures Pack(Unpack(p))
         == p % 32 + 0x20 * (p / 0x20 % 32) + 0x400 * (p / 0x400 % 1024) + 0x10_0000 * (p / 0x10_0000 % 512)
            + 0x2000_0000 * Flags(Unpack(p))
  {
    var m := Unpack(p);
    assert m.cpu % 32 == m.cpu && m.memory % 32 == m.memory && m.conns % 1024 == m.conns && m.delay % 512 == m.delay;
  }

  lemma {:induction false} PackUnpack(p: nat)
    requires p < TWO_TO_THE_32
    ensures InRange(Unpack(p)) && Pack(Unpack(p)) == p
  {
    UnpackInRange(p);
    PackDigits(p);
    SumOfDigits(p);
    FlagsUnpack(p);
    hide Pack, Unpack, Flags;
    assert p / 0x2000_0000 < 8;
  }

  /** Where the fields lie: bits 0, 5, 10, 20, 29, 30 and 31. */
  lemma FieldPlaces(n: nat)
    ensures var idle := Metrics(0, 0, 0, 0, false, false, false);
            && (n < 32 ==> Pack(idle.(cpu := n)) == n && Pack(idle.(memory := n)) == 0x20 * n)
            && (n < 1024 ==> Pack(idle.(conns := n)) == 0x400 * n)
            && (n < 512 ==> Pack(idle.(delay := n)) == 0x10_0000 * n)
            && Pack(idle.(error := true)) == 0x2000_0000 && Pack(idle.(preheating := true)) == 0x4000_0000
            && Pack(idle.(coarse := true)) == 0x8000_0000
  {
  }
}
