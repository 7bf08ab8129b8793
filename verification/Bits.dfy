/** Bitwise operations on non-negative integers, one bit at a time. */
module Bits {
  function Pow2(n: nat): (p: nat)
    ensures p > 0
  {
    if n == 0 then 1 else 2 * Pow2(n - 1)
  }

  lemma Pow2Add8(n: nat)
    ensures Pow2(n + 8) == 256 * Pow2(n)
  {
    assert Pow2(n + 4) == 16 * Pow2(n) by {
      assert Pow2(n + 2) == 4 * Pow2(n);
    }
    assert Pow2(n + 6) == 4 * Pow2(n + 4);
  }

  lemma BytePowers()
    ensures Pow2(8) == 0x100 && Pow2(16) == 0x1_0000 && Pow2(24) == 0x100_0000 && Pow2(32) == 0x1_0000_0000
    ensures Pow2(64) == 0x1_0000_0000_0000_0000
  {
    hide Pow2;
    assert Pow2(0) == 1 by { PowerOfZero(); }
    Pow2Add8(0);
    Pow2Add8(8);
    Pow2Add8(16);
    Pow2Add8(24);
    Pow2Add8(32);
    Pow2Add8(40);
    Pow2Add8(48);
    Pow2Add8(56);
  }

  lemma PowerOfZero()
    ensures Pow2(0) == 1
  {
  }

  /** The places the fields of a metrics pack start at. */
  lemma Places()
    ensures Pow2(5) == 0x20 && Pow2(10) == 0x400 && Pow2(20) == 0x10_0000
    ensures Pow2(29) == 0x2000_0000 && Pow2(30) == 0x4000_0000 && Pow2(31) == 0x8000_0000
  {
    BytePowers();
    assert Pow2(8) == 8 * Pow2(5);
    assert Pow2(10) == 4 * Pow2(8);
    assert Pow2(20) == 16 * Pow2(16) by {
      assert Pow2(18) == 4 * Pow2(16);
    }
    assert Pow2(32) == 2 * Pow2(31) && Pow2(31) == 2 * Pow2(30) && Pow2(30) == 2 * Pow2(29);
  }

  // ---------------------------------------------------------------- exclusive or

  /** Bitwise exclusive or of two non-negative integers. */
  function Xor(a: nat, b: nat): (r: nat) {
    if a == 0 && b == 0 then 0 else (a + b) % 2 + 2 * Xor(a / 2, b / 2)
  }

  lemma {:induction false} XorUndone(a: nat, b: nat)
    ensures Xor(Xor(a, b), b) == a && Xor(Xor(a, b), a) == b
  {
    if a == 0 && b == 0 {
      XorOfZeros();
    } else {
      XorUndone(a / 2, b / 2);
      XorUnfolds(a, b);
      hide Xor;
      var high := Xor(a / 2, b / 2);
      XorStep(a, b, high);
      XorStep(b, a, high);
    }
  }

  /** Undoing one bit: `(a + b) % 2` holds the lowest bit of the xor and `high` the rest of it. */
  lemma XorStep(a: nat, b: nat, high: nat)
    requires Xor(high, b / 2) == a / 2
    ensures Xor((a + b) % 2 + 2 * high, b) == a
  {
    var x := (a + b) % 2 + 2 * high;
    Parity(a, b, high);
    hide Xor;
    if x == 0 && b == 0 {
      assert high == 0;
      XorOfZeros();
    } else {
      XorUnfolds(x, b);
    }
  }

  lemma XorOfZeros()
    ensures Xor(0, 0) == 0
  {
  }

  lemma XorUnfolds(a: nat, b: nat)
    requires a != 0 || b != 0
    ensures Xor(a, b) == (a + b) % 2 + 2 * Xor(a / 2, b / 2)
  {
  }

  lemma Parity(a: nat, b: nat, high: nat)
    ensures ((a + b) % 2 + 2 * high) / 2 == high
    ensures ((a + b) % 2 + 2 * high + b) % 2 == a % 2
  {
    var q := (a + b) / 2;
    assert (a + b) % 2 == a + b - 2 * q;
    assert (a + b) % 2 + 2 * high + b == a + 2 * (b - q + high);
  }

  lemma {:induction false} XorBounded(a: nat, b: nat, n: nat)
    requires a < Pow2(n) && b < Pow2(n)
    ensures Xor(a, b) < Pow2(n)
  {
    if n > 0 {
      XorBounded(a / 2, b / 2, n - 1);
    }
  }

  /** `x`, and below it the `n` lowest bits of `low`. */
  function Above(x: nat, low: nat, n: nat): nat {
    if n == 0 then x else 2 * Above(x, low / 2, n - 1) + low % 2
  }

  lemma {:induction false} AboveIs(x: nat, low: nat, n: nat)
    requires low < Pow2(n)
    ensures Above(x, low, n) == Pow2(n) * x + low
    decreases n
  {
    if n > 0 {
      AboveIs(x, low / 2, n - 1);
      Doubled(Pow2(n - 1), x, low / 2);
    }
  }

  lemma Doubled(half: nat, x: nat, y: nat)
    ensures 2 * (half * x + y) == 2 * half * x + 2 * y
  {
  }

  /** An exclusive or can be taken part by part. */
  lemma {:induction false} XorParts(a: nat, low: nat, b: nat, bottom: nat, n: nat)
    ensures Xor(Above(a, low, n), Above(b, bottom, n)) == Above(Xor(a, b), Xor(low, bottom), n)
    decreases n
  {
    if n > 0 {
      var x, y, rest := Above(a, low / 2, n - 1), Above(b, bottom / 2, n - 1), Xor(low / 2, bottom / 2);
      XorParts(a, low / 2, b, bottom / 2, n - 1);
      AboveUnfolds(a, low, n);
      AboveUnfolds(b, bottom, n);
      AboveUnfolds(Xor(a, b), Xor(low, bottom), n);
      hide Xor, Above;
      BitOfXor(low, bottom);
      XorDoubled(x, low % 2, y, bottom % 2);
      assert Xor(Above(a, low, n), Above(b, bottom, n)) == 2 * Xor(x, y) + Xor(low, bottom) % 2;
    }
  }

  lemma BitOfXor(a: nat, b: nat)
    ensures Xor(a, b) / 2 == Xor(a / 2, b / 2) && Xor(a, b) % 2 == (a % 2 + b % 2) % 2
  {
    XorBit(a, b);
    hide Xor;
    assert (a % 2 + b % 2) % 2 == (a + b) % 2 by { Parities(a, b); }
  }

  lemma Parities(a: nat, b: nat)
    ensures (a % 2 + b % 2) % 2 == (a + b) % 2
  {
    assert a % 2 + b % 2 == a + b - 2 * (a / 2 + b / 2);
  }

  lemma XorDoubled(x: nat, i: nat, y: nat, j: nat)
    requires i < 2 && j < 2
    ensures Xor(2 * x + i, 2 * y + j) == 2 * Xor(x, y) + (i + j) % 2
  {
    XorBit(2 * x + i, 2 * y + j);
    Halving(x, i);
    Halving(y, j);
    SumParity(x, i, y, j);
    hide Xor;
  }

  lemma Halving(x: nat, i: nat)
    requires i < 2
    ensures (2 * x + i) / 2 == x
  {
  }

  lemma SumParity(x: nat, i: nat, y: nat, j: nat)
    ensures (2 * x + i + (2 * y + j)) % 2 == (i + j) % 2
  {
    var k := x + y;
    assert 2 * x + i + (2 * y + j) == 2 * k + (i + j);
  }

  lemma AboveUnfolds(x: nat, low: nat, n: nat)
    requires n > 0
    ensures Above(x, low, n) == 2 * Above(x, low / 2, n - 1) + low % 2
  {
  }

  lemma XorParted(a: nat, low: nat, b: nat, bottom: nat, p: nat, n: nat)
    requires p == Pow2(n) && low < p && bottom < p
    ensures Xor(p * a + low, p * b + bottom) == p * Xor(a, b) + Xor(low, bottom)
  {
    XorParts(a, low, b, bottom, n);
    XorBounded(low, bottom, n);
    hide Xor, Above, Pow2;
    AboveIs(a, low, n);
    AboveIs(b, bottom, n);
    AboveIs(Xor(a, b), Xor(low, bottom), n);
  }

  lemma XorBit(a: nat, b: nat)
    ensures Xor(a, b) == (a + b) % 2 + 2 * Xor(a / 2, b / 2)
  {
    if a == 0 && b == 0 {
      XorOfZeros();
    } else {
      XorUnfolds(a, b);
    }
  }

  lemma {:induction false} XorZero(h: nat)
    ensures Xor(h, 0) == h
  {
    if h > 0 {
      XorZero(h / 2);
      XorUnfolds(h, 0);
    } else {
      XorOfZeros();
    }
  }

  // ---------------------------------------------------------------- or

  /** Bitwise or of two non-negative integers. */
  function Or(a: nat, b: nat): nat {
    if a == 0 && b == 0 then 0
    else (if a % 2 == 1 || b % 2 == 1 then 1 else 0) + 2 * Or(a / 2, b / 2)
  }

  lemma {:induction false} OrZero(a: nat)
    ensures Or(0, a) == a
  {
    if a > 0 {
      OrZero(a / 2);
    }
  }

  /** Or-ing in a field above the bits in use adds it. */
  lemma {:induction false} OrAdds(low: nat, field: nat, shift: nat)
    requires low < Pow2(shift)
    ensures Or(low, field * Pow2(shift)) == low + field * Pow2(shift)
  {
    if shift == 0 {
      OrZero(field);
    } else {
      var half := field * Pow2(shift - 1);
      assert field * Pow2(shift) == 2 * half;
      OrAdds(low / 2, field, shift - 1);
      assert (2 * half) / 2 == half && (2 * half) % 2 == 0;
    }
  }
}
