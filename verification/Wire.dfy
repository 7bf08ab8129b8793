/** Bytes, big-endian integers and length-prefixed strings: the vocabulary every HMMP layout is
    written in.  A `Take...` function reads from the front of a byte sequence and returns what it
    read together with the bytes it left. */
module Wire {
  type byte = x: int | 0 <= x < 256
  type bytes = seq<byte>

  /** The exceptions of the Python code. */
  datatype Error =
    | EndOfData       // EOFError
    | BadValue        // ValueError
    | BadUtf8         // UnicodeDecodeError
    | BadProtocol     // ProtocolError
    | BadStruct       // struct.error, or a value MessagePack cannot pack
    | Closed          // ConnectionClosedError
    | NoConnection    // ConnectionError
    | TimedOut        // asyncio.TimeoutError

  datatype Option<+T> = None | Some(value: T)

  datatype Result<+T> = Ok(value: T) | Err(error: Error) {
    predicate IsFailure() {
      Err?
    }

    function PropagateFailure<U>(): Result<U>
      requires Err?
    {
      Err(error)
    }

    function Extract(): T
      requires Ok?
    {
      value
    }
  }

  /** The number of values an n-byte unsigned integer can hold. */
  function Limit(n: nat): (r: nat)
    ensures r > 0
  {
    if n == 0 then 1 else 256 * Limit(n - 1)
  }

  /** The n low-order bytes of v, most significant first. */
  function Uint(v: nat, n: nat): (s: bytes)
    ensures |s| == n
  {
    if n == 0 then [] else Uint(v / 256, n - 1) + [v % 256]
  }

  function Value(s: bytes): (v: nat)
    ensures v < Limit(|s|)
  {
    if |s| == 0 then 0 else Value(s[..|s| - 1]) * 256 + s[|s| - 1]
  }

  /** What `& 0xFF`, `& 0xFFFF`, ... leave of a value before it is written. */
  function Masked(v: nat, n: nat): (s: bytes)
    ensures |s| == n
  {
    Uint(v % Limit(n), n)
  }

  /** Most significant first: byte number `i` counts for as many as the bytes after it can tell apart. */
  lemma {:induction false} UintAt(v: nat, n: nat, i: nat)
    requires i < n
    ensures Uint(v, n)[i] == v / Limit(n - 1 - i) % 256
  {
    if i < n - 1 {
      UintAt(v / 256, n - 1, i);
      DivideTwice(v, Limit(n - 2 - i));
    }
  }

  lemma DivideTwice(v: nat, k: nat)
    requires k > 0
    ensures v / 256 / k == v / (256 * k)
  {
    var a, b := v / 256, v % 256;
    var q, r := a / k, a % k;
    assert v == 256 * (k * q + r) + b;
    assert v == (256 * k) * q + (256 * r + b);
    assert 256 * r + b < 256 * k;
    Quotient(v, 256 * k, q, 256 * r + b);
  }

  lemma Quotient(v: int, k: int, q: int, r: int)
    requires v == k * q + r && 0 <= r < k
    ensures v / k == q
  {
    var d := v / k - q;
    assert k * d == r - v % k;
    assert d >= 1 ==> k * d >= k;
    assert d <= -1 ==> k * d <= -k;
  }

  /** The same of the value read. */
  lemma {:induction false} ValueSplits(s: bytes, t: bytes)
    ensures Value(s + t) == Value(s) * Limit(|t|) + Value(t)
    decreases |t|
  {
    if |t| == 0 {
      assert s + t == s;
    } else {
      var front := t[..|t| - 1];
      ValueSplits(s, front);
      assert (s + t)[..|s + t| - 1] == s + front;
      Distributes(Value(s), Limit(|front|), Value(front), t[|t| - 1]);
    }
  }

  lemma Distributes(a: nat, k: nat, b: nat, c: nat)
    ensures (a * k + b) * 256 + c == a * (256 * k) + (b * 256 + c)
  {
  }

  lemma ValueOfByte(b: byte)
    ensures Value([b]) == b
  {
    assert [b][..0] == [];
  }

  lemma {:induction false} ValueOfUint(v: nat, n: nat)
    requires v < Limit(n)
    ensures Value(Uint(v, n)) == v
  {
    if n > 0 {
      ValueOfUint(v / 256, n - 1);
      assert Uint(v, n)[..n - 1] == Uint(v / 256, n - 1);
    }
  }

  lemma {:induction false} UintOfValue(s: bytes)
    ensures Uint(Value(s), |s|) == s
  {
    if |s| > 0 {
      UintOfValue(s[..|s| - 1]);
    }
  }

  lemma Reassociate(a: bytes, b: bytes, c: bytes)
    ensures (a + b) + c == a + (b + c)
  {
  }

  function TakeBytes(s: bytes, n: nat): Result<(bytes, bytes)> {
    if |s| < n then Err(EndOfData) else Ok((s[..n], s[n..]))
  }

  function TakeUint(s: bytes, n: nat): Result<(nat, bytes)> {
    var (b, rest) :- TakeBytes(s, n);
    Ok((Value(b), rest))
  }

  function TakeByte(s: bytes): Result<(byte, bytes)> {
    if |s| < 1 then Err(EndOfData) else Ok((s[0], s[1..]))
  }

  /** Writing a string: an n-byte masked length, then the UTF-8 bytes. */
  function Prefixed(v: bytes, n: nat): bytes {
    Masked(|v|, n) + v
  }

  function TakePrefixed(s: bytes, n: nat): Result<(bytes, bytes)> {
    var (length, rest) :- TakeUint(s, n);
    TakeBytes(rest, length)
  }

  function TakeString(s: bytes, n: nat): Result<(bytes, bytes)> {
    var (text, rest) :- TakePrefixed(s, n);
    if ValidUtf8(text) then Ok((text, rest)) else Err(BadUtf8)
  }

  lemma TakeBytesInverts(b: bytes, rest: bytes)
    ensures TakeBytes(b + rest, |b|) == Ok((b, rest))
  {
    assert (b + rest)[..|b|] == b;
    assert (b + rest)[|b|..] == rest;
  }

  lemma TakeUintInverts(v: nat, n: nat, rest: bytes)
    requires v < Limit(n)
    ensures TakeUint(Uint(v, n) + rest, n) == Ok((v, rest))
  {
    TakeBytesInverts(Uint(v, n), rest);
    ValueOfUint(v, n);
  }

  /** Reading an integer loses nothing: the bytes taken are the ones `Uint` writes. */
  lemma TakeUintSound(s: bytes, n: nat, v: nat, rest: bytes)
    requires TakeUint(s, n) == Ok((v, rest))
    ensures s == Uint(v, n) + rest && v < Limit(n)
  {
    assert v == Value(s[..n]) && rest == s[n..];
    assert s == s[..n] + rest;
    UintOfValue(s[..n]);
  }

  /** A length prefix comes back exactly when the length fits it: the writer masks, it does not fail. */
  lemma {:induction false} TakePrefixedInverts(v: bytes, n: nat, rest: bytes)
    requires |v| < Limit(n)
    ensures TakePrefixed(Prefixed(v, n) + rest, n) == Ok((v, rest))
  {
    var len := Masked(|v|, n);
    assert |v| % Limit(n) == |v| by { SmallMod(|v|, Limit(n)); }
    assert Prefixed(v, n) + rest == len + (v + rest);
    TakeUintInverts(|v|, n, v + rest);
    TakeBytesInverts(v, rest);
  }

  lemma {:induction false} TakePrefixedSound(s: bytes, n: nat, v: bytes, rest: bytes)
    requires TakePrefixed(s, n) == Ok((v, rest))
    ensures s == Prefixed(v, n) + rest && |v| < Limit(n)
  {
    var (length, after) := TakeUint(s, n).value;
    TakeUintSound(s, n, length, after);
    hide TakeUint, Uint, Limit;
    assert after == v + rest && |v| == length;
    SmallMod(length, Limit(n));
    assert s == Uint(length, n) + (v + rest);
  }

  lemma {:induction false} TakeStringInverts(v: bytes, n: nat, rest: bytes)
    requires |v| < Limit(n) && ValidUtf8(v)
    ensures TakeString(Prefixed(v, n) + rest, n) == Ok((v, rest))
  {
    TakePrefixedInverts(v, n, rest);
  }

  lemma SmallMod(x: nat, m: nat)
    requires x < m
    ensures x % m == x
  {
  }

  predicate Continues(b: byte) {
    0x80 <= b <= 0xBF
  }

  /** The first `n` bytes are one character, as Table 3-7 of the Unicode Standard lists them. */
  predicate StartsWithChar(s: bytes, n: nat) {
    |s| >= n &&
    match n
    case 1 => s[0] <= 0x7F
    case 2 => 0xC2 <= s[0] <= 0xDF && Continues(s[1])
    case 3 =>
      0xE0 <= s[0] <= 0xEF && Continues(s[1]) && Continues(s[2])
      && (s[0] == 0xE0 ==> 0xA0 <= s[1]) && (s[0] == 0xED ==> s[1] <= 0x9F)
    case 4 =>
      0xF0 <= s[0] <= 0xF4 && Continues(s[1]) && Continues(s[2]) && Continues(s[3])
      && (s[0] == 0xF0 ==> 0x90 <= s[1]) && (s[0] == 0xF4 ==> s[1] <= 0x8F)
    case _ => false
  }

  /** Well-formed UTF-8: what `decode("utf-8")` accepts. */
  predicate ValidUtf8(s: bytes)
    decreases |s|
  {
    || |s| == 0
    || (StartsWithChar(s, 1) && ValidUtf8(s[1..]))
    || (StartsWithChar(s, 2) && ValidUtf8(s[2..]))
    || (StartsWithChar(s, 3) && ValidUtf8(s[3..]))
    || (StartsWithChar(s, 4) && ValidUtf8(s[4..]))
  }

  lemma FirstChar(s: bytes) returns (n: nat)
    requires ValidUtf8(s) && |s| > 0
    ensures 1 <= n <= |s| && StartsWithChar(s, n) && ValidUtf8(s[n..])
  {
    n := if StartsWithChar(s, 1) && ValidUtf8(s[1..]) then 1
         else if StartsWithChar(s, 2) && ValidUtf8(s[2..]) then 2
         else if StartsWithChar(s, 3) && ValidUtf8(s[3..]) then 3 else 4;
  }

  lemma CharFits(s: bytes, n: nat)
    ensures StartsWithChar(s, n) ==> 1 <= n <= 4 && n <= |s|
  {
  }

  lemma AnotherChar(s: bytes, n: nat)
    requires StartsWithChar(s, n) && n <= |s| && ValidUtf8(s[n..])
    ensures ValidUtf8(s)
  {
    CharFits(s, n);
    hide StartsWithChar;
  }

  /** A character is determined by its own bytes, and no byte after the first is a NUL. */
  lemma CharAlone(s: bytes, t: bytes, n: nat)
    requires StartsWithChar(s, n) && n <= |s| && n <= |t| && s[..n] == t[..n]
    ensures StartsWithChar(t, n)
  {
    assert forall i :: 0 <= i < n ==> s[..n][i] == t[..n][i];
  }

  lemma CharHoldsNoNul(s: bytes, n: nat, i: nat)
    requires StartsWithChar(s, n) && 0 < i < n && i < |s|
    ensures s[i] != 0
  {
  }

  lemma {:induction false} Utf8Concat(a: bytes, b: bytes)
    requires ValidUtf8(a) && ValidUtf8(b)
    ensures ValidUtf8(a + b)
    decreases |a|
  {
    if |a| == 0 {
      assert a + b == b;
    } else {
      var n := FirstChar(a);
      hide ValidUtf8, StartsWithChar;
      CharAlone(a, a + b, n);
      Utf8Concat(a[n..], b);
      assert (a + b)[n..] == a[n..] + b;
      AnotherChar(a + b, n);
    }
  }

  /** A NUL is a character of its own, so text falls apart into text at each NUL. */
  lemma {:induction false} Utf8Split(a: bytes, b: bytes)
    requires ValidUtf8(a + [0] + b)
    ensures ValidUtf8(a) && ValidUtf8(b)
    decreases |a|
  {
    var s := a + [0] + b;
    var n := FirstChar(s);
    if |a| == 0 {
      assert s[0] == 0 && s[1..] == b;
      NulAlone(s, n);
    } else {
      hide ValidUtf8, StartsWithChar;
      assert s[|a|] == 0;
      if n > |a| {
        CharHoldsNoNul(s, n, |a|);
      } else {
        assert s[n..] == a[n..] + [0] + b;
        Utf8Split(a[n..], b);
        CharAlone(s, a, n);
        AnotherChar(a, n);
      }
    }
  }

  lemma NulAlone(s: bytes, n: nat)
    requires StartsWithChar(s, n) && |s| > 0 && s[0] == 0
    ensures n == 1
  {
  }

  // ---------------------------------------------------------------- UTF-8 by code points

  /** The code points of text: all up to 0x10FFFF but the surrogates. */
  predicate Scalar(c: nat) {
    c < 0xD800 || 0xE000 <= c < 0x11_0000
  }

  /** A code point in six-bit groups. */
  function CharBytes(c: nat): bytes
    requires Scalar(c)
  {
    if c < 0x80 then [c]
    else if c < 0x800 then [0xC0 + c / 64, 0x80 + c % 64]
    else if c < 0x1_0000 then [0xE0 + c / 64 / 64, 0x80 + c / 64 % 64, 0x80 + c % 64]
    else [0xF0 + c / 64 / 64 / 64, 0x80 + c / 64 / 64 % 64, 0x80 + c / 64 % 64, 0x80 + c % 64]
  }

  function TextBytes(text: seq<nat>): bytes
    requires forall c :: c in text ==> Scalar(c)
  {
    if |text| == 0 then [] else CharBytes(text[0]) + TextBytes(text[1..])
  }

  lemma CharStarts(c: nat, rest: bytes)
    requires Scalar(c)
    ensures StartsWithChar(CharBytes(c) + rest, |CharBytes(c)|)
  {
  }

  /** One more group of six bits. */
  function Grouped(high: int, b: int): int {
    high * 64 + (b - 0x80)
  }

  lemma Regrouped(high: int, b: int)
    requires 0x80 <= b <= 0xBF
    ensures Grouped(high, b) / 64 == high && Grouped(high, b) % 64 == b - 0x80
  {
  }

  /** The code point of a character. */
  function CharOf(s: bytes, n: nat): int
    requires StartsWithChar(s, n)
  {
    if n == 1 then s[0]
    else if n == 2 then Grouped(s[0] as int - 0xC0, s[1])
    else if n == 3 then Grouped(Grouped(s[0] as int - 0xE0, s[1]), s[2])
    else Grouped(Grouped(Grouped(s[0] as int - 0xF0, s[1]), s[2]), s[3])
  }

  lemma CharRead(s: bytes, n: nat)
    requires StartsWithChar(s, n)
    ensures n <= |s| && CharOf(s, n) >= 0 && Scalar(CharOf(s, n)) && CharBytes(CharOf(s, n)) == s[..n]
  {
    if n == 2 {
      CharRead2(s);
    } else if n == 3 {
      CharRead3(s);
    } else if n == 4 {
      CharRead4(s);
    }
  }

  lemma CharRead2(s: bytes)
    requires StartsWithChar(s, 2)
    ensures |s| >= 2 && 0x80 <= CharOf(s, 2) < 0x800 && CharBytes(CharOf(s, 2)) == s[..2]
  {
    Regrouped(s[0] as int - 0xC0, s[1]);
  }

  lemma Regrouped2(a: int, b: int, c: int)
    requires 0x80 <= b <= 0xBF && 0x80 <= c <= 0xBF
    ensures var n := Grouped(Grouped(a, b), c);
            n / 64 / 64 == a && n / 64 % 64 == b - 0x80 && n % 64 == c - 0x80
  {
    Regrouped(a, b);
    Regrouped(Grouped(a, b), c);
    hide Grouped;
  }

  lemma Regrouped3(a: int, b: int, c: int, d: int)
    requires 0x80 <= b <= 0xBF && 0x80 <= c <= 0xBF && 0x80 <= d <= 0xBF
    ensures var n := Grouped(Grouped(Grouped(a, b), c), d);
            n / 64 / 64 / 64 == a && n / 64 / 64 % 64 == b - 0x80 && n / 64 % 64 == c - 0x80 && n % 64 == d - 0x80
  {
    Regrouped2(a, b, c);
    Regrouped(Grouped(Grouped(a, b), c), d);
    hide Grouped;
  }

  lemma Range3(a: int, b: int, c: int)
    requires 0 <= a <= 15 && 0x80 <= b <= 0xBF && 0x80 <= c <= 0xBF && (a == 0 ==> 0xA0 <= b) && (a == 13 ==> b <= 0x9F)
    ensures 0x800 <= Grouped(Grouped(a, b), c) < 0x1_0000
    ensures Grouped(Grouped(a, b), c) < 0xD800 || 0xE000 <= Grouped(Grouped(a, b), c)
  {
  }

  lemma Range4(a: int, b: int, c: int, d: int)
    requires 0 <= a <= 4 && 0x80 <= b <= 0xBF && 0x80 <= c <= 0xBF && 0x80 <= d <= 0xBF
    requires (a == 0 ==> 0x90 <= b) && (a == 4 ==> b <= 0x8F)
    ensures 0x1_0000 <= Grouped(Grouped(Grouped(a, b), c), d) < 0x11_0000
  {
  }

  lemma CharRead3(s: bytes)
    requires StartsWithChar(s, 3)
    ensures |s| >= 3 && 0x800 <= CharOf(s, 3) < 0x1_0000
    ensures Scalar(CharOf(s, 3)) && CharBytes(CharOf(s, 3)) == s[..3]
  {
    var a := s[0] as int - 0xE0;
    Range3(a, s[1], s[2]);
    Regrouped2(a, s[1], s[2]);
    hide Grouped;
    assert s[..3] == [s[0], s[1], s[2]];
  }

  lemma CharRead4(s: bytes)
    requires StartsWithChar(s, 4)
    ensures |s| >= 4 && 0x1_0000 <= CharOf(s, 4) < 0x11_0000 && CharBytes(CharOf(s, 4)) == s[..4]
  {
    var a := s[0] as int - 0xF0;
    Range4(a, s[1], s[2], s[3]);
    Regrouped3(a, s[1], s[2], s[3]);
    hide Grouped;
    assert s[..4] == [s[0], s[1], s[2], s[3]];
  }

  /** Well-formed UTF-8 is exactly what some text is written as. */
  lemma Utf8Exactly(s: bytes)
    ensures ValidUtf8(s) <==> exists text :: (forall c :: c in text ==> Scalar(c)) && TextBytes(text) == s
  {
    if ValidUtf8(s) {
      var text := ReadText(s);
    }
    if text :| (forall c :: c in text ==> Scalar(c)) && TextBytes(text) == s {
      TextValid(text);
    }
  }

  lemma {:induction false} ReadText(s: bytes) returns (text: seq<nat>)
    requires ValidUtf8(s)
    ensures (forall c :: c in text ==> Scalar(c)) && TextBytes(text) == s
    decreases |s|
  {
    if |s| == 0 {
      text := [];
    } else {
      var n := FirstChar(s);
      hide ValidUtf8;
      var later := ReadText(s[n..]);
      CharRead(s, n);
      text := [CharOf(s, n)] + later;
      hide CharOf, CharBytes, StartsWithChar, Scalar;
      assert text[1..] == later && s == s[..n] + s[n..];
    }
  }

  lemma {:induction false} TextValid(text: seq<nat>)
    requires forall c :: c in text ==> Scalar(c)
    ensures ValidUtf8(TextBytes(text))
  {
    if |text| > 0 {
      var first, later := CharBytes(text[0]), TextBytes(text[1..]);
      TextValid(text[1..]);
      CharStarts(text[0], later);
      hide ValidUtf8, StartsWithChar, CharBytes;
      assert (first + later)[|first|..] == later;
      AnotherChar(first + later, |first|);
    }
  }
}
