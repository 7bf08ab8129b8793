/** The canonical metadata hash: sort the keys bytewise, join keys and values with NUL terminators,
    and hash the stream with 64-bit FNV-1a. */
module MetadataHash {
  import opened Wire
  import opened Bits

  // ---------------------------------------------------------------- FNV-1a

  const FNV_OFFSET_BASIS := 0xCBF29CE484222325
  const FNV_PRIME := 0x100000001B3
  const FNV_PRIME_INVERSE := 0xCE965057AFF6957B
  const TWO_TO_THE_64 := 0x1_0000_0000_0000_0000

  type u64 = x: int | 0 <= x < TWO_TO_THE_64

  lemma XorStaysIn64Bits(h: u64, b: byte)
    ensures Xor(h, b) < TWO_TO_THE_64
  {
    BytePowers();
    hide Pow2;
    XorBounded(h, b, 64);
  }

  /** One turn of the hash loop. */
  function Mix(h: u64, b: byte): u64 {
    (Xor(h, b) * FNV_PRIME) % TWO_TO_THE_64
  }

  /** The state before a turn, from the state after it. */
  function Unmix(h: u64, b: byte): u64 {
    XorStaysIn64Bits((h * FNV_PRIME_INVERSE) % TWO_TO_THE_64, b);
    Xor((h * FNV_PRIME_INVERSE) % TWO_TO_THE_64, b)
  }

  function Absorb(h: u64, data: bytes): u64 {
    if |data| == 0 then h else Mix(Absorb(h, data[..|data| - 1]), data[|data| - 1])
  }

  function Rewind(h: u64, data: bytes): u64
    decreases |data|
  {
    if |data| == 0 then h else Rewind(Unmix(h, data[|data| - 1]), data[..|data| - 1])
  }

  function Fnv1a(data: bytes): u64 {
    Absorb(FNV_OFFSET_BASIS, data)
  }

  method ComputeFnv1a(data: bytes) returns (hash: u64)
    ensures hash == Fnv1a(data)
  {
    hash := FNV_OFFSET_BASIS;
    for i := 0 to |data|
      invariant hash == Absorb(FNV_OFFSET_BASIS, data[..i])
    {
      assert data[..i + 1][..i] == data[..i];
      XorStaysIn64Bits(hash, data[i]);
      hash := Xor(hash, data[i]);
      hash := (hash * FNV_PRIME) % TWO_TO_THE_64;
    }
    assert data[..|data|] == data;
  }

  /** The FNV prime is odd, so multiplying by it modulo 2^64 can be undone, and the other way round. */
  lemma PrimeUndone(x: u64)
    ensures ((x * FNV_PRIME) % TWO_TO_THE_64 * FNV_PRIME_INVERSE) % TWO_TO_THE_64 == x
    ensures ((x * FNV_PRIME_INVERSE) % TWO_TO_THE_64 * FNV_PRIME) % TWO_TO_THE_64 == x
  {
    var k := FNV_PRIME * FNV_PRIME_INVERSE / TWO_TO_THE_64;
    assert FNV_PRIME * FNV_PRIME_INVERSE == TWO_TO_THE_64 * k + 1;
    MultiplierUndone(x, FNV_PRIME, FNV_PRIME_INVERSE, k);
    MultiplierUndone(x, FNV_PRIME_INVERSE, FNV_PRIME, k);
  }

  lemma MultiplierUndone(x: u64, p: nat, inverse: nat, k: nat)
    requires p * inverse == TWO_TO_THE_64 * k + 1
    ensures ((x * p) % TWO_TO_THE_64 * inverse) % TWO_TO_THE_64 == x
  {
    var q, r := (x * p) / TWO_TO_THE_64, (x * p) % TWO_TO_THE_64;
    calc {
      r * inverse;
      (x * p - TWO_TO_THE_64 * q) * inverse;
      x * (p * inverse) - TWO_TO_THE_64 * (q * inverse);
      x * (TWO_TO_THE_64 * k + 1) - TWO_TO_THE_64 * (q * inverse);
      x + TWO_TO_THE_64 * (x * k - q * inverse);
    }
    Wrap(r * inverse, x, x * k - q * inverse);
  }

  lemma Wrap(y: int, x: u64, z: int)
    requires y == x + TWO_TO_THE_64 * z
    ensures y % TWO_TO_THE_64 == x
  {
  }

  lemma {:induction false} MixBijective(h: u64, b: byte)
    ensures Unmix(Mix(h, b), b) == h && Mix(Unmix(h, b), b) == h
  {
    XorStaysIn64Bits(h, b);
    PrimeUndone(Xor(h, b));
    XorUndone(h, b);
    PrimeUndone(h);
    XorUndone((h * FNV_PRIME_INVERSE) % TWO_TO_THE_64, b);
  }

  /** From one state, two different bytes lead to two different states. */
  lemma MixSeparatesBytes(h: u64, b: byte, c: byte)
    requires Mix(h, b) == Mix(h, c)
    ensures b == c
  {
    XorStaysIn64Bits(h, b);
    XorStaysIn64Bits(h, c);
    PrimeUndone(Xor(h, b));
    PrimeUndone(Xor(h, c));
    XorUndone(h, b);
    XorUndone(h, c);
  }

  /** Hashing any fixed data is a bijection on 64-bit states. */
  lemma {:induction false} AbsorbBijective(h: u64, data: bytes)
    ensures Rewind(Absorb(h, data), data) == h
    ensures Absorb(Rewind(h, data), data) == h
    decreases |data|
  {
    if |data| > 0 {
      var front, last := data[..|data| - 1], data[|data| - 1];
      MixBijective(Absorb(h, front), last);
      AbsorbBijective(h, front);
      MixBijective(h, last);
      AbsorbBijective(Unmix(h, last), front);
    }
  }

  lemma {:induction false} AbsorbConcat(h: u64, a: bytes, b: bytes)
    ensures Absorb(h, a + b) == Absorb(Absorb(h, a), b)
    decreases |b|
  {
    if |b| == 0 {
      assert a + b == a;
    } else {
      AbsorbConcat(h, a, b[..|b| - 1]);
      assert (a + b)[..|a + b| - 1] == a + b[..|b| - 1];
    }
  }

  function WithByte(s: bytes, i: nat, c: byte): bytes
    requires i < |s|
  {
    s[i := c]
  }

  /** Replacing one byte of the input, anywhere, by another always changes the hash. */
  lemma Fnv1aDetectsOneByte(data: bytes, i: nat, c: byte)
    requires i < |data| && data[i] != c
    ensures Fnv1a(data) != Fnv1a(WithByte(data, i, c))
  {
    var before, after := data[..i], data[i + 1..];
    var h := Absorb(FNV_OFFSET_BASIS, before);
    assert data == before + ([data[i]] + after) && WithByte(data, i, c) == before + ([c] + after);
    AbsorbConcat(FNV_OFFSET_BASIS, before, [data[i]] + after);
    AbsorbConcat(FNV_OFFSET_BASIS, before, [c] + after);
    AbsorbOne(h, data[i], after);
    AbsorbOne(h, c, after);
    if Fnv1a(data) == Fnv1a(WithByte(data, i, c)) {
      AbsorbBijective(Mix(h, data[i]), after);
      AbsorbBijective(Mix(h, c), after);
      MixSeparatesBytes(h, data[i], c);
    }
  }

  lemma AbsorbOne(h: u64, b: byte, after: bytes)
    ensures Absorb(h, [b] + after) == Absorb(Mix(h, b), after)
  {
    AbsorbConcat(h, [b], after);
    assert [b][..0] == [];
    assert Absorb(h, [b]) == Mix(h, b);
  }

  // ---------------------------------------------------------------- bytewise order

  /** Python's order on byte strings. */
  predicate Less(a: bytes, b: bytes) {
    |b| > 0 && (|a| == 0 || a[0] < b[0] || (a[0] == b[0] && Less(a[1..], b[1..])))
  }

  lemma {:induction false} LessTransitive(a: bytes, b: bytes, c: bytes)
    requires Less(a, b) && Less(b, c)
    ensures Less(a, c) && a != c
  {
    if |a| > 0 && a[0] == b[0] == c[0] {
      LessTransitive(a[1..], b[1..], c[1..]);
    }
  }

  lemma {:induction false} LessTotal(a: bytes, b: bytes)
    ensures Less(a, b) || a == b || Less(b, a)
    ensures !(Less(a, b) && (a == b || Less(b, a)))
  {
    if |a| > 0 && |b| > 0 && a[0] == b[0] {
      LessTotal(a[1..], b[1..]);
      assert a == [a[0]] + a[1..] && b == [b[0]] + b[1..];
    }
  }

  /** What bytewise order means: `a` is a proper prefix of `b`, or at the first place where they differ `a` has the
      smaller byte. */
  ghost predicate Precedes(a: bytes, b: bytes) {
    (|a| < |b| && a == b[..|a|]) || exists i :: SmallerAt(a, b, i)
  }

  ghost predicate SmallerAt(a: bytes, b: bytes, i: int) {
    0 <= i < |a| && i < |b| && a[..i] == b[..i] && a[i] < b[i]
  }

  lemma {:induction false} LessPrecedes(a: bytes, b: bytes)
    ensures Less(a, b) <==> Precedes(a, b)
  {
    if |a| > 0 && |b| > 0 {
      if a[0] == b[0] {
        LessPrecedes(a[1..], b[1..]);
        hide Less;
        PrecedesTail(a, b);
        LessTail(a, b);
      } else if a[0] < b[0] {
        assert SmallerAt(a, b, 0);
      } else {
        assert forall i :: 0 < i <= |a| && i <= |b| ==> a[..i][0] != b[..i][0];
      }
    } else if |b| > 0 {
      assert a == b[..0];
    }
  }

  lemma LessTail(a: bytes, b: bytes)
    requires |a| > 0 && |b| > 0 && a[0] == b[0]
    ensures Less(a, b) <==> Less(a[1..], b[1..])
  {
  }

  lemma PrecedesTail(a: bytes, b: bytes)
    requires |a| > 0 && |b| > 0 && a[0] == b[0]
    ensures Precedes(a, b) <==> Precedes(a[1..], b[1..])
  {
    var c, d := a[1..], b[1..];
    PrefixTail(a, b);
    forall i | SmallerAt(a, b, i) ensures SmallerAt(c, d, i - 1) {
      assert c[..i - 1] == a[..i][1..] && d[..i - 1] == b[..i][1..];
    }
    forall i | SmallerAt(c, d, i) ensures SmallerAt(a, b, i + 1) {
      assert a[..i + 1] == [a[0]] + c[..i] && b[..i + 1] == [a[0]] + d[..i];
    }
    hide SmallerAt;
  }

  lemma PrefixTail(a: bytes, b: bytes)
    requires |a| > 0 && |b| > 0 && a[0] == b[0]
    ensures |a| < |b| ==> (a == b[..|a|] <==> a[1..] == b[1..][..|a| - 1])
  {
    if |a| < |b| {
      assert b[..|a|] == [a[0]] + b[1..][..|a| - 1] && a == [a[0]] + a[1..];
    }
  }

  predicate Ascending(keys: seq<bytes>) {
    forall i, j :: 0 <= i < j < |keys| ==> Less(keys[i], keys[j])
  }

  function Members(keys: seq<bytes>): set<bytes> {
    set k | k in keys
  }

  /** There is only one way to list a set of keys in ascending order. */
  lemma {:induction false} AscendingUnique(a: seq<bytes>, b: seq<bytes>)
    requires Ascending(a) && Ascending(b) && Members(a) == Members(b)
    ensures a == b
  {
    NoMembers(a);
    NoMembers(b);
    if |a| > 0 {
      assert a[0] in Members(b) && b != [] && b[0] in Members(a);
      LessTotal(a[0], b[0]);
      assert a[0] == b[0];
      TailMembers(a);
      TailMembers(b);
      AscendingUnique(a[1..], b[1..]);
    }
  }

  lemma NoMembers(a: seq<bytes>)
    ensures Members(a) == {} <==> a == []
  {
    if |a| > 0 {
      assert a[0] in Members(a);
    }
  }

  lemma TailMembers(a: seq<bytes>)
    requires Ascending(a) && |a| > 0
    ensures Ascending(a[1..]) && Members(a[1..]) == Members(a) - {a[0]}
  {
    LessTotal(a[0], a[0]);
    assert forall k :: k in a[1..] ==> Less(a[0], k);
    assert forall k :: k in a ==> k == a[0] || k in a[1..];
  }

  /** A key put into its place in an ascending list. */
  function Insert(keys: seq<bytes>, k: bytes): seq<bytes> {
    if |keys| == 0 then [k]
    else if Less(k, keys[0]) then [k] + keys
    else [keys[0]] + Insert(keys[1..], k)
  }

  lemma ConsAscends(k: bytes, keys: seq<bytes>)
    requires Ascending(keys) && forall x :: x in keys ==> Less(k, x)
    ensures Ascending([k] + keys) && Members([k] + keys) == {k} + Members(keys)
  {
  }

  lemma {:induction false} InsertAscends(keys: seq<bytes>, k: bytes)
    requires Ascending(keys) && k !in keys
    ensures Ascending(Insert(keys, k)) && Members(Insert(keys, k)) == Members(keys) + {k}
  {
    if |keys| == 0 {
    } else if Less(k, keys[0]) {
      forall x | x in keys ensures Less(k, x) {
        if x != keys[0] { LessTransitive(k, keys[0], x); }
      }
      ConsAscends(k, keys);
    } else {
      var first, rest := keys[0], Insert(keys[1..], k);
      TailMembers(keys);
      InsertAscends(keys[1..], k);
      LessTotal(k, first);
      forall x | x in rest ensures Less(first, x) {
        assert x in Members(rest);
      }
      ConsAscends(first, rest);
    }
  }

  lemma {:induction false} SortedExists(keys: set<bytes>)
    ensures exists s :: Ascending(s) && Members(s) == keys
  {
    if keys == {} {
      assert Ascending([]) && Members([]) == {};
    } else {
      var k :| k in keys;
      SortedExists(keys - {k});
      var s :| Ascending(s) && Members(s) == keys - {k};
      assert k !in s by { assert k !in Members(s); }
      InsertAscends(s, k);
    }
  }

  ghost function Sorted(keys: set<bytes>): (s: seq<bytes>)
    ensures Ascending(s) && Members(s) == keys
  {
    SortedExists(keys);
    var s :| Ascending(s) && Members(s) == keys;
    s
  }

  // ---------------------------------------------------------------- the canonical stream

  type Metadata = map<bytes, bytes>

  function Join(keys: seq<bytes>, m: Metadata): bytes
    requires forall k :: k in keys ==> k in m
  {
    if |keys| == 0 then [] else Entry(keys[0], m[keys[0]]) + Join(keys[1..], m)
  }

  /** A key and its value, each with its NUL terminator. */
  function Entry(k: bytes, v: bytes): bytes {
    k + [0] + v + [0]
  }

  ghost function Stream(m: Metadata): bytes {
    assert forall k :: k in Sorted(m.Keys) ==> k in Members(Sorted(m.Keys));
    Join(Sorted(m.Keys), m)
  }

  ghost function MetadataHash(m: Metadata): u64 {
    if m == map[] then 0 else Fnv1a(Stream(m))
  }

  /** `order` is an order in which a dictionary holding `m` may list its keys. */
  ghost predicate ListsKeys(order: seq<bytes>, m: Metadata) {
    Members(order) == m.Keys && forall i, j :: 0 <= i < j < |order| ==> order[i] != order[j]
  }

  /** The result lists every key once, each before the ones it precedes; there is only one such list. */
  method SortKeys(order: seq<bytes>) returns (keys: seq<bytes>)
    requires forall i, j :: 0 <= i < j < |order| ==> order[i] != order[j]
    ensures (forall k :: k in keys <==> k in order) && |keys| == |order|
    ensures forall i, j :: 0 <= i < j < |keys| ==> Precedes(keys[i], keys[j])
    ensures keys == Sorted(Members(order))
  {
    keys := [];
    for i := 0 to |order|
      invariant Ascending(keys) && Members(keys) == Members(order[..i]) && |keys| == i
    {
      assert order[i] !in keys by { assert order[i] !in Members(order[..i]); }
      InsertAscends(keys, order[i]);
      InsertLength(keys, order[i]);
      keys := Insert(keys, order[i]);
      assert Members(order[..i + 1]) == Members(order[..i]) + {order[i]};
    }
    assert order[..|order|] == order;
    AscendingUnique(keys, Sorted(Members(order)));
    SameMembers(keys, order);
    AscendingPrecedes(keys);
  }

  lemma InsertLength(keys: seq<bytes>, k: bytes)
    ensures |Insert(keys, k)| == |keys| + 1
  {
  }

  lemma SameMembers(a: seq<bytes>, b: seq<bytes>)
    requires Members(a) == Members(b)
    ensures forall k :: k in a <==> k in b
  {
    assert forall k :: k in a <==> k in Members(a);
    assert forall k :: k in b <==> k in Members(b);
  }

  lemma AscendingPrecedes(keys: seq<bytes>)
    requires Ascending(keys)
    ensures forall i, j :: 0 <= i < j < |keys| ==> Precedes(keys[i], keys[j])
  {
    hide Less, Precedes;
    forall i, j | 0 <= i < j < |keys| ensures Precedes(keys[i], keys[j]) {
      LessPrecedes(keys[i], keys[j]);
    }
  }

  lemma JoinStep(keys: seq<bytes>, m: Metadata, i: nat)
    requires i < |keys| && forall k :: k in keys ==> k in m
    ensures Join(keys[i..], m) == Entry(keys[i], m[keys[i]]) + Join(keys[i + 1..], m)
  {
    hide Entry;
    assert keys[i..][1..] == keys[i + 1..];
  }

  lemma EntryAppended(before: bytes, k: bytes, v: bytes, rest: bytes)
    ensures before + k + [0] + v + [0] + rest == before + (Entry(k, v) + rest)
  {
  }

  method Concatenate(keys: seq<bytes>, m: Metadata) returns (concatenated: bytes)
    requires forall k :: k in keys ==> k in m
    ensures concatenated == Join(keys, m)
  {
    hide Join, Entry;
    concatenated := [];
    assert keys[0..] == keys;
    for i := 0 to |keys|
      invariant concatenated + Join(keys[i..], m) == Join(keys, m)
    {
      JoinStep(keys, m, i);
      EntryAppended(concatenated, keys[i], m[keys[i]], Join(keys[i + 1..], m));
      concatenated := concatenated + keys[i];
      concatenated := concatenated + [0];
      concatenated := concatenated + m[keys[i]];
      concatenated := concatenated + [0];
    }
    assert keys[|keys|..] == [];
    JoinNone(m);
    assert concatenated + [] == concatenated;
  }

  lemma JoinNone(m: Metadata)
    ensures Join([], m) == []
  {
  }

  /** Whatever order the dictionary was filled in, the hash is that of the map it stands for. */
  method ComputeMetadataHash(m: Metadata, order: seq<bytes>) returns (hash: u64)
    requires ListsKeys(order, m)
    ensures hash == MetadataHash(m)
  {
    if |order| == 0 {
      assert m.Keys == {};
      return 0;
    }
    assert order[0] in Members(order);
    assert order[0] in m.Keys && m != map[];
    var keys := SortKeys(order);
    assert forall k :: k in keys ==> k in Members(keys);
    var concatenated := Concatenate(keys, m);
    hash := ComputeFnv1a(concatenated);
  }

  predicate NulFree(s: bytes) {
    forall i :: 0 <= i < |s| ==> s[i] != 0
  }

  ghost predicate AllNulFree(m: Metadata) {
    forall k :: k in m ==> NulFree(k) && NulFree(m[k])
  }

  /** Splits at the first NUL. */
  function TakeTerminated(s: bytes): Option<(bytes, bytes)> {
    if |s| == 0 then None
    else if s[0] == 0 then Some(([], s[1..]))
    else
      match TakeTerminated(s[1..])
      case None => None
      case Some((head, rest)) => Some(([s[0]] + head, rest))
  }

  lemma {:induction false} TakeTerminatedShrinks(s: bytes)
    ensures TakeTerminated(s).Some? ==> |TakeTerminated(s).value.1| < |s|
  {
    if |s| > 0 && s[0] != 0 {
      TakeTerminatedShrinks(s[1..]);
    }
  }

  /** Reads a canonical stream back into a map. */
  function Recover(s: bytes): Metadata
    decreases |s|
  {
    TakeTerminatedShrinks(s);
    match TakeTerminated(s)
    case None => map[]
    case Some((k, afterKey)) =>
      TakeTerminatedShrinks(afterKey);
      match TakeTerminated(afterKey)
      case None => map[]
      case Some((v, rest)) => Recover(rest)[k := v]
  }

  lemma {:induction false} TakeTerminatedInverts(s: bytes, rest: bytes)
    requires NulFree(s)
    ensures TakeTerminated(s + [0] + rest) == Some((s, rest))
  {
    var whole := s + [0] + rest;
    if |s| == 0 {
      assert whole[1..] == rest;
    } else {
      assert whole[1..] == s[1..] + [0] + rest;
      TakeTerminatedInverts(s[1..], rest);
      assert [s[0]] + s[1..] == s;
    }
  }

  lemma RecoverEntry(k: bytes, v: bytes, rest: bytes)
    requires NulFree(k) && NulFree(v)
    ensures Recover(Entry(k, v) + rest) == Recover(rest)[k := v]
  {
    assert Entry(k, v) + rest == k + [0] + (v + [0] + rest);
    TakeTerminatedInverts(k, v + [0] + rest);
    TakeTerminatedInverts(v, rest);
  }

  lemma {:induction false} RecoverJoin(keys: seq<bytes>, m: Metadata)
    requires Ascending(keys) && (forall k :: k in keys ==> k in m) && AllNulFree(m)
    ensures Recover(Join(keys, m)) == map k | k in Members(keys) :: m[k]
  {
    if |keys| > 0 {
      var k := keys[0];
      TailMembers(keys);
      RecoverJoin(keys[1..], m);
      RecoverEntry(k, m[k], Join(keys[1..], m));
      assert k in Members(keys);
    }
  }

  /** On NUL-free metadata the stream determines the map. */
  lemma RecoverStream(m: Metadata)
    requires AllNulFree(m)
    ensures Recover(Stream(m)) == m
  {
    var keys := Sorted(m.Keys);
    assert forall k :: k in keys <==> k in Members(keys);
    RecoverJoin(keys, m);
  }

  lemma StreamInjective(a: Metadata, b: Metadata)
    requires AllNulFree(a) && AllNulFree(b)
    ensures Stream(a) == Stream(b) <==> a == b
  {
    RecoverStream(a);
    RecoverStream(b);
  }

  // ---------------------------------------------------------------- maps that share a stream

  /** The stream starts with the entry of the least key. */
  lemma FirstEntry(m: Metadata) returns (k: bytes, rest: bytes)
    requires m != map[]
    ensures k in m && Stream(m) == Entry(k, m[k]) + rest
    ensures rest == [] <==> m == map[k := m[k]]
    ensures rest != [] ==> rest[|rest| - 1] == 0
  {
    var keys := Sorted(m.Keys);
    assert keys != [] by {
      NoMembers(keys);
      var x :| x in m;
      assert x in m.Keys;
    }
    assert forall x :: x in keys <==> x in Members(keys);
    k, rest := keys[0], Join(keys[1..], m);
    TailMembers(keys);
    NoMembers(keys[1..]);
    JoinTerminated(keys[1..], m);
    hide Join, Entry, Less, Ascending;
    assert m == map[k := m[k]] <==> m.Keys - {k} == {};
  }

  lemma {:induction false} JoinTerminated(keys: seq<bytes>, m: Metadata)
    requires forall k :: k in keys ==> k in m
    ensures keys == [] <==> Join(keys, m) == []
    ensures var s := Join(keys, m);
            s != [] ==> s[|s| - 1] == 0
  {
    if |keys| > 0 {
      JoinTerminated(keys[1..], m);
    }
  }

  lemma StreamOfNone()
    ensures Stream(map[]) == []
  {
    var none: Metadata := map[];
    NoMembers(Sorted(none.Keys));
  }

  lemma StreamOfOne(k: bytes, v: bytes)
    ensures Stream(map[k := v]) == Entry(k, v)
  {
    var m: Metadata := map[k := v];
    assert k in m;
    var first, rest := FirstEntry(m);
    hide Stream, Entry;
    assert first == k && m[k] == v;
    assert rest == [];
    assert Entry(k, v) + [] == Entry(k, v);
  }

  lemma StreamOfTwo(k: bytes, v: bytes, l: bytes, w: bytes)
    requires Less(k, l)
    ensures Stream(map[k := v, l := w]) == Entry(k, v) + Entry(l, w)
  {
    var m: Metadata := map[k := v, l := w];
    var keys: seq<bytes> := [k, l];
    LessTotal(k, l);
    assert Members(keys) == m.Keys;
    AscendingUnique(keys, Sorted(m.Keys));
    hide Entry, Less, Ascending;
    JoinStep(keys, m, 0);
    JoinStep(keys, m, 1);
    JoinNone(m);
    assert keys[0..] == keys && keys[2..] == [];
    assert Entry(l, w) + [] == Entry(l, w);
  }

  /** All keys and values are text, as the strings of the source's dictionaries are. */
  ghost predicate AllUtf8(m: Metadata) {
    forall k :: k in m ==> ValidUtf8(k) && ValidUtf8(m[k])
  }

  lemma EntryUtf8(k: bytes, v: bytes)
    ensures ValidUtf8(Entry(k, v)) <==> ValidUtf8(k) && ValidUtf8(v)
  {
    var nul: bytes := [0];
    hide ValidUtf8;
    assert ValidUtf8(nul) by { NulIsText(); }
    assert Entry(k, v) == k + nul + (v + nul) && v + nul == v + nul + [];
    if ValidUtf8(k) && ValidUtf8(v) {
      Utf8Concat(k, nul);
      Utf8Concat(v, nul);
      Utf8Concat(k + nul, v + nul);
    }
    if ValidUtf8(Entry(k, v)) {
      Utf8Split(k, v + nul);
      Utf8Split(v, []);
    }
  }

  lemma NulIsText()
    ensures ValidUtf8([0])
  {
    var nul: bytes := [0];
    assert nul[1..] == [];
  }

  lemma {:induction false} JoinUtf8(keys: seq<bytes>, m: Metadata)
    requires AllUtf8(m) && forall k :: k in keys ==> k in m
    ensures ValidUtf8(Join(keys, m))
  {
    if |keys| > 0 {
      JoinUtf8(keys[1..], m);
      EntryUtf8(keys[0], m[keys[0]]);
      hide ValidUtf8, Entry;
      Utf8Concat(Entry(keys[0], m[keys[0]]), Join(keys[1..], m));
    }
  }

  lemma StreamUtf8(m: Metadata)
    requires AllUtf8(m)
    ensures ValidUtf8(Stream(m))
  {
    assert forall k :: k in Sorted(m.Keys) ==> k in Members(Sorted(m.Keys));
    JoinUtf8(Sorted(m.Keys), m);
  }

  /** Every NUL of a stream but its last can be taken for the one that ends a key; if the stream is text, so are
      the key and the value. */
  lemma SplitStream(m: Metadata, p: nat) returns (n: Metadata)
    requires p < |Stream(m)| - 1 && Stream(m)[p] == 0
    ensures |n| == 1 && Stream(n) == Stream(m)
    ensures AllUtf8(m) ==> AllUtf8(n)
    ensures forall k :: k in n ==> |k| == p
  {
    if m == map[] {
      StreamOfNone();
    }
    var first, rest := FirstEntry(m);
    var s := Stream(m);
    hide Stream;
    assert s[|s| - 1] == 0;
    var k, v := s[..p], s[p + 1..|s| - 1];
    n := map[k := v];
    StreamOfOne(k, v);
    hide ValidUtf8;
    assert s == Entry(k, v);
    if AllUtf8(m) {
      StreamUtf8(m);
      EntryUtf8(k, v);
    }
  }

  /** Two maps with one stream have one hash. */
  lemma StreamDeterminesHash(m: Metadata, n: Metadata)
    requires Stream(m) == Stream(n)
    ensures MetadataHash(m) == MetadataHash(n)
  {
    StreamOfNone();
    if m != map[] {
      var k, rest := FirstEntry(m);
    }
    if n != map[] {
      var k, rest := FirstEntry(n);
    }
    hide Stream, Fnv1a;
  }

  /** A NUL inside a key or a value always leads to a collision, as does a second entry: another map has
      the same stream, and so the same hash. */
  lemma Collides(m: Metadata) returns (n: Metadata)
    requires |m| >= 2 || !AllNulFree(m)
    ensures n != m && Stream(n) == Stream(m) && MetadataHash(n) == MetadataHash(m)
    ensures AllUtf8(m) ==> AllUtf8(n)
  {
    assert m != map[];
    var k, rest := FirstEntry(m);
    var v, s := m[k], Stream(m);
    hide Stream, MetadataHash, AllUtf8;
    assert s[|k|] == 0;
    if rest != [] {
      n := SplitStream(m, |k|);
      assert |map[k := v]| == 1;
      OneOfMany(m, k);
    } else if !NulFree(k) {
      var i :| 0 <= i < |k| && k[i] == 0;
      assert s[i] == 0;
      n := SplitStream(m, i);
      assert k in m;
    } else {
      assert !NulFree(v);
      var i :| 0 <= i < |v| && v[i] == 0;
      assert s[|k| + 1 + i] == 0;
      n := SplitStream(m, |k| + 1 + i);
      assert k in m;
    }
    StreamDeterminesHash(n, m);
  }

  lemma OneOfMany(m: Metadata, k: bytes)
    requires k in m && m != map[k := m[k]]
    ensures |m| != 1
  {
    var x :| x in m && x != k;
    assert m.Keys == {x, k} + (m.Keys - {x, k}) && |{x, k}| == 2;
  }

  /** An entry without inner NULs starts no stream but its own. */
  lemma EntryDetermined(k: bytes, v: bytes, l: bytes, w: bytes, rest: bytes)
    requires NulFree(k) && NulFree(v) && Entry(k, v) == Entry(l, w) + rest
    ensures k == l && v == w && rest == []
  {
    var s := Entry(k, v);
    assert forall i :: 0 <= i < |s| && s[i] == 0 ==> i == |k| || i == |s| - 1;
    assert s[|l|] == 0 && s[|l| + 1 + |w|] == 0;
    assert s[..|k|] == k && s[..|l|] == l;
    assert s[|k| + 1..|s| - 1] == v && s[|l| + 1..|l| + 1 + |w|] == w;
  }

  /** Which maps share their stream with another: exactly those with two entries or more, and those with a
      NUL inside a key or a value.  If the map holds text, so does some such other. */
  lemma StreamSharedExactly(m: Metadata)
    ensures (exists n: Metadata :: n != m && Stream(n) == Stream(m)) <==> |m| >= 2 || !AllNulFree(m)
    ensures (exists n: Metadata :: n != m && Stream(n) == Stream(m) && (AllUtf8(m) ==> AllUtf8(n)))
       <==> |m| >= 2 || !AllNulFree(m)
  {
    hide Stream, AllUtf8;
    if |m| >= 2 || !AllNulFree(m) {
      var n := Collides(m);
    } else {
      forall n: Metadata | Stream(n) == Stream(m) ensures n == m {
        StreamUnshared(m, n);
      }
    }
  }

  lemma StreamUnshared(m: Metadata, n: Metadata)
    requires |m| < 2 && AllNulFree(m) && Stream(n) == Stream(m)
    ensures n == m
  {
    StreamOfNone();
    if n == map[] || m == map[] {
      if m != map[] {
        var k, rest := FirstEntry(m);
      } else if n != map[] {
        var l, more := FirstEntry(n);
      }
    } else {
      var k, rest := FirstEntry(m);
      var l, more := FirstEntry(n);
      hide Stream, Entry;
      if m != map[k := m[k]] {
        OneOfMany(m, k);
      }
      assert Entry(k, m[k]) + [] == Entry(k, m[k]);
      EntryDetermined(k, m[k], l, n[l], more);
    }
  }

  /** With a NUL inside a key or a value the map is never determined by its stream, nor by its hash. */
  lemma NulBytesCollide(m: Metadata)
    requires !AllNulFree(m)
    ensures exists n: Metadata ::
      n != m && Stream(n) == Stream(m) && MetadataHash(n) == MetadataHash(m) && (AllUtf8(m) ==> AllUtf8(n))
  {
    var n := Collides(m);
  }

  /** The smallest example: two different maps, one stream, one hash. */
  lemma NulByteExample()
    ensures var a: Metadata := map[[1] := [2, 0, 3, 0, 4]];
            var b: Metadata := map[[1] := [2], [3] := [4]];
            a != b && Stream(a) == Stream(b) && MetadataHash(a) == MetadataHash(b)
  {
    var a: Metadata := map[[1] := [2, 0, 3, 0, 4]];
    var b: Metadata := map[[1] := [2], [3] := [4]];
    EntriesAlike();
    hide Stream, MetadataHash, Entry, Less;
    StreamOfOne([1], [2, 0, 3, 0, 4]);
    StreamOfTwo([1], [2], [3], [4]);
    assert |a[[1]]| == 5 && |b[[1]]| == 1;
    StreamDeterminesHash(a, b);
  }

  lemma EntriesAlike()
    ensures Entry([1], [2, 0, 3, 0, 4]) == Entry([1], [2]) + Entry([3], [4])
    ensures Less([1], [3])
  {
  }

  /** Where the value of `k` sits in the stream: the same place whatever the value is. */
  lemma {:induction false} JoinAround(keys: seq<bytes>, m: Metadata, k: bytes) returns (before: bytes, after: bytes)
    requires Ascending(keys) && (forall x :: x in keys ==> x in m) && k in keys
    ensures forall v: bytes :: Join(keys, m[k := v]) == before + v + after
  {
    if keys[0] == k {
      before, after := k + [0], [0] + Join(keys[1..], m);
      TailMembers(keys);
      assert k !in keys[1..] by { assert k !in Members(keys[1..]); }
      forall v: bytes ensures Join(keys, m[k := v]) == before + v + after {
        JoinCongruent(keys[1..], m, m[k := v]);
      }
    } else {
      TailMembers(keys);
      var b;
      b, after := JoinAround(keys[1..], m, k);
      before := Entry(keys[0], m[keys[0]]) + b;
      forall v: bytes ensures Join(keys, m[k := v]) == before + v + after {
        var rest := Join(keys[1..], m[k := v]);
        assert rest == b + v + after;
      }
    }
  }

  lemma {:induction false} JoinCongruent(keys: seq<bytes>, m: Metadata, n: Metadata)
    requires forall k :: k in keys ==> k in m && k in n && m[k] == n[k]
    ensures Join(keys, m) == Join(keys, n)
  {
    if |keys| > 0 {
      JoinCongruent(keys[1..], m, n);
    }
  }

  /** Changing one byte of one metadata value always changes the metadata hash. */
  lemma MetadataHashDetectsOneByte(m: Metadata, k: bytes, i: nat, c: byte)
    requires k in m && i < |m[k]| && m[k][i] != c
    ensures MetadataHash(m) != MetadataHash(m[k := WithByte(m[k], i, c)])
  {
    var v, w, keys := m[k], WithByte(m[k], i, c), Sorted(m.Keys);
    assert k in Members(keys);
    assert forall x :: x in keys ==> x in Members(keys);
    var before, after := JoinAround(keys, m, k);
    assert m[k := v] == m && m[k := w].Keys == m.Keys;
    assert Stream(m) == before + v + after && Stream(m[k := w]) == before + w + after;
    assert Stream(m[k := w]) == WithByte(Stream(m), |before| + i, c);
    Fnv1aDetectsOneByte(Stream(m), |before| + i, c);
  }
}
