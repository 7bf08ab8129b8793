/** The metadata hash of one small map, worked out turn by turn: it fixes the order of the keys, the terminators,
    the offset basis and the prime. */
module HashExample {
  import opened Bits
  import opened MetadataHash
  import opened Wire

  /** An exclusive or of two bytes, from those of their halves. */
  lemma XorByte(a: nat, low: nat, b: nat, bottom: nat)
    requires low < 16 && bottom < 16
    ensures Xor(16 * a + low, 16 * b + bottom) == 16 * Xor(a, b) + Xor(low, bottom)
  {
    assert Pow2(4) == 16;
    XorParted(a, low, b, bottom, 16, 4);
  }

  /** One turn of the hash, worked out: the byte goes into the lowest byte of the state. */
  lemma Turn(high: nat, low: nat, b: byte, mixed: nat, q: nat, next: nat)
    requires 256 * high + low < TWO_TO_THE_64 && low < 256 && mixed == Xor(low, b)
    requires (256 * high + mixed) * 0x100000001B3 == q * 0x1_0000_0000_0000_0000 + next
    requires next < 0x1_0000_0000_0000_0000
    ensures Mix(256 * high + low, b) == next
  {
    XorState(high, low, b);
    MixIs(256 * high + low, b);
    hide Xor, Mix;
    Wrap((256 * high + mixed) * 0x100000001B3, next, q);
  }

  lemma MixIs(h: u64, b: byte)
    ensures Mix(h, b) == Xor(h, b) * 0x100000001B3 % TWO_TO_THE_64
  {
  }

  lemma XorState(high: nat, low: nat, b: byte)
    requires low < 256
    ensures Xor(256 * high + low, b) == 256 * high + Xor(low, b)
  {
    BytePowers();
    XorZero(high);
    hide Xor, Pow2;
    XorParted(high, low, 0, b, 256, 8);
  }

  lemma NextTurn(stream: bytes, i: nat, h: u64)
    requires i < |stream|
    ensures Absorb(h, stream[i..]) == Absorb(Mix(h, stream[i]), stream[i + 1..])
  {
    AbsorbOne(h, stream[i], stream[i + 1..]);
    assert stream[i..] == [stream[i]] + stream[i + 1..];
  }

  lemma ExampleNibbles()
    ensures Xor(2, 6) == 4 && Xor(5, 1) == 4
    ensures Xor(8, 6) == 14 && Xor(12, 1) == 13
    ensures Xor(4, 6) == 2 && Xor(15, 2) == 13
  {
  }

  lemma ExampleBytes()
    ensures Xor(0x25, 0x61) == 0x44
    ensures Xor(0x8C, 0x61) == 0xED
    ensures Xor(0x4F, 0x62) == 0x2D
  {
    ExampleNibbles();
    hide Xor;
    XorByte(2, 5, 6, 1);
    XorByte(8, 12, 6, 1);
    XorByte(4, 15, 6, 2);
  }

  lemma ExampleTurn0()
    ensures Mix(0xCBF2_9CE4_8422_2325, 0x61) == 0xAF63_DC4C_8601_EC8C
  {
    ExampleBytes();
    hide Mix, Xor;
    Turn(0xCBF29CE4842223, 0x25, 0x61, 0x44, 0xCBF29CE5DE, 0xAF63_DC4C_8601_EC8C);
  }

  lemma ExampleTurn1()
    ensures Mix(0xAF63_DC4C_8601_EC8C, 0x61) == 0x089C_4307_B545_96B7
  {
    ExampleBytes();
    hide Mix, Xor;
    Turn(0xAF63DC4C8601EC, 0x8C, 0x61, 0xED, 0xAF63DC4DB0, 0x089C_4307_B545_96B7);
  }

  lemma ExampleTurn2()
    ensures Mix(0x089C_4307_B545_96B7, 0x00) == 0xE71C_9D19_053F_18F5
  {
    XorZero(0xB7);
    hide Mix, Xor;
    Turn(0x89C4307B54596, 0xB7, 0x00, 0xB7, 0x89C4307C3, 0xE71C_9D19_053F_18F5);
  }

  lemma ExampleTurn3()
    ensures Mix(0xE71C_9D19_053F_18F5, 0x00) == 0xF4B7_E683_EA37_684F
  {
    XorZero(0xF5);
    hide Mix, Xor;
    Turn(0xE71C9D19053F18, 0xF5, 0x00, 0xF5, 0xE71C9D1A8D, 0xF4B7_E683_EA37_684F);
  }

  lemma ExampleTurn4()
    ensures Mix(0xF4B7_E683_EA37_684F, 0x62) == 0x0BE4_DF26_FC26_0477
  {
    ExampleBytes();
    hide Mix, Xor;
    Turn(0xF4B7E683EA3768, 0x4F, 0x62, 0x2D, 0xF4B7E6858A, 0x0BE4_DF26_FC26_0477);
  }

  lemma ExampleTurn5()
    ensures Mix(0x0BE4_DF26_FC26_0477, 0x00) == 0x5BEB_A63E_7499_9635
  {
    XorZero(0x77);
    hide Mix, Xor;
    Turn(0xBE4DF26FC2604, 0x77, 0x00, 0x77, 0xBE4DF2710, 0x5BEB_A63E_7499_9635);
  }

  lemma ExampleTurn6()
    ensures Mix(0x5BEB_A63E_7499_9635, 0x00) == 0xCB01_B120_20FA_3C0F
  {
    XorZero(0x35);
    hide Mix, Xor;
    Turn(0x5BEBA63E749996, 0x35, 0x00, 0x35, 0x5BEBA63F10, 0xCB01_B120_20FA_3C0F);
  }

  lemma ExampleHash(stream: bytes)
    requires stream == [0x61, 0x61, 0x00, 0x00, 0x62, 0x00, 0x00]
    ensures Absorb(0xCBF2_9CE4_8422_2325, stream) == 0xCB01_B120_20FA_3C0F
  {
    assert stream[0..] == stream && stream[7..] == [];
    AbsorbNothing(0xCB01_B120_20FA_3C0F);
    hide Absorb, Mix;
    ExampleTurn0();
    NextTurn(stream, 0, 0xCBF2_9CE4_8422_2325);
    ExampleTurn1();
    NextTurn(stream, 1, 0xAF63_DC4C_8601_EC8C);
    ExampleTurn2();
    NextTurn(stream, 2, 0x089C_4307_B545_96B7);
    ExampleTurn3();
    NextTurn(stream, 3, 0xE71C_9D19_053F_18F5);
    ExampleTurn4();
    NextTurn(stream, 4, 0xF4B7_E683_EA37_684F);
    ExampleTurn5();
    NextTurn(stream, 5, 0x0BE4_DF26_FC26_0477);
    ExampleTurn6();
    NextTurn(stream, 6, 0x5BEB_A63E_7499_9635);
  }

  lemma AbsorbNothing(h: u64)
    ensures Absorb(h, []) == h
  {
  }

  /** The hash of {"b": "", "aa": ""}, whose stream is "aa", "", "b", "", each with its NUL; and that of nothing. */
  lemma MetadataHashExample()
    ensures MetadataHash.MetadataHash(map[]) == 0
    ensures MetadataHash.MetadataHash(map[[0x62] := [], [0x61, 0x61] := []]) == 0xCB01_B120_20FA_3C0F
  {
    var m: Metadata := map[[0x62] := [], [0x61, 0x61] := []];
    var n: Metadata := map[[0x61, 0x61] := [], [0x62] := []];
    assert m == n && [0x62] in m;
    assert Less([0x61, 0x61], [0x62]);
    hide Less, Absorb;
    StreamOfTwo([0x61, 0x61], [], [0x62], []);
    hide Stream;
    ExampleHash(Stream(n));
  }
}
