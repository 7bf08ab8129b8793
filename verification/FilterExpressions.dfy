/** Filter expressions: a tree of predicates written in prefix order, and the decoder that section 6.7
    of the HMMP specification v07 lays down for it. */
module FilterExpressions {
  import opened Wire
  import opened Codec

  const LEAF := 0x01
  const AND := 0x02
  const OR := 0x03
  const NOT := 0x04

  datatype FilterExpression = FilterExpression(
    nodeType: nat,
    key: bytes,
    operator: nat,
    operand: bytes,
    children: seq<FilterExpression>)

  function Leaf(key: bytes, operator: nat, operand: bytes): FilterExpression {
    FilterExpression(LEAF, key, operator, operand, [])
  }

  /** `and_`, `or_` and `not_`. */
  function Combine(nodeType: nat, children: seq<FilterExpression>): FilterExpression {
    FilterExpression(nodeType, [], 0, [], children)
  }

  // ---------------------------------------------------------------- encoding

  function ToBytes(e: FilterExpression): bytes
    decreases e, 1
  {
    Masked(e.nodeType, 1) +
    if e.nodeType == LEAF then Prefixed(e.key, 1) + (Masked(e.operator, 1) + Prefixed(e.operand, 2))
    else if e.nodeType == AND || e.nodeType == OR then Masked(|e.children|, 1) + AllToBytes(e.children)
    else if e.nodeType == NOT && |e.children| > 0 then ToBytes(e.children[0])
    else []
  }

  function AllToBytes(es: seq<FilterExpression>): bytes
    decreases es, 0
  {
    if |es| == 0 then [] else ToBytes(es[0]) + AllToBytes(es[1..])
  }

  method WriteFilter(e: FilterExpression) returns (out: bytes)
    ensures out == ToBytes(e)
    decreases e, 1
  {
    hide Prefixed, Masked, AllToBytes;
    var writer := new BinaryWriter();
    writer.WriteUint(e.nodeType, 1);
    assert writer.buffer == Masked(e.nodeType, 1);
    if e.nodeType == LEAF {
      writer.WriteString(e.key, 1);
      writer.WriteUint(e.operator, 1);
      writer.WriteString(e.operand, 2);
      assert writer.buffer
          == Masked(e.nodeType, 1) + (Prefixed(e.key, 1) + (Masked(e.operator, 1) + Prefixed(e.operand, 2)));
    } else if e.nodeType == AND || e.nodeType == OR {
      writer.WriteUint(|e.children|, 1);
      WriteAll(writer, e.children);
      assert writer.buffer == Masked(e.nodeType, 1) + (Masked(|e.children|, 1) + AllToBytes(e.children));
    } else if e.nodeType == NOT {
      if |e.children| > 0 {
        var child := WriteFilter(e.children[0]);
        writer.WriteBytes(child);
      }
    }
    out := writer.buffer;
  }

  /** The loop over the children. */
  method WriteAll(writer: BinaryWriter, es: seq<FilterExpression>)
    modifies writer
    ensures writer.buffer == old(writer.buffer) + AllToBytes(es)
    decreases es, 0
  {
    hide ToBytes;
    for i := 0 to |es|
      invariant writer.buffer + AllToBytes(es[i..]) == old(writer.buffer) + AllToBytes(es)
    {
      ghost var before := writer.buffer;
      assert es[i..][0] == es[i] && es[i..][1..] == es[i + 1..];
      var child := WriteFilter(es[i]);
      writer.WriteBytes(child);
      assert before + AllToBytes(es[i..]) == writer.buffer + AllToBytes(es[i + 1..]);
    }
    assert writer.buffer + [] == writer.buffer;
  }

  // ---------------------------------------------------------------- decoding

  function FromBytes(s: bytes): (r: Result<(FilterExpression, bytes)>)
    ensures r.Ok? ==> |r.value.1| < |s|
    decreases |s|, 0
  {
    var (tag, s1) :- TakeByte(s);
    if tag == LEAF then
      var (key, s2) :- TakePrefixed(s1, 1);
      var (operator, s3) :- TakeByte(s2);
      var (operand, rest) :- TakePrefixed(s3, 2);
      Ok((Leaf(key, operator, operand), rest))
    else if tag == AND || tag == OR then
      var (count, s2) :- TakeByte(s1);
      var (children, rest) :- AllFromBytes(s2, count);
      Ok((Combine(tag, children), rest))
    else if tag == NOT then
      var (child, rest) :- FromBytes(s1);
      Ok((Combine(tag, [child]), rest))
    else Err(BadValue)
  }

  function AllFromBytes(s: bytes, count: nat): (r: Result<(seq<FilterExpression>, bytes)>)
    ensures r.Ok? ==> |r.value.1| <= |s|
    decreases |s|, count
  {
    if count == 0 then Ok(([], s)) else
    var (first, s1) :- FromBytes(s);
    var (others, rest) :- AllFromBytes(s1, count - 1);
    Ok(([first] + others, rest))
  }

  // ---------------------------------------------------------------- unique decodability

  /** What `leaf`, `and_`, `or_` and `not_` build from strings and child lists that fit their prefixes. */
  predicate WellFormed(e: FilterExpression)
    decreases e, 1
  {
    if e.nodeType == LEAF then |e.key| < 256 && e.operator < 256 && |e.operand| < 0x1_0000 && e.children == []
    else
      && e.key == [] && e.operator == 0 && e.operand == []
      && AllWellFormed(e.children)
      && (((e.nodeType == AND || e.nodeType == OR) && |e.children| < 256) || (e.nodeType == NOT && |e.children| == 1))
  }

  predicate AllWellFormed(es: seq<FilterExpression>)
    decreases es, 0
  {
    |es| == 0 || (WellFormed(es[0]) && AllWellFormed(es[1..]))
  }

  lemma MaskedByte(v: nat)
    requires v < 256
    ensures Masked(v, 1) == [v]
  {
    assert Limit(1) == 256;
    assert Uint(v, 1) == [v];
  }

  // How the three kinds of node are written.

  lemma LeafBytes(key: bytes, op: byte, operand: bytes, rest: bytes)
    ensures ToBytes(Leaf(key, op, operand)) + rest
         == [LEAF] + (Prefixed(key, 1) + ([op] + (Prefixed(operand, 2) + rest)))
  {
    MaskedByte(LEAF);
    MaskedByte(op);
    hide Prefixed, Masked;
  }

  lemma NotBytes(child: FilterExpression, rest: bytes)
    ensures ToBytes(Combine(NOT, [child])) + rest == [NOT] + (ToBytes(child) + rest)
  {
    MaskedByte(NOT);
    var e := Combine(NOT, [child]);
    assert ToBytes(e) == Masked(NOT, 1) + ToBytes(e.children[0]);
    Reassociate([NOT], ToBytes(child), rest);
  }

  lemma BranchBytes(tag: byte, es: seq<FilterExpression>, rest: bytes)
    requires (tag == AND || tag == OR) && |es| < 256
    ensures ToBytes(Combine(tag, es)) + rest == [tag] + ([|es|] + (AllToBytes(es) + rest))
  {
    MaskedByte(tag);
    MaskedByte(|es|);
    var e := Combine(tag, es);
    hide AllToBytes, Masked;
    assert ToBytes(e) == Masked(e.nodeType, 1) + (Masked(|e.children|, 1) + AllToBytes(e.children));
    Reassociate([tag], [|es|] + AllToBytes(es), rest);
    Reassociate([|es|], AllToBytes(es), rest);
  }

  lemma CombineWellFormed(tag: byte, es: seq<FilterExpression>)
    requires ((tag == AND || tag == OR) && |es| < 256) || (tag == NOT && |es| == 1)
    ensures WellFormed(Combine(tag, es)) <==> AllWellFormed(es)
    ensures |es| == 1 ==> (AllWellFormed(es) <==> WellFormed(es[0]))
  {
    var e := Combine(tag, es);
    assert WellFormed(e) <==> AllWellFormed(e.children);
    if |es| == 1 {
      assert es[1..] == [];
    }
  }

  lemma {:induction false} DecodeEncoded(e: FilterExpression, rest: bytes)
    requires WellFormed(e)
    ensures FromBytes(ToBytes(e) + rest) == Ok((e, rest))
    decreases e, 1
  {
    if e.nodeType == LEAF {
      assert Limit(1) == 256 && Limit(2) == 0x1_0000;
      hide ToBytes, Prefixed, TakePrefixed;
      LeafBytes(e.key, e.operator, e.operand, rest);
      var s3 := Prefixed(e.operand, 2) + rest;
      var s2 := [e.operator] + s3;
      TakePrefixedInverts(e.key, 1, s2);
      TakePrefixedInverts(e.operand, 2, rest);
      assert e == Leaf(e.key, e.operator, e.operand);
    } else if e.nodeType == NOT {
      hide ToBytes;
      var child := e.children[0];
      assert e == Combine(NOT, [child]);
      NotBytes(child, rest);
      DecodeEncoded(child, rest);
    } else {
      hide ToBytes, AllToBytes, AllFromBytes;
      var tag: byte := e.nodeType;
      assert e == Combine(tag, e.children);
      BranchBytes(tag, e.children, rest);
      DecodeAllEncoded(e.children, rest);
      var s2 := AllToBytes(e.children) + rest;
      assert ([tag] + ([|e.children|] + s2))[1..] == [|e.children|] + s2;
      assert ([|e.children|] + s2)[1..] == s2;
    }
  }

  lemma {:induction false} DecodeAllEncoded(es: seq<FilterExpression>, rest: bytes)
    requires AllWellFormed(es)
    ensures AllFromBytes(AllToBytes(es) + rest, |es|) == Ok((es, rest))
    decreases es, 0
  {
    if |es| == 0 {
      assert [] + rest == rest;
    } else {
      hide FromBytes, ToBytes, WellFormed;
      var s1 := AllToBytes(es[1..]) + rest;
      assert AllToBytes(es) + rest == ToBytes(es[0]) + s1;
      DecodeEncoded(es[0], s1);
      DecodeAllEncoded(es[1..], rest);
      assert [es[0]] + es[1..] == es;
    }
  }

  lemma LeafParts(s: bytes, e: FilterExpression, rest: bytes) returns (key: bytes, s2: bytes)
    requires |s| > 0 && s[0] == LEAF && FromBytes(s) == Ok((e, rest))
    ensures TakePrefixed(s[1..], 1) == Ok((key, s2)) && |s2| > 0
    ensures TakePrefixed(s2[1..], 2) == Ok((e.operand, rest)) && e == Leaf(key, s2[0], e.operand)
  {
    hide TakePrefixed;
    var taken := TakePrefixed(s[1..], 1).value;
    key, s2 := taken.0, taken.1;
    var operand := TakePrefixed(s2[1..], 2).value;
    assert FromBytes(s) == Ok((Leaf(key, s2[0], operand.0), operand.1));
  }

  lemma LeafFits(key: bytes, op: byte, operand: bytes)
    requires |key| < 256 && |operand| < 0x1_0000
    ensures WellFormed(Leaf(key, op, operand))
  {
  }

  lemma LeafSound(s: bytes, e: FilterExpression, rest: bytes)
    requires |s| > 0 && s[0] == LEAF && FromBytes(s) == Ok((e, rest))
    ensures WellFormed(e) && s == ToBytes(e) + rest
  {
    assert Limit(1) == 256 && Limit(2) == 0x1_0000;
    var key, s2 := LeafParts(s, e, rest);
    hide TakePrefixed, Prefixed, Limit, ToBytes, FromBytes, WellFormed;
    LeafBytes(key, s2[0], e.operand, rest);
    TakePrefixedSound(s[1..], 1, key, s2);
    TakePrefixedSound(s2[1..], 2, e.operand, rest);
    LeafFits(key, s2[0], e.operand);
    assert s2 == [s2[0]] + s2[1..] && s == [s[0]] + s[1..];
  }

  /** Whatever decodes is a well-formed tree, and the bytes used up are its encoding. */
  lemma {:induction false} DecodeSound(s: bytes, e: FilterExpression, rest: bytes)
    requires FromBytes(s) == Ok((e, rest))
    ensures WellFormed(e) && s == ToBytes(e) + rest
    decreases |s|, 0
  {
    var s1 := s[1..];
    assert s == [s[0]] + s1;
    if s[0] == LEAF {
      LeafSound(s, e, rest);
    } else if s[0] == NOT {
      var child := FromBytes(s1).value.0;
      hide ToBytes, WellFormed, AllWellFormed;
      NotBytes(child, rest);
      CombineWellFormed(NOT, [child]);
      DecodeSound(s1, child, rest);
    } else {
      hide ToBytes, WellFormed, AllWellFormed, AllFromBytes;
      var s2 := s1[1..];
      assert s1 == [s1[0]] + s2;
      DecodeAllSound(s2, s1[0], e.children, rest);
      BranchBytes(s[0], e.children, rest);
      CombineWellFormed(s[0], e.children);
    }
  }

  lemma {:induction false} DecodeAllSound(s: bytes, count: nat, es: seq<FilterExpression>, rest: bytes)
    requires AllFromBytes(s, count) == Ok((es, rest))
    ensures |es| == count && AllWellFormed(es) && s == AllToBytes(es) + rest
    decreases |s|, count
  {
    if count > 0 {
      hide FromBytes, ToBytes, WellFormed;
      var (first, s1) := FromBytes(s).value;
      var others := AllFromBytes(s1, count - 1).value.0;
      assert es == [first] + others && es[1..] == others;
      DecodeSound(s, first, s1);
      DecodeAllSound(s1, count - 1, others, rest);
      Reassociate(ToBytes(first), AllToBytes(others), rest);
    } else {
      assert [] + rest == rest;
    }
  }

  /** A tree comes back from its encoding, whatever bytes follow, exactly when it is well formed. */
  lemma FilterRoundTrip(e: FilterExpression, rest: bytes)
    ensures FromBytes(ToBytes(e) + rest) == Ok((e, rest)) <==> WellFormed(e)
  {
    if WellFormed(e) {
      DecodeEncoded(e, rest);
    }
    if FromBytes(ToBytes(e) + rest) == Ok((e, rest)) {
      DecodeSound(ToBytes(e) + rest, e, rest);
    }
  }

  /** No encoding is a proper prefix of another, and no two trees share one. */
  lemma EncodingsPrefixFree(a: FilterExpression, s: bytes, b: FilterExpression, t: bytes)
    requires WellFormed(a) && WellFormed(b)
    requires ToBytes(a) + s == ToBytes(b) + t
    ensures a == b && s == t
  {
    DecodeEncoded(a, s);
    DecodeEncoded(b, t);
  }

  // ---------------------------------------------------------------- the layout, byte by byte

  /** A leaf is its type 1, the key behind a length byte, the operator, and the operand behind two length bytes. */
  lemma LeafLayout(key: bytes, operator: byte, operand: bytes)
    requires |key| < 256 && |operand| < 0x1_0000
    ensures ToBytes(FilterExpression(1, key, operator, operand, []))
         == [1, |key|] + key + [operator, |operand| / 256, |operand| % 256] + operand
  {
    MaskedByte(1);
    MaskedByte(|key|);
    MaskedByte(operator);
    TwoBytes(|operand|);
    hide Masked;
  }

  lemma TwoBytes(v: nat)
    requires v < 0x1_0000
    ensures Masked(v, 2) == [v / 256, v % 256]
  {
    assert Limit(2) == 0x1_0000;
    SmallMod(v, Limit(2));
    assert Uint(v / 256, 1) == [v / 256];
  }

  /** "and" is 2 and "or" is 3, each with the number of children and then the children; "not" is 4 and its child. */
  lemma BranchLayout(tag: byte, es: seq<FilterExpression>)
    requires (tag == 2 || tag == 3) && |es| < 256
    ensures ToBytes(FilterExpression(tag, [], 0, [], es)) == [tag, |es|] + AllToBytes(es)
  {
    MaskedByte(tag);
    MaskedByte(|es|);
    var e := FilterExpression(tag, [], 0, [], es);
    hide Masked, AllToBytes;
    assert ToBytes(e) == Masked(e.nodeType, 1) + (Masked(|e.children|, 1) + AllToBytes(e.children));
    hide ToBytes;
    PairThen(tag, |es|, AllToBytes(es));
  }

  lemma PairThen(a: byte, b: byte, rest: bytes)
    ensures [a] + ([b] + rest) == [a, b] + rest
  {
  }

  lemma NotLayout(child: FilterExpression)
    ensures ToBytes(FilterExpression(4, [], 0, [], [child])) == [4] + ToBytes(child)
  {
    MaskedByte(4);
    var e := FilterExpression(4, [], 0, [], [child]);
    assert e.children[0] == child;
    hide Masked;
  }

  lemma ChildrenLayout(first: FilterExpression, others: seq<FilterExpression>)
    ensures AllToBytes([]) == [] && AllToBytes([first] + others) == ToBytes(first) + AllToBytes(others)
  {
    hide ToBytes;
    assert ([first] + others)[1..] == others;
  }
}
