/** What an encoded frame says, told from the request alone: every field of the header, every bit of the flags,
    every entry of the metadata, and when encoding succeeds at all. */
module FrameContents {
  import opened Bits
  import opened Frames
  import opened Wire
  import Connection

  // ---------------------------------------------------------------- the meaning of a request

  /** Bit number `k` of a number, counted from the lowest. */
  predicate Bit(n: nat, k: nat) {
    if k == 0 then n % 2 == 1 else Bit(n / 2, k - 1)
  }

  predicate HasBlock(r: Request) {
    r.governance.Some? && r.governance.value != []
  }

  /** The caller asks for the governance flag without a block. */
  predicate StrayBit(r: Request) {
    Bit(r.flags, 7) && !HasBlock(r)
  }

  /** The metadata holds the caller's entries; the opcode and the client version, unless the caller gives others;
      and nothing else. */
  ghost predicate Tells(clientVersion: bytes, r: Request, m: Metadata) {
    && (forall key :: key in m <==> key in r.metadata || key == "body_type" || key == "client_version")
    && (forall key :: key in r.metadata ==> key in m && m[key] == r.metadata[key])
    && ("body_type" in m && ("body_type" !in r.metadata ==> m["body_type"] == Number(r.opcode)))
    && ("client_version" in m && ("client_version" !in r.metadata ==> m["client_version"] == Text(clientVersion)))
  }

  /** Of the flags, the lowest is also set for a request and bit 7 also for a block. */
  ghost predicate Flagged(r: Request, flags: nat) {
    forall k: nat :: Bit(flags, k) <==> Bit(r.flags, k) || (k == 0 && r.isRequest) || (k == 7 && HasBlock(r))
  }

  /** The frame says what the request asks, in a frame of `size` bytes. */
  ghost predicate Carries(clientVersion: bytes, r: Request, size: nat, f: Frame) {
    && f.header.magic == 0x5153 && f.header.version == 7 && f.header.padding == 0
    && f.header.streamId == r.streamId && f.header.payloadLength == size - 16
    && Flagged(r, f.header.flags)
    && f.metadata.Table? && Tells(clientVersion, r, f.metadata.fields)
    && f.body == r.body
    && f.governance == if HasBlock(r) then r.governance else None
  }

  // ---------------------------------------------------------------- flags

  lemma {:induction false} AddBit(n: nat, j: nat, place: nat, k: nat)
    requires place == Pow2(j) && !Bit(n, j)
    ensures Bit(n + place, k) <==> k == j || Bit(n, k)
    decreases j, k
  {
    if j == 0 {
      assert (n + 1) / 2 == n / 2 && (n + 1) % 2 == 1;
    } else {
      var half := Pow2(j - 1);
      assert (n + place) / 2 == n / 2 + half && (n + place) % 2 == n % 2;
      if k > 0 {
        AddBit(n / 2, j - 1, half, k - 1);
      }
    }
  }

  /** Which is the bit that shifting and masking finds. */
  lemma {:induction false} BitAt(n: nat, k: nat)
    ensures Bit(n, k) <==> n / Pow2(k) % 2 == 1
  {
    if k > 0 {
      BitAt(n / 2, k - 1);
      Halved(n, Pow2(k - 1));
    }
  }

  lemma Halved(n: nat, p: nat)
    requires p > 0
    ensures n / 2 / p == n / (2 * p)
  {
    var half := n / 2;
    var q, r := half / p, half % p;
    assert half == p * q + r;
    Quotient(n, 2 * p, q, 2 * r + n % 2);
  }

  lemma LowBit(n: nat)
    ensures HasFlag(n, FLAG_REQUEST) <==> Bit(n, 0)
    ensures Pow2(0) == FLAG_REQUEST
  {
  }

  lemma HighBit(n: nat)
    ensures HasFlag(n, FLAG_GOVERNANCE) <==> Bit(n, 7)
    ensures Pow2(7) == FLAG_GOVERNANCE
  {
    assert Pow2(4) == 16;
    assert Pow2(7) == 8 * Pow2(4);
    BitAt(n, 7);
    hide Bit;
  }

  lemma WithFlagBits(n: nat, bit: nat, j: nat)
    requires (bit == FLAG_REQUEST && j == 0) || (bit == FLAG_GOVERNANCE && j == 7)
    ensures forall k: nat :: Bit(WithFlag(n, bit), k) <==> k == j || Bit(n, k)
  {
    LowBit(n);
    HighBit(n);
    hide Bit, HasFlag, Pow2;
    if !Bit(n, j) {
      forall k: nat ensures Bit(n + bit, k) <==> k == j || Bit(n, k) {
        AddBit(n, j, bit, k);
      }
    }
  }

  lemma FlagsMean(r: Request)
    ensures Flagged(r, FrameFlags(r))
    ensures StrayGovernanceFlag(r) <==> StrayBit(r)
  {
    var first := if r.isRequest then WithFlag(r.flags, FLAG_REQUEST) else r.flags;
    WithFlagBits(r.flags, FLAG_REQUEST, 0);
    WithFlagBits(first, FLAG_GOVERNANCE, 7);
    HighBit(r.flags);
    hide Bit, HasFlag, WithFlag;
  }

  // ---------------------------------------------------------------- what arrives

  lemma MergedTells(clientVersion: bytes, r: Request)
    ensures Tells(clientVersion, r, Merged(clientVersion, r))
  {
    var type_, version := "body_type", "client_version";
    assert type_[0] != version[0];
  }

  /** There is only one such metadata. */
  lemma TellsOnce(clientVersion: bytes, r: Request, m: Metadata, n: Metadata)
    requires Tells(clientVersion, r, m) && Tells(clientVersion, r, n)
    ensures m == n
  {
  }

  /** Every frame that encodes, without a stray governance flag, decodes to one that says what was asked. */
  lemma {:induction false} FrameCarries(mp: Msgpack, clientVersion: bytes, r: Request, out: bytes)
    requires mp.Lawful() && EncodeFrame(mp, clientVersion, r) == Ok(out) && !StrayBit(r)
    ensures DecodeFrame(mp, out).Ok? && Carries(clientVersion, r, |out|, DecodeFrame(mp, out).value)
  {
    FlagsMean(r);
    FrameRoundTrip(mp, clientVersion, r);
    MergedTells(clientVersion, r);
    hide EncodeFrame, DecodeFrame, Flagged, Tells, FrameFlags, Merged, StrayBit, StrayGovernanceFlag, Msgpack.Lawful;
  }

  /** Encoding succeeds exactly if MessagePack can pack the metadata in fewer than 65536 bytes, and the flags, the
      stream id and the length of the payload fit their fields. */
  lemma EncodesExactly(mp: Msgpack, clientVersion: bytes, r: Request, m: Metadata)
    requires Tells(clientVersion, r, m)
    ensures EncodeFrame(mp, clientVersion, r).Ok?
       <==> mp.pack(m).Some? && |mp.pack(m).value| < 0x1_0000
            && r.flags < 0x100 && r.streamId < 0x1_0000_0000
            && 2 + |mp.pack(m).value| + |r.body| + (if HasBlock(r) then 4 + |r.governance.value| else 0) < 0x1_0000_0000
  {
    MergedTells(clientVersion, r);
    TellsOnce(clientVersion, r, m, Merged(clientVersion, r));
    FlagsFit(r);
    hide Tells, Merged, FrameFlags;
  }

  lemma FlagsFit(r: Request)
    ensures FrameFlags(r) < 0x100 <==> r.flags < 0x100
  {
    RoomFor(r.flags);
    RoomFor(if r.isRequest then WithFlag(r.flags, FLAG_REQUEST) else r.flags);
  }

  lemma RoomFor(n: nat)
    ensures WithFlag(n, FLAG_REQUEST) < 0x100 <==> n < 0x100
    ensures WithFlag(n, FLAG_GOVERNANCE) < 0x100 <==> n < 0x100
  {
    var q := n / 128;
    assert 128 * q <= n < 128 * q + 128;
    assert n < 256 && q % 2 == 0 ==> q == 0;
  }

  // ---------------------------------------------------------------- the layout of the header

  /** Where the fields of a header lie: sixteen bytes, most significant first. */
  lemma HeaderAtOffsets(data: bytes)
    requires HeaderFromBytes(data).Ok?
    ensures var h := HeaderFromBytes(data).value;
            && |data| >= 16
            && h.magic == Value(data[0..2]) == 0x5153 && h.version == data[2] && h.flags == data[3]
            && h.streamId == Value(data[4..8]) && h.payloadLength == Value(data[8..12])
            && h.padding == Value(data[12..16])
  {
    var s := data[..16];
    hide Value;
    assert s[..2] == data[0..2];
    assert s[2..][..1] == [data[2]] && s[2..][1..][..1] == [data[3]];
    ValueOfByte(data[2]);
    ValueOfByte(data[3]);
    assert s[2..][1..][1..][..4] == data[4..8];
    assert s[2..][1..][1..][4..][..4] == data[8..12];
    assert s[2..][1..][1..][4..][4..][..4] == data[12..16];
  }

  /** Every frame that encodes, stray flag or not, starts with the header that was asked for. */
  lemma HeaderOnWire(mp: Msgpack, clientVersion: bytes, r: Request, out: bytes)
    requires EncodeFrame(mp, clientVersion, r) == Ok(out)
    ensures |out| >= 16 && Value(out[0..2]) == 0x5153 && out[2] == 7 && Flagged(r, out[3])
    ensures Value(out[4..8]) == r.streamId && Value(out[8..12]) == |out| - 16 && Value(out[12..16]) == 0
  {
    Connection.EncodedHeader(mp, clientVersion, r);
    FlagsMean(r);
    HeaderAtOffsets(out[..16]);
    HeaderSlices(out);
    hide EncodeFrame, HeaderFromBytes, Flagged, Value, FrameFlags;
  }

  /** What follows the header: the block behind its length in four bytes, if there is one, the metadata behind its
      length in two, and the body to the end. */
  lemma PayloadOnWire(mp: Msgpack, clientVersion: bytes, r: Request, out: bytes, m: Metadata)
    requires EncodeFrame(mp, clientVersion, r) == Ok(out) && Tells(clientVersion, r, m)
    ensures var start := if HasBlock(r) then 20 + |r.governance.value| else 16;
            && mp.pack(m).Some?
            && (HasBlock(r) ==>
                  |out| >= 20 + |r.governance.value|
                  && Value(out[16..20]) == |r.governance.value| && out[20..start] == r.governance.value)
            && |out| == start + 2 + |mp.pack(m).value| + |r.body|
            && Value(out[start..start + 2]) == |mp.pack(m).value|
            && out[start + 2..start + 2 + |mp.pack(m).value|] == mp.pack(m).value
            && out[start + 2 + |mp.pack(m).value|..] == r.body
  {
    MergedTells(clientVersion, r);
    TellsOnce(clientVersion, r, m, Merged(clientVersion, r));
    hide Tells, EncodeFrame, Value, HasBlock;
    var header, a, block, b, meta := EncodedParts(mp, clientVersion, r, out);
    hide Merged;
    PayloadSlices(header, a, block, b, meta, r.body, out);
  }

  lemma EncodedParts(mp: Msgpack, clientVersion: bytes, r: Request, out: bytes)
    returns (header: bytes, a: bytes, block: bytes, b: bytes, meta: bytes)
    requires EncodeFrame(mp, clientVersion, r) == Ok(out)
    ensures mp.pack(Merged(clientVersion, r)) == Some(meta)
    ensures |header| == 16 && out == header + ((a + block) + (b + meta + r.body)) && |b| == 2 && Value(b) == |meta|
    ensures if HasBlock(r) then |a| == 4 && Value(a) == |block| && block == r.governance.value
            else a == [] && block == []
  {
    meta := mp.pack(Merged(clientVersion, r)).value;
    var tail := BlockBytes(r) + PayloadBytes(meta, r.body);
    var h := FrameHeader(r, |tail|);
    header := HeaderToBytes(h).value;
    HeaderRoundTrip(h, []);
    b, a, block := Uint(|meta|, 2), [], [];
    assert Limit(2) == 0x1_0000 && Limit(4) == 0x1_0000_0000;
    PrefixUnmasked(meta, 2);
    ValueOfUint(|meta|, 2);
    if HasBlock(r) {
      block := r.governance.value;
      a := Uint(|block|, 4);
      BlockFits(r, meta);
      PrefixUnmasked(block, 4);
      ValueOfUint(|block|, 4);
    }
    hide HeaderToBytes, Prefixed, Uint, Value, FrameHeader, Merged, Limit;
    assert BlockBytes(r) == a + block;
  }

  lemma BlockFits(r: Request, meta: bytes)
    requires HasBlock(r) && |BlockBytes(r) + PayloadBytes(meta, r.body)| < 0x1_0000_0000
    ensures |r.governance.value| < 0x1_0000_0000
  {
  }

  lemma PayloadSlices(header: bytes, a: bytes, block: bytes, b: bytes, meta: bytes, body: bytes, out: bytes)
    requires |header| == 16 && |b| == 2 && out == header + ((a + block) + (b + meta + body))
    ensures var start := 16 + |a| + |block|;
            && |out| == start + 2 + |meta| + |body| && out[16..16 + |a|] == a && out[16 + |a|..start] == block
            && out[start..start + 2] == b && out[start + 2..start + 2 + |meta|] == meta
            && out[start + 2 + |meta|..] == body
  {
  }

  lemma HeaderSlices(out: bytes)
    requires |out| >= 16
    ensures out[..16][0..2] == out[0..2] && out[..16][4..8] == out[4..8]
    ensures out[..16][8..12] == out[8..12] && out[..16][12..16] == out[12..16]
  {
  }

  // ---------------------------------------------------------------- whole streams

  ghost predicate NoStrayBits(rs: seq<Request>) {
    forall r :: r in rs ==> !StrayBit(r)
  }

  /** Frames written back to back are read as just as many frames, and each says what its own request asks: frame
      number `i` carries the stream id of request number `i`. */
  lemma StreamCarries(mp: Msgpack, clientVersion: bytes, rs: seq<Request>)
    requires mp.Lawful() && Connection.AllEncode(mp, clientVersion, rs) && NoStrayBits(rs)
    ensures var frames := Connection.ReadAll(mp, Connection.EncodeAll(mp, clientVersion, rs)).frames;
            && |frames| == |rs|
            && forall i :: 0 <= i < |rs| ==>
                 && Carries(clientVersion, rs[i], |EncodeFrame(mp, clientVersion, rs[i]).value|, frames[i])
                 && frames[i].header.streamId == rs[i].streamId
  {
    assert Connection.NoStrayFlags(rs) by {
      forall r | r in rs ensures !StrayGovernanceFlag(r) {
        FlagsMean(r);
      }
    }
    Connection.StreamRoundTrip(mp, clientVersion, rs);
    forall i | 0 <= i < |rs|
      ensures var intended := Connection.IntendedAll(mp, clientVersion, rs);
              && |intended| == |rs|
              && Carries(clientVersion, rs[i], |EncodeFrame(mp, clientVersion, rs[i]).value|, intended[i])
    {
      hide Carries, EncodeFrame;
      assert rs[i] in rs;
      IntendedAt(mp, clientVersion, rs, i);
      IntendedCarries(mp, clientVersion, rs[i]);
    }
    IntendedLength(mp, clientVersion, rs);
    hide Connection.ReadAll, Connection.EncodeAll, Connection.IntendedAll, Flagged, Tells, EncodeFrame;
  }

  lemma IntendedCarries(mp: Msgpack, clientVersion: bytes, r: Request)
    requires mp.Lawful() && EncodeFrame(mp, clientVersion, r).Ok? && !StrayBit(r)
    ensures Carries(clientVersion, r, |EncodeFrame(mp, clientVersion, r).value|, Intended(mp, clientVersion, r))
  {
    FlagsMean(r);
    FrameRoundTrip(mp, clientVersion, r);
    FrameCarries(mp, clientVersion, r, EncodeFrame(mp, clientVersion, r).value);
    hide EncodeFrame, DecodeFrame, Carries, Intended, StrayBit, StrayGovernanceFlag;
  }

  lemma {:induction false} IntendedLength(mp: Msgpack, clientVersion: bytes, rs: seq<Request>)
    requires Connection.AllEncode(mp, clientVersion, rs)
    ensures |Connection.IntendedAll(mp, clientVersion, rs)| == |rs|
  {
    if |rs| > 0 {
      hide EncodeFrame, Intended;
      IntendedLength(mp, clientVersion, rs[1..]);
    }
  }

  lemma {:induction false} IntendedAt(mp: Msgpack, clientVersion: bytes, rs: seq<Request>, i: nat)
    requires Connection.AllEncode(mp, clientVersion, rs) && i < |rs|
    ensures |Connection.IntendedAll(mp, clientVersion, rs)| == |rs|
    ensures rs[i] in rs && Connection.IntendedAll(mp, clientVersion, rs)[i] == Intended(mp, clientVersion, rs[i])
  {
    hide EncodeFrame, Intended;
    IntendedLength(mp, clientVersion, rs);
    if i > 0 {
      IntendedAt(mp, clientVersion, rs[1..], i - 1);
    }
  }
}
