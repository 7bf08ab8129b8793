/** Frames: a 16-byte header, an optional length-prefixed governance block, length-prefixed
    MessagePack metadata, and a body that runs to the end. */
module Frames {
  import opened Wire

  const MAGIC_NUMBER := 0x5153
  const PROTOCOL_VERSION := 0x07
  const HEADER_SIZE := 16
  const FLAG_REQUEST := 0x01
  const FLAG_GOVERNANCE := 0x80

  datatype Header = Header(
    magic: nat,
    version: nat,
    flags: nat,
    streamId: nat,
    payloadLength: nat,
    padding: nat)

  /** What MessagePack carries between the two sides. */
  datatype MetaValue =
    | Nil
    | Truth(b: bool)
    | Number(n: int)
    | Float(x: real)
    | Text(text: bytes)
    | Binary(data: bytes)
    | Items(items: seq<MetaValue>)
    | Table(fields: Metadata)
    | Extension(code: int, data: bytes)

  type Metadata = map<string, MetaValue>

  /** The MessagePack library: packing fails on what it cannot represent, unpacking on malformed input.  What it
      unpacks need not be a table. */
  datatype Msgpack = Msgpack(pack: Metadata -> Option<bytes>, unpack: bytes -> Option<MetaValue>) {
    ghost predicate Lawful() {
      forall m :: pack(m).Some? ==> unpack(pack(m).value) == Some(Table(m))
    }
  }

  /** The source takes the metadata for a dictionary without a check. */
  datatype Frame = Frame(header: Header, metadata: MetaValue, body: bytes, governance: Option<bytes>)

  /** The arguments of `FrameEncoder.encode`. */
  datatype Request = Request(
    opcode: nat,
    body: bytes,
    streamId: nat,
    isRequest: bool,
    metadata: Metadata,
    flags: nat,
    governance: Option<bytes>)

  // ---------------------------------------------------------------- flags

  predicate HasFlag(flags: nat, bit: nat)
    requires bit > 0
  {
    (flags / bit) % 2 == 1
  }

  /** `flags | bit` for a single bit. */
  function WithFlag(flags: nat, bit: nat): nat
    requires bit > 0
  {
    if HasFlag(flags, bit) then flags else flags + bit
  }

  // ---------------------------------------------------------------- header

  function HeaderToBytes(h: Header): Result<bytes> {
    if h.magic < 0x1_0000 && h.version < 0x100 && h.flags < 0x100 && h.streamId < 0x1_0000_0000
       && h.payloadLength < 0x1_0000_0000 && h.padding < 0x1_0000_0000
    then Ok(Uint(h.magic, 2) + Uint(h.version, 1) + Uint(h.flags, 1) + Uint(h.streamId, 4)
            + Uint(h.payloadLength, 4) + Uint(h.padding, 4))
    else Err(BadStruct)
  }

  function HeaderFields(s: bytes): Result<(Header, bytes)> {
    var (magic, s1) :- TakeUint(s, 2);
    var (version, s2) :- TakeUint(s1, 1);
    var (flags, s3) :- TakeUint(s2, 1);
    var (streamId, s4) :- TakeUint(s3, 4);
    var (payloadLength, s5) :- TakeUint(s4, 4);
    var (padding, s6) :- TakeUint(s5, 4);
    Ok((Header(magic, version, flags, streamId, payloadLength, padding), s6))
  }

  function HeaderFromBytes(data: bytes): Result<Header> {
    if |data| < HEADER_SIZE then Err(BadProtocol) else
    var (h, _) :- HeaderFields(data[..HEADER_SIZE]);
    if h.magic != MAGIC_NUMBER then Err(BadProtocol) else Ok(h)
  }

  lemma HeaderRoundTrip(h: Header, rest: bytes)
    requires HeaderToBytes(h).Ok?
    ensures |HeaderToBytes(h).value| == HEADER_SIZE
    ensures HeaderFromBytes(HeaderToBytes(h).value + rest)
         == if h.magic == MAGIC_NUMBER then Ok(h) else Err(BadProtocol)
  {
    var out := HeaderToBytes(h).value;
    var f6 := Uint(h.padding, 4) + [];
    var f5 := Uint(h.payloadLength, 4) + f6;
    var f4 := Uint(h.streamId, 4) + f5;
    var f3 := Uint(h.flags, 1) + f4;
    var f2 := Uint(h.version, 1) + f3;
    assert (out + rest)[..HEADER_SIZE] == out == Uint(h.magic, 2) + f2;
    assert Limit(1) == 0x100 && Limit(2) == 0x1_0000 && Limit(4) == 0x1_0000_0000;
    TakeUintInverts(h.magic, 2, f2);
    TakeUintInverts(h.version, 1, f3);
    TakeUintInverts(h.flags, 1, f4);
    TakeUintInverts(h.streamId, 4, f5);
    TakeUintInverts(h.payloadLength, 4, f6);
    TakeUintInverts(h.padding, 4, []);
  }

  // ---------------------------------------------------------------- encoding

  function Merged(clientVersion: bytes, r: Request): Metadata {
    map["body_type" := Number(r.opcode), "client_version" := Text(clientVersion)] + r.metadata
  }

  /** A missing block and an empty one are both left out. */
  function Block(r: Request): Option<bytes> {
    if r.governance.Some? && |r.governance.value| > 0 then r.governance else None
  }

  function FrameFlags(r: Request): nat {
    var flags := if r.isRequest then WithFlag(r.flags, FLAG_REQUEST) else r.flags;
    if Block(r).Some? then WithFlag(flags, FLAG_GOVERNANCE) else flags
  }

  function BlockBytes(r: Request): bytes {
    match Block(r)
    case None => []
    case Some(block) => Prefixed(block, 4)
  }

  function PayloadBytes(meta: bytes, body: bytes): bytes {
    Prefixed(meta, 2) + body
  }

  function EncodeFrame(mp: Msgpack, clientVersion: bytes, r: Request): Result<bytes> {
    match mp.pack(Merged(clientVersion, r))
    case None => Err(BadStruct)
    case Some(meta) =>
      if |meta| >= 0x1_0000 then Err(BadStruct) else
      var tail := BlockBytes(r) + PayloadBytes(meta, r.body);
      var header :- HeaderToBytes(FrameHeader(r, |tail|));
      Ok(header + tail)
  }

  function FrameHeader(r: Request, payloadLength: nat): Header {
    Header(MAGIC_NUMBER, PROTOCOL_VERSION, FrameFlags(r), r.streamId, payloadLength, 0)
  }

  class FrameEncoder {
    const clientVersion: bytes
    const msgpack: Msgpack

    constructor (clientVersion: bytes, msgpack: Msgpack)
      ensures this.clientVersion == clientVersion && this.msgpack == msgpack
    {
      this.clientVersion := clientVersion;
      this.msgpack := msgpack;
    }

    method Encode(r: Request) returns (out: Result<bytes>)
      ensures out == EncodeFrame(msgpack, clientVersion, r)
    {
      var meta: Metadata := map["body_type" := Number(r.opcode), "client_version" := Text(clientVersion)];
      meta := meta + r.metadata;
      var packed := msgpack.pack(meta);
      if packed.None? || |packed.value| >= 0x1_0000 {
        return Err(BadStruct);
      }
      var payload := Uint(|packed.value|, 2) + packed.value + r.body;
      assert payload == PayloadBytes(packed.value, r.body) by {
        PrefixUnmasked(packed.value, 2);
      }
      var frameFlags := r.flags;
      if r.isRequest {
        frameFlags := WithFlag(frameFlags, FLAG_REQUEST);
      }
      var payloadLength := |payload|;
      var governed := r.governance.Some? && |r.governance.value| > 0;
      if governed {
        frameFlags := WithFlag(frameFlags, FLAG_GOVERNANCE);
        payloadLength := payloadLength + |r.governance.value| + 4;
      }
      assert payloadLength == |BlockBytes(r) + payload| && frameFlags == FrameFlags(r);
      var result :- HeaderToBytes(Header(MAGIC_NUMBER, PROTOCOL_VERSION, frameFlags, r.streamId, payloadLength, 0));
      Assembled(result, r, payload);
      if governed {
        result := result + Uint(|r.governance.value|, 4);
        result := result + r.governance.value;
      }
      result := result + payload;
      out := Ok(result);
    }
  }

  lemma Assembled(header: bytes, r: Request, payload: bytes)
    requires Block(r).Some? ==> |Block(r).value| < 0x1_0000_0000
    ensures header + (BlockBytes(r) + payload)
         == match Block(r)
            case None => header + payload
            case Some(block) => header + Uint(|block|, 4) + block + payload
  {
    if Block(r).Some? {
      PrefixUnmasked(Block(r).value, 4);
    }
  }

  /** `struct.pack` fails where the writer would mask, so what it does write is not masked. */
  lemma PrefixUnmasked(v: bytes, n: nat)
    requires (n == 2 && |v| < 0x1_0000) || (n == 4 && |v| < 0x1_0000_0000)
    ensures Prefixed(v, n) == Uint(|v|, n) + v
  {
    assert Limit(2) == 0x1_0000 && Limit(4) == 0x1_0000_0000;
    SmallMod(|v|, Limit(n));
  }

  // ---------------------------------------------------------------- decoding

  /** Running out of data is reported as a protocol error here. */
  function AsProtocolError<T>(r: Result<T>): Result<T> {
    if r.Err? then Err(BadProtocol) else r
  }

  function DecodePayload(mp: Msgpack, payload: bytes): Result<(MetaValue, bytes)> {
    var (packed, body) :- AsProtocolError(TakePrefixed(payload, 2));
    match mp.unpack(packed)
    case None => Err(BadProtocol)
    case Some(metadata) => Ok((metadata, body))
  }

  function DecodeFrame(mp: Msgpack, data: bytes): Result<Frame> {
    var header :- HeaderFromBytes(data);
    var rest := data[HEADER_SIZE..];
    if HasFlag(header.flags, FLAG_GOVERNANCE) then
      var (block, payload) :- AsProtocolError(TakePrefixed(rest, 4));
      FrameAround(mp, header, Some(block), payload)
    else
      FrameAround(mp, header, None, rest)
  }

  function FrameAround(mp: Msgpack, header: Header, governance: Option<bytes>, payload: bytes): Result<Frame> {
    var (metadata, body) :- DecodePayload(mp, payload);
    Ok(Frame(header, metadata, body, governance))
  }

  /** `TakePrefixed` by index: what reading a length at `offset`, and then that many bytes, yields. */
  lemma PrefixedAt(data: bytes, offset: nat, n: nat)
    requires offset <= |data|
    ensures TakePrefixed(data[offset..], n)
         == if |data| < offset + n then Err(EndOfData)
            else var length := Value(data[offset..offset + n]);
                 if |data| < offset + n + length then Err(EndOfData)
                 else Ok((data[offset + n..offset + n + length], data[offset + n + length..]))
  {
    var rest := data[offset..];
    if |data| >= offset + n {
      assert rest[..n] == data[offset..offset + n] && rest[n..] == data[offset + n..];
      var length := Value(rest[..n]);
      if |data| >= offset + n + length {
        assert rest[n..][..length] == data[offset + n..offset + n + length];
        assert rest[n..][length..] == data[offset + n + length..];
      }
    }
  }

  lemma FrameAroundAt(mp: Msgpack, header: Header, governance: Option<bytes>, data: bytes, offset: nat)
    requires offset <= |data|
    ensures FrameAround(mp, header, governance, data[offset..])
         == if |data| < offset + 2 then Err(BadProtocol)
            else var start := offset + 2;
                 var length := Value(data[offset..start]);
                 if |data| < start + length then Err(BadProtocol)
                 else match mp.unpack(data[start..start + length])
                      case None => Err(BadProtocol)
                      case Some(metadata) => Ok(Frame(header, metadata, data[start + length..], governance))
  {
    PrefixedAt(data, offset, 2);
  }

  class FrameDecoder {
    const msgpack: Msgpack

    constructor (msgpack: Msgpack)
      ensures this.msgpack == msgpack
    {
      this.msgpack := msgpack;
    }

    method Decode(data: bytes) returns (out: Result<Frame>)
      ensures out == DecodeFrame(msgpack, data)
    {
      hide HeaderFromBytes, FrameAround, Value;
      var header :- HeaderFromBytes(data);
      var found :- DecodeBlock(header, data);
      var (governance, offset) := found;
      FrameAroundAt(msgpack, header, governance, data, offset);
      if |data| < offset + 2 {
        return Err(BadProtocol);
      }
      var metaLength := Value(data[offset..offset + 2]);
      offset := offset + 2;
      if |data| < offset + metaLength {
        return Err(BadProtocol);
      }
      var packed := data[offset..offset + metaLength];
      offset := offset + metaLength;
      var metadata := msgpack.unpack(packed);
      if metadata.None? {
        return Err(BadProtocol);
      }
      out := Ok(Frame(header, metadata.value, data[offset..], governance));
    }

    /** The governance part of `decode`: the block, if the header announces one, and the offset after it. */
    method DecodeBlock(header: Header, data: bytes) returns (out: Result<(Option<bytes>, nat)>)
      requires HeaderFromBytes(data) == Ok(header)
      ensures match out
              case Err(e) => DecodeFrame(msgpack, data) == Err(e)
              case Ok((governance, offset)) =>
                offset <= |data|
                && DecodeFrame(msgpack, data) == FrameAround(msgpack, header, governance, data[offset..])
    {
      var offset := HEADER_SIZE;
      if !HasFlag(header.flags, FLAG_GOVERNANCE) {
        return Ok((None, offset));
      }
      PrefixedAt(data, offset, 4);
      if |data| < offset + 4 {
        return Err(BadProtocol);
      }
      var length := Value(data[offset..offset + 4]);
      offset := offset + 4;
      if |data| < offset + length {
        return Err(BadProtocol);
      }
      var block := data[offset..offset + length];
      offset := offset + length;
      assert TakePrefixed(data[HEADER_SIZE..], 4) == Ok((block, data[offset..]));
      out := Ok((Some(block), offset));
    }

    method DecodePayloadOnly(payload: bytes) returns (out: Result<(MetaValue, bytes)>)
      ensures out == DecodePayload(msgpack, payload)
    {
      PrefixedAt(payload, 0, 2);
      assert payload[0..] == payload;
      if |payload| < 2 {
        return Err(BadProtocol);
      }
      var metaLength := Value(payload[..2]);
      if |payload| < 2 + metaLength {
        return Err(BadProtocol);
      }
      var metadata := msgpack.unpack(payload[2..2 + metaLength]);
      if metadata.None? {
        return Err(BadProtocol);
      }
      out := Ok((metadata.value, payload[2 + metaLength..]));
    }
  }

  // ---------------------------------------------------------------- what comes back

  /** The frame a receiver is meant to see. */
  function Intended(mp: Msgpack, clientVersion: bytes, r: Request): Frame
    requires EncodeFrame(mp, clientVersion, r).Ok?
  {
    Frame(FrameHeader(r, |EncodeFrame(mp, clientVersion, r).value| - HEADER_SIZE),
          Table(Merged(clientVersion, r)), r.body, Block(r))
  }

  /** The caller sets the governance flag but supplies no block. */
  predicate StrayGovernanceFlag(r: Request) {
    HasFlag(r.flags, FLAG_GOVERNANCE) && Block(r).None?
  }

  lemma FlagArithmetic(flags: nat)
    ensures HasFlag(WithFlag(flags, FLAG_GOVERNANCE), FLAG_GOVERNANCE)
    ensures HasFlag(WithFlag(flags, FLAG_REQUEST), FLAG_GOVERNANCE) <==> HasFlag(flags, FLAG_GOVERNANCE)
  {
    assert (flags + 128) / 128 == flags / 128 + 1;
    var q, r := flags / 128, flags % 128;
    if flags % 2 == 0 {
      assert flags + 1 == 128 * q + (r + 1) && r + 1 < 128;
      assert (flags + 1) / 128 == q;
    }
  }

  /** An encoded frame decodes to the intended one unless the governance flag is stray, and then it never does. */
  lemma {:induction false} FrameRoundTrip(mp: Msgpack, clientVersion: bytes, r: Request)
    requires mp.Lawful()
    requires EncodeFrame(mp, clientVersion, r).Ok?
    ensures var data := EncodeFrame(mp, clientVersion, r).value;
            DecodeFrame(mp, data) == Ok(Intended(mp, clientVersion, r)) <==> !StrayGovernanceFlag(r)
  {
    var data := EncodeFrame(mp, clientVersion, r).value;
    var payload := PayloadBytes(mp.pack(Merged(clientVersion, r)).value, r.body);
    var header := FrameHeader(r, |BlockBytes(r) + payload|);
    HeaderRoundTrip(header, BlockBytes(r) + payload);
    assert data[HEADER_SIZE..] == BlockBytes(r) + payload;
    FrameFlagsGoverned(r);
    PayloadRoundTrip(mp, Merged(clientVersion, r), r.body);
    match Block(r) {
      case Some(block) => BlockRoundTrip(r, payload);
      case None => assert [] + payload == payload;
    }
  }

  lemma FrameFlagsGoverned(r: Request)
    ensures HasFlag(FrameFlags(r), FLAG_GOVERNANCE) <==> Block(r).Some? || HasFlag(r.flags, FLAG_GOVERNANCE)
  {
    FlagArithmetic(r.flags);
    FlagArithmetic(if r.isRequest then WithFlag(r.flags, FLAG_REQUEST) else r.flags);
  }

  lemma BlockRoundTrip(r: Request, payload: bytes)
    requires Block(r).Some? && |BlockBytes(r) + payload| < 0x1_0000_0000
    ensures TakePrefixed(BlockBytes(r) + payload, 4) == Ok((Block(r).value, payload))
  {
    assert Limit(4) == 0x1_0000_0000;
    TakePrefixedInverts(Block(r).value, 4, payload);
  }

  lemma PayloadRoundTrip(mp: Msgpack, metadata: Metadata, body: bytes)
    requires mp.Lawful()
    requires mp.pack(metadata).Some? && |mp.pack(metadata).value| < 0x1_0000
    ensures DecodePayload(mp, PayloadBytes(mp.pack(metadata).value, body)) == Ok((Table(metadata), body))
  {
    assert Limit(2) == 0x1_0000;
    TakePrefixedInverts(mp.pack(metadata).value, 2, body);
  }

  /** Without a governance flag, `decode` and `decode_payload` agree on every input, errors included. */
  lemma DecodePayloadAgrees(mp: Msgpack, data: bytes)
    requires HeaderFromBytes(data).Ok? && !HasFlag(HeaderFromBytes(data).value.flags, FLAG_GOVERNANCE)
    ensures match DecodePayload(mp, data[HEADER_SIZE..])
            case Ok((metadata, body)) =>
              DecodeFrame(mp, data) == Ok(Frame(HeaderFromBytes(data).value, metadata, body, None))
            case Err(e) => DecodeFrame(mp, data) == Err(e)
  {
  }

  /** `decode_payload` does not look at the flags: on a frame without a block it recovers metadata and body even
      where a stray governance flag misleads `decode`. */
  lemma PayloadRecovered(mp: Msgpack, clientVersion: bytes, r: Request)
    requires mp.Lawful() && Block(r).None?
    requires EncodeFrame(mp, clientVersion, r).Ok?
    ensures DecodePayload(mp, EncodeFrame(mp, clientVersion, r).value[HEADER_SIZE..])
         == Ok((Table(Merged(clientVersion, r)), r.body))
  {
    var payload := PayloadBytes(mp.pack(Merged(clientVersion, r)).value, r.body);
    assert [] + payload == payload;
    HeaderRoundTrip(FrameHeader(r, |payload|), payload);
    assert EncodeFrame(mp, clientVersion, r).value[HEADER_SIZE..] == payload;
    PayloadRoundTrip(mp, Merged(clientVersion, r), r.body);
  }
}
