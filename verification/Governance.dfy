/** The governance extension block: a run of TLV entries (one-byte tag, two-byte length, value). */
module Governance {
  import opened Wire
  import opened Codec

  const TRACE_CONTEXT: byte := 0x01
  const TRAFFIC_COLORING: byte := 0x02
  const METHOD_METRICS: byte := 0x03
  const TENANT_QUOTA_TOKEN: byte := 0x04

  datatype TraceContext = TraceContext(traceId: bytes, spanId: bytes)
  datatype MethodMetrics = MethodMetrics(queueUs: nat, executionMs: nat)

  datatype Block = Block(
    trace: Option<TraceContext>,
    coloring: Option<bytes>,
    metrics: Option<MethodMetrics>,
    token: Option<bytes>,
    unknown: map<byte, bytes>)

  const EMPTY := Block(None, None, None, None, map[])

  // ---------------------------------------------------------------- values

  function TraceFromBytes(data: bytes): Result<TraceContext> {
    if |data| < 24 then Err(BadValue) else Ok(TraceContext(data[..16], data[16..24]))
  }

  /** `data[:n].ljust(n, b"\x00")`. */
  function Fitted(data: bytes, n: nat): bytes {
    if |data| >= n then data[..n] else data + seq(n - |data|, _ => 0)
  }

  function TraceToBytes(t: TraceContext): bytes {
    Fitted(t.traceId, 16) + Fitted(t.spanId, 8)
  }

  function ColoringFromBytes(data: bytes): Result<bytes> {
    if ValidUtf8(data) then Ok(data) else Err(BadUtf8)
  }

  function ColoringToBytes(tag: bytes): bytes {
    if |tag| > 255 then tag[..255] else tag
  }

  function MetricsFromBytes(data: bytes): Result<MethodMetrics> {
    if |data| < 8 then Err(BadValue) else Ok(MethodMetrics(Value(data[..4]), Value(data[4..8])))
  }

  function MetricsToBytes(m: MethodMetrics): Result<bytes> {
    if m.queueUs < 0x1_0000_0000 && m.executionMs < 0x1_0000_0000
    then Ok(Uint(m.queueUs, 4) + Uint(m.executionMs, 4))
    else Err(BadStruct)
  }

  function TokenFromBytes(data: bytes): Result<bytes> {
    if |data| < 16 then Err(BadValue) else Ok(data[..16])
  }

  // ---------------------------------------------------------------- parsing

  function TakeEntry(s: bytes): (r: Result<((byte, bytes), bytes)>)
    ensures r.Ok? ==> |r.value.1| < |s|
  {
    var (tag, afterTag) :- TakeByte(s);
    var (value, rest) :- TakePrefixed(afterTag, 2);
    Ok(((tag, value), rest))
  }

  /** One entry stored in a block, over whatever the block held under that tag. */
  function Store(b: Block, tag: byte, value: bytes): Result<Block> {
    if tag == TRACE_CONTEXT then
      var v :- TraceFromBytes(value); Ok(b.(trace := Some(v)))
    else if tag == TRAFFIC_COLORING then
      var v :- ColoringFromBytes(value); Ok(b.(coloring := Some(v)))
    else if tag == METHOD_METRICS then
      var v :- MetricsFromBytes(value); Ok(b.(metrics := Some(v)))
    else if tag == TENANT_QUOTA_TOKEN then
      var v :- TokenFromBytes(value); Ok(b.(token := Some(v)))
    else
      Ok(b.(unknown := b.unknown[tag := value]))
  }

  /** What the parsing loop makes of the bytes `s`, having reached the block `b`. */
  function ParseFrom(b: Block, s: bytes): Result<Block>
    decreases |s|
  {
    if |s| == 0 || TakeEntry(s).Err? then Ok(b) else
    var ((tag, value), rest) := TakeEntry(s).value;
    var stored :- Store(b, tag, value);
    ParseFrom(stored, rest)
  }

  function Parse(data: bytes): Result<Block> {
    ParseFrom(EMPTY, data)
  }

  /** Reads one entry in the three steps of the parsing loop. */
  method ReadEntry(reader: BinaryReader) returns (r: Result<(byte, bytes)>)
    requires reader.Valid()
    modifies reader
    ensures reader.Valid() && Reads(r, reader.Rest(), TakeEntry(old(reader.Rest())))
  {
    var tag :- reader.ReadByte();
    var length :- reader.ReadUint(2);
    var value :- reader.ReadBytes(length);
    r := Ok((tag, value));
  }

  method FromBytes(data: bytes) returns (r: Result<Block>)
    ensures r == Parse(data)
  {
    hide TakeEntry, Store;
    var block := EMPTY;
    var reader := new BinaryReader(data);
    var more := reader.HasRemaining();
    while more
      invariant reader.Valid() && fresh(reader)
      invariant more <==> reader.Rest() != []
      invariant ParseFrom(block, reader.Rest()) == Parse(data)
      decreases |reader.Rest()|
    {
      var entry := ReadEntry(reader);
      if entry.Err? {
        break;
      }
      var (tag, value) := entry.value;
      block :- Store(block, tag, value);
      more := reader.HasRemaining();
    }
    r := Ok(block);
  }

  // ---------------------------------------------------------------- serialising

  function EntryBytes(tag: byte, value: bytes): bytes {
    [tag] + Prefixed(value, 2)
  }

  function UnknownBytes(unknown: map<byte, bytes>, order: seq<byte>): bytes
    requires forall t :: t in order ==> t in unknown
  {
    if |order| == 0 then [] else EntryBytes(order[0], unknown[order[0]]) + UnknownBytes(unknown, order[1..])
  }

  /** `order` is an order in which the dictionary of unknown tags may list its keys. */
  ghost predicate ListsTags(order: seq<byte>, unknown: map<byte, bytes>) {
    && (forall t :: t in order <==> t in unknown)
    && (forall i, j :: 0 <= i < j < |order| ==> order[i] != order[j])
  }

  lemma ListsNoTags(order: seq<byte>, unknown: map<byte, bytes>)
    requires ListsTags(order, unknown)
    ensures order == [] <==> unknown == map[]
  {
    if order != [] {
      assert order[0] in unknown;
    } else {
      assert unknown.Keys == {};
    }
  }

  function OptionalEntry(tag: byte, value: Option<bytes>): bytes {
    if value.None? then [] else EntryBytes(tag, value.value)
  }

  function TraceValue(b: Block): Option<bytes> {
    if b.trace.None? then None else Some(TraceToBytes(b.trace.value))
  }

  function ColoringValue(b: Block): Option<bytes> {
    if b.coloring.None? then None else Some(ColoringToBytes(b.coloring.value))
  }

  function MetricsValue(b: Block): Result<Option<bytes>> {
    if b.metrics.None? then Ok(None) else
    var v :- MetricsToBytes(b.metrics.value);
    Ok(Some(v))
  }

  function TokenValue(b: Block): Option<bytes> {
    if b.token.None? then None else Some(Fitted(b.token.value, 16))
  }

  function ToBytes(b: Block, order: seq<byte>): Result<bytes>
    requires forall t :: t in order ==> t in b.unknown
  {
    var metrics :- MetricsValue(b);
    Ok(OptionalEntry(TRACE_CONTEXT, TraceValue(b))
       + (OptionalEntry(TRAFFIC_COLORING, ColoringValue(b))
          + (OptionalEntry(METHOD_METRICS, metrics)
             + (OptionalEntry(TENANT_QUOTA_TOKEN, TokenValue(b))
                + UnknownBytes(b.unknown, order)))))
  }

  method WriteEntry(writer: BinaryWriter, tag: byte, value: bytes)
    modifies writer
    ensures writer.buffer == old(writer.buffer) + EntryBytes(tag, value)
  {
    writer.WriteBytes([tag]);
    writer.WriteUint(|value|, 2);
    writer.WriteBytes(value);
  }

  method WriteOptional(writer: BinaryWriter, tag: byte, value: Option<bytes>)
    modifies writer
    ensures writer.buffer == old(writer.buffer) + OptionalEntry(tag, value)
  {
    if value.Some? {
      WriteEntry(writer, tag, value.value);
    }
  }

  method WriteUnknown(writer: BinaryWriter, unknown: map<byte, bytes>, order: seq<byte>)
    requires forall t :: t in order ==> t in unknown
    modifies writer
    ensures writer.buffer == old(writer.buffer) + UnknownBytes(unknown, order)
  {
    hide EntryBytes;
    for i := 0 to |order|
      invariant writer.buffer + UnknownBytes(unknown, order[i..]) == old(writer.buffer) + UnknownBytes(unknown, order)
    {
      ghost var before, entry := writer.buffer, EntryBytes(order[i], unknown[order[i]]);
      assert UnknownBytes(unknown, order[i..]) == entry + UnknownBytes(unknown, order[i + 1..]) by {
        assert order[i..][1..] == order[i + 1..];
      }
      WriteEntry(writer, order[i], unknown[order[i]]);
      assert writer.buffer == before + entry;
    }
    assert writer.buffer + [] == writer.buffer;
  }

  lemma WrittenInOrder(a: bytes, b: bytes, c: bytes, d: bytes, e: bytes)
    ensures [] + a + b + c + d + e == a + (b + (c + (d + e)))
  {
  }

  method WriteBlock(b: Block, order: seq<byte>) returns (r: Result<bytes>)
    requires ListsTags(order, b.unknown)
    ensures r == ToBytes(b, order)
  {
    hide EntryBytes, TraceToBytes, ColoringToBytes, Fitted, MetricsToBytes, UnknownBytes;
    var writer := new BinaryWriter();
    WriteOptional(writer, TRACE_CONTEXT, TraceValue(b));
    WriteOptional(writer, TRAFFIC_COLORING, ColoringValue(b));
    var metrics :- MetricsValue(b);
    WriteOptional(writer, METHOD_METRICS, metrics);
    WriteOptional(writer, TENANT_QUOTA_TOKEN, TokenValue(b));
    WriteUnknown(writer, b.unknown, order);
    WrittenInOrder(OptionalEntry(TRACE_CONTEXT, TraceValue(b)), OptionalEntry(TRAFFIC_COLORING, ColoringValue(b)),
                   OptionalEntry(METHOD_METRICS, metrics), OptionalEntry(TENANT_QUOTA_TOKEN, TokenValue(b)),
                   UnknownBytes(b.unknown, order));
    r := Ok(writer.buffer);
  }

  // ---------------------------------------------------------------- the shape of parsed blocks

  predicate IsKnown(tag: byte) {
    TRACE_CONTEXT <= tag <= TENANT_QUOTA_TOKEN
  }

  /** What every parsed block satisfies. */
  ghost predicate Normal(b: Block) {
    && (b.trace.Some? ==> |b.trace.value.traceId| == 16 && |b.trace.value.spanId| == 8)
    && (b.coloring.Some? ==> ValidUtf8(b.coloring.value))
    && (b.metrics.Some? ==> b.metrics.value.queueUs < 0x1_0000_0000 && b.metrics.value.executionMs < 0x1_0000_0000)
    && (b.token.Some? ==> |b.token.value| == 16)
    && (forall t :: t in b.unknown ==> !IsKnown(t) && |b.unknown[t]| < 0x1_0000)
  }

  lemma StoreNormal(b: Block, tag: byte, value: bytes)
    requires Normal(b) && |value| < Limit(2)
    ensures Store(b, tag, value).Ok? ==> Normal(Store(b, tag, value).value)
  {
    assert Limit(2) == 0x1_0000 && Limit(4) == 0x1_0000_0000;
    hide ValidUtf8, Value;
  }

  lemma {:induction false} ParseNormal(b: Block, s: bytes)
    requires Normal(b) && ParseFrom(b, s).Ok?
    ensures Normal(ParseFrom(b, s).value)
    decreases |s|
  {
    if |s| > 0 && TakeEntry(s).Ok? {
      var ((tag, value), rest) := TakeEntry(s).value;
      TakePrefixedSound(s[1..], 2, value, rest);
      StoreNormal(b, tag, value);
      hide Store, Normal, TakeEntry;
      ParseNormal(Store(b, tag, value).value, rest);
    }
  }

  // ---------------------------------------------------------------- serialise, then parse

  lemma TakeEntryInverts(tag: byte, value: bytes, rest: bytes)
    requires |value| < 0x1_0000
    ensures TakeEntry(EntryBytes(tag, value) + rest) == Ok(((tag, value), rest))
  {
    assert Limit(2) == 0x1_0000;
    TakePrefixedInverts(value, 2, rest);
    var whole := EntryBytes(tag, value) + rest;
    assert whole[0] == tag && whole[1..] == Prefixed(value, 2) + rest;
  }

  /** Parsing over a written entry stores its value and goes on. */
  lemma ParseEntry(b: Block, tag: byte, value: bytes, rest: bytes)
    requires |value| < 0x1_0000
    ensures var stored := Store(b, tag, value);
            ParseFrom(b, EntryBytes(tag, value) + rest)
              == if stored.Err? then stored else ParseFrom(stored.value, rest)
  {
    hide Store;
    TakeEntryInverts(tag, value, rest);
  }

  function Listed(unknown: map<byte, bytes>, order: seq<byte>): map<byte, bytes> {
    map t | t in order && t in unknown :: unknown[t]
  }

  lemma ListedStep(base: map<byte, bytes>, unknown: map<byte, bytes>, order: seq<byte>)
    requires |order| > 0 && order[0] in unknown
    ensures base[order[0] := unknown[order[0]]] + Listed(unknown, order[1..]) == base + Listed(unknown, order)
  {
    assert order == [order[0]] + order[1..];
  }

  ghost predicate Storable(unknown: map<byte, bytes>, order: seq<byte>) {
    forall t :: t in order ==> t in unknown && !IsKnown(t) && |unknown[t]| < 0x1_0000
  }

  /** An entry whose value is longer than its two-byte length can say is read as a shorter one, and the rest of the
      value as further bytes of the block. */
  lemma EntryCut(tag: byte, value: bytes, rest: bytes)
    ensures var n := |value| % 0x1_0000;
            EntryBytes(tag, value) + rest == EntryBytes(tag, value[..n]) + (value[n..] + rest)
  {
    var n := |value| % 0x1_0000;
    assert Limit(2) == 0x1_0000;
    SmallMod(n, 0x1_0000);
    var length := Masked(|value|, 2);
    assert length == Masked(|value[..n]|, 2);
    hide Masked;
    assert [tag] + (length + value) + rest == [tag] + (length + value[..n]) + (value[n..] + rest);
  }

  /** What the unknown tags of a dictionary do to a block they are parsed into, one after the other. */
  function Receive(b: Block, unknown: map<byte, bytes>, order: seq<byte>): Result<Block>
    requires forall t :: t in order ==> t in unknown
    decreases |order|
  {
    if |order| == 0 then Ok(b) else
    var value := unknown[order[0]];
    var n := |value| % 0x1_0000;
    var stored :- Store(b, order[0], value[..n]);
    if n == |value| then Receive(stored, unknown, order[1..])
    else ParseFrom(stored, value[n..] + UnknownBytes(unknown, order[1..]))
  }

  lemma {:induction false} ParseUnknown(b: Block, unknown: map<byte, bytes>, order: seq<byte>)
    requires forall t :: t in order ==> t in unknown
    ensures ParseFrom(b, UnknownBytes(unknown, order)) == Receive(b, unknown, order)
    decreases |order|
  {
    if |order| > 0 {
      var value, rest := unknown[order[0]], UnknownBytes(unknown, order[1..]);
      var n := |value| % 0x1_0000;
      hide Store, ParseFrom, EntryBytes;
      EntryCut(order[0], value, rest);
      ParseEntry(b, order[0], value[..n], value[n..] + rest);
      if n == |value| {
        assert value[n..] + rest == rest;
        var stored := Store(b, order[0], value[..n]);
        if stored.Ok? {
          ParseUnknown(stored.value, unknown, order[1..]);
        }
      }
    } else {
      ParseNothing(b);
    }
  }

  lemma ParseNothing(b: Block)
    ensures ParseFrom(b, []) == Ok(b)
  {
  }

  /** Tags that are unknown, with values short enough, are stored as they are, whatever their order. */
  lemma {:induction false} ReceiveStorable(b: Block, unknown: map<byte, bytes>, order: seq<byte>)
    requires Storable(unknown, order)
    ensures Receive(b, unknown, order) == Ok(b.(unknown := b.unknown + Listed(unknown, order)))
    decreases |order|
  {
    if |order| == 0 {
      assert b.unknown + Listed(unknown, order) == b.unknown;
    } else {
      var tag := order[0];
      var value := unknown[tag];
      var stored := b.(unknown := b.unknown[tag := value]);
      assert tag in order && value[..|value|] == value;
      assert Store(b, tag, value) == Ok(stored) && Storable(unknown, order[1..]);
      SmallMod(|value|, 0x1_0000);
      hide Store, ParseFrom, Storable, Listed;
      ReceiveStorable(stored, unknown, order[1..]);
      ListedStep(b.unknown, unknown, order);
    }
  }

  predicate MetricsFit(b: Block) {
    b.metrics.Some? ==> b.metrics.value.queueUs < 0x1_0000_0000 && b.metrics.value.executionMs < 0x1_0000_0000
  }

  function FittedTrace(t: TraceContext): TraceContext {
    TraceContext(Fitted(t.traceId, 16), Fitted(t.spanId, 8))
  }

  /** The block as it is sent: ids and token padded or cut to their lengths, and the coloring tag cut to 255 bytes. */
  function Sent(b: Block): Block {
    b.(trace := if b.trace.None? then None else Some(FittedTrace(b.trace.value)),
       coloring := ColoringValue(b),
       token := TokenValue(b))
  }

  /** A block of the shape that parsing gives is sent as it is, but for its tag. */
  lemma NormalSent(b: Block)
    requires Normal(b)
    ensures MetricsFit(b) && Sent(b) == b.(coloring := ColoringValue(b))
  {
    if b.trace.Some? {
      FittedWhole(b.trace.value.traceId);
      FittedWhole(b.trace.value.spanId);
    }
    if b.token.Some? {
      FittedWhole(b.token.value);
    }
  }

  lemma FittedWhole(data: bytes)
    ensures Fitted(data, |data|) == data
  {
  }

  lemma StoreWritten(b: Block, into: Block)
    requires MetricsFit(b)
    ensures b.trace.Some? ==>
      Store(into, TRACE_CONTEXT, TraceToBytes(b.trace.value)) == Ok(into.(trace := Sent(b).trace))
    ensures b.metrics.Some? ==>
      MetricsToBytes(b.metrics.value).Ok?
      && Store(into, METHOD_METRICS, MetricsToBytes(b.metrics.value).value) == Ok(into.(metrics := b.metrics))
    ensures b.token.Some? ==>
      Store(into, TENANT_QUOTA_TOKEN, Fitted(b.token.value, 16)) == Ok(into.(token := Sent(b).token))
  {
    if b.trace.Some? {
      var t := FittedTrace(b.trace.value);
      var out := TraceToBytes(b.trace.value);
      assert out[..16] == t.traceId && out[16..24] == t.spanId;
    }
    if b.metrics.Some? {
      StoreMetrics(b.metrics.value, into);
    }
    if b.token.Some? {
      assert Fitted(b.token.value, 16)[..16] == Fitted(b.token.value, 16);
    }
  }

  lemma StoreMetrics(m: MethodMetrics, into: Block)
    requires m.queueUs < 0x1_0000_0000 && m.executionMs < 0x1_0000_0000
    ensures MetricsToBytes(m).Ok?
    ensures Store(into, METHOD_METRICS, MetricsToBytes(m).value) == Ok(into.(metrics := Some(m)))
  {
    var out := MetricsToBytes(m).value;
    assert Limit(4) == 0x1_0000_0000;
    ValueOfUint(m.queueUs, 4);
    ValueOfUint(m.executionMs, 4);
    hide Uint, Value, Limit;
    assert out[..4] == Uint(m.queueUs, 4) && out[4..8] == Uint(m.executionMs, 4);
  }

  lemma ParseOptional(b: Block, tag: byte, value: Option<bytes>, rest: bytes)
    requires value.Some? ==> |value.value| < 0x1_0000
    ensures ParseFrom(b, OptionalEntry(tag, value) + rest)
         == if value.None? then ParseFrom(b, rest) else
            var stored := Store(b, tag, value.value);
            if stored.Err? then stored else ParseFrom(stored.value, rest)
  {
    if value.None? {
      assert [] + rest == rest;
    } else {
      ParseEntry(b, tag, value.value, rest);
    }
  }

  lemma WrittenLengths(b: Block)
    requires MetricsFit(b)
    ensures TraceValue(b).Some? ==> |TraceValue(b).value| < 0x1_0000
    ensures ColoringValue(b).Some? ==> |ColoringValue(b).value| < 0x1_0000
    ensures MetricsValue(b).Ok?
    ensures MetricsValue(b).value.Some? ==> |MetricsValue(b).value.value| < 0x1_0000
    ensures TokenValue(b).Some? ==> |TokenValue(b).value| < 0x1_0000
  {
  }

  predicate CutInsideCharacter(b: Block) {
    b.coloring.Some? && !ValidUtf8(ColoringToBytes(b.coloring.value))
  }

  /** What a receiver makes of a block: an error if its tag was cut inside a character, or else the known fields as
      they are sent, with the unknown tags parsed into them. */
  function Received(b: Block, order: seq<byte>): Result<Block>
    requires forall t :: t in order ==> t in b.unknown
  {
    if CutInsideCharacter(b) then Err(BadUtf8) else Receive(Sent(b).(unknown := map[]), b.unknown, order)
  }

  /** For every block a caller can build: serialising fails exactly if a metric does not fit its four bytes, and
      otherwise parsing what was serialised gives what is received. */
  lemma ParseToBytes(b: Block, order: seq<byte>)
    requires ListsTags(order, b.unknown)
    ensures ToBytes(b, order).Ok? <==> MetricsFit(b)
    ensures MetricsFit(b) ==> Parse(ToBytes(b, order).value) == Received(b, order)
  {
    if MetricsFit(b) {
      ParseWritten(b, order);
    }
  }

  lemma ParseWritten(b: Block, order: seq<byte>)
    requires MetricsFit(b) && ListsTags(order, b.unknown)
    ensures ToBytes(b, order).Ok? && Parse(ToBytes(b, order).value) == Received(b, order)
  {
    hide OptionalEntry, ParseFrom, TraceToBytes, Fitted, MetricsToBytes, ValidUtf8, UnknownBytes, Receive;
    var s5 := UnknownBytes(b.unknown, order);
    var s4 := OptionalEntry(TENANT_QUOTA_TOKEN, TokenValue(b)) + s5;
    var sent := Sent(b);
    var b1 := EMPTY.(trace := sent.trace);
    var b2 := b1.(coloring := sent.coloring);
    var b3 := b2.(metrics := b.metrics);
    var b4 := b3.(token := sent.token);
    StoreWritten(b, EMPTY);
    StoreWritten(b, b2);
    StoreWritten(b, b3);
    WrittenLengths(b);
    var metrics := MetricsValue(b).value;
    var s3 := OptionalEntry(METHOD_METRICS, metrics) + s4;
    var s2 := OptionalEntry(TRAFFIC_COLORING, ColoringValue(b)) + s3;
    ParseOptional(EMPTY, TRACE_CONTEXT, TraceValue(b), s2);
    assert ParseFrom(EMPTY, ToBytes(b, order).value) == ParseFrom(b1, s2);
    ParseOptional(b1, TRAFFIC_COLORING, ColoringValue(b), s3);
    ParseOptional(b2, METHOD_METRICS, metrics, s4);
    assert ParseFrom(b2, s3) == ParseFrom(b3, s4);
    ParseOptional(b3, TENANT_QUOTA_TOKEN, TokenValue(b), s5);
    assert ParseFrom(b3, s4) == ParseFrom(b4, s5);
    ParseUnknown(b4, b.unknown, order);
    assert b4 == sent.(unknown := map[]);
  }

  /** Without entries under the known tags or with values too long among the unknown ones, the block arrives as sent. */
  lemma ReceivedAsSent(b: Block, order: seq<byte>)
    requires ListsTags(order, b.unknown) && Storable(b.unknown, order) && !CutInsideCharacter(b)
    ensures Received(b, order) == Ok(Sent(b))
  {
    ReceiveStorable(Sent(b).(unknown := map[]), b.unknown, order);
    hide Receive;
    assert map[] + Listed(b.unknown, order) == b.unknown;
  }

  /** Which blocks come back as they were built: exactly those of the shape that parsing gives, with a tag of at most
      255 bytes. */
  lemma ComesBackExactly(b: Block, order: seq<byte>)
    requires ListsTags(order, b.unknown) && ToBytes(b, order).Ok?
    ensures Parse(ToBytes(b, order).value) == Ok(b)
       <==> Normal(b) && (b.coloring.Some? ==> |b.coloring.value| <= 255)
  {
    if Parse(ToBytes(b, order).value) == Ok(b) {
      ParseNormal(EMPTY, ToBytes(b, order).value);
    }
    if Normal(b) {
      hide ParseFrom, ToBytes, Receive;
      NormalSent(b);
      ParseToBytes(b, order);
      if !CutInsideCharacter(b) {
        ReceivedAsSent(b, order);
      }
    }
  }

  /** So serialising a parsed block and parsing again changes nothing, whatever the order of the unknown tags, if and
      only if its coloring tag has at most 255 bytes. */
  lemma ParsingNormalises(data: bytes, order: seq<byte>)
    requires Parse(data).Ok? && ListsTags(order, Parse(data).value.unknown)
    ensures ToBytes(Parse(data).value, order).Ok?
    ensures var b := Parse(data).value;
            Parse(ToBytes(b, order).value) == Ok(b) <==> (b.coloring.Some? ==> |b.coloring.value| <= 255)
  {
    var b := Parse(data).value;
    ParseNormal(EMPTY, data);
    NormalSent(b);
    ParseToBytes(b, order);
    ComesBackExactly(b, order);
    hide ParseFrom, ToBytes, Received;
  }

  // ---------------------------------------------------------------- concatenation

  /** A run of whole entries. */
  predicate Complete(s: bytes)
    decreases |s|
  {
    |s| == 0 || (TakeEntry(s).Ok? && Complete(TakeEntry(s).value.1))
  }

  function Later<T>(a: Option<T>, b: Option<T>): Option<T> {
    if b.Some? then b else a
  }

  /** Last wins, field by field and tag by tag. */
  function Merge(a: Block, b: Block): Block {
    Block(Later(a.trace, b.trace), Later(a.coloring, b.coloring), Later(a.metrics, b.metrics),
          Later(a.token, b.token), a.unknown + b.unknown)
  }

  lemma StoreMerges(a: Block, b: Block, tag: byte, value: bytes)
    ensures Store(Merge(a, b), tag, value)
         == if Store(b, tag, value).Err? then Store(b, tag, value) else Ok(Merge(a, Store(b, tag, value).value))
  {
    assert (a.unknown + b.unknown)[tag := value] == a.unknown + b.unknown[tag := value];
  }

  lemma {:induction false} ParseMerges(a: Block, b: Block, s: bytes)
    ensures ParseFrom(Merge(a, b), s)
         == if ParseFrom(b, s).Err? then ParseFrom(b, s) else Ok(Merge(a, ParseFrom(b, s).value))
    decreases |s|
  {
    if |s| > 0 && TakeEntry(s).Ok? {
      hide Store, Merge, TakeEntry;
      var ((tag, value), rest) := TakeEntry(s).value;
      StoreMerges(a, b, tag, value);
      if Store(b, tag, value).Ok? {
        ParseMerges(a, Store(b, tag, value).value, rest);
      }
    }
  }

  lemma TakeEntryExtends(s: bytes, more: bytes)
    requires TakeEntry(s).Ok?
    ensures TakeEntry(s + more) == Ok((TakeEntry(s).value.0, TakeEntry(s).value.1 + more))
  {
    var ((tag, value), rest) := TakeEntry(s).value;
    TakePrefixedSound(s[1..], 2, value, rest);
    TakePrefixedInverts(value, 2, rest + more);
    assert (s + more)[1..] == Prefixed(value, 2) + (rest + more);
  }

  lemma {:induction false} ParseConcat(b: Block, s: bytes, more: bytes)
    requires Complete(s)
    ensures ParseFrom(b, s + more)
         == if ParseFrom(b, s).Err? then ParseFrom(b, s) else ParseFrom(ParseFrom(b, s).value, more)
    decreases |s|
  {
    if |s| == 0 {
      assert s + more == more;
    } else {
      hide Store, TakeEntry;
      TakeEntryExtends(s, more);
      var ((tag, value), rest) := TakeEntry(s).value;
      if Store(b, tag, value).Ok? {
        ParseConcat(Store(b, tag, value).value, rest, more);
      }
    }
  }

  /** Whole runs concatenate as a last-wins merge; the first error wins. */
  lemma ConcatenationMerges(s: bytes, t: bytes)
    requires Complete(s)
    ensures Parse(s + t)
         == match (Parse(s), Parse(t))
            case (Err(e), _) => Err(e)
            case (Ok(_), Err(e)) => Err(e)
            case (Ok(a), Ok(b)) => Ok(Merge(a, b))
  {
    ParseConcat(EMPTY, s, t);
    if Parse(s).Ok? {
      var a := Parse(s).value;
      assert a.unknown + map[] == a.unknown;
      assert Merge(a, EMPTY) == a;
      ParseMerges(a, EMPTY, t);
    }
  }

  /** An entry cut short at the end changes nothing. */
  lemma IncompleteTailIgnored(s: bytes, tail: bytes)
    requires Complete(s) && TakeEntry(tail).Err?
    ensures Parse(s + tail) == Parse(s)
  {
    ParseConcat(EMPTY, s, tail);
  }

  // ---------------------------------------------------------------- the frame's own prefix

  /** `to_frame_bytes`. */
  function ToFrameBytes(b: Block, order: seq<byte>): Result<bytes>
    requires forall t :: t in order ==> t in b.unknown
  {
    var content :- ToBytes(b, order);
    if |content| >= 0x1_0000_0000 then Err(BadStruct) else Ok(Uint(|content|, 4) + content)
  }

  lemma {:induction false} ParseKeepsTags(b: Block, s: bytes, tag: byte)
    requires tag in b.unknown && ParseFrom(b, s).Ok?
    ensures tag in ParseFrom(b, s).value.unknown
    decreases |s|
  {
    if |s| > 0 && TakeEntry(s).Ok? {
      var ((t, value), rest) := TakeEntry(s).value;
      ParseKeepsTags(Store(b, t, value).value, rest, tag);
    }
  }

  lemma StoreTagZero(value: bytes)
    ensures Store(EMPTY, 0, value) == Ok(EMPTY.(unknown := map[0 := value]))
  {
  }

  lemma TopByteZero(v: nat)
    requires v < 0x100_0000
    ensures Uint(v, 4)[0] == 0
  {
    assert Uint(v, 4)[0] == Uint(v / 256, 3)[0] == Uint(v / 256 / 256, 2)[0] == Uint(v / 256 / 256 / 256, 1)[0];
  }

  /** There are only so many tags from `low` up. */
  lemma {:induction false} TagsCounted(order: seq<byte>, low: nat)
    requires low <= 256 && forall t :: t in order ==> low <= t
    requires forall i, j :: 0 <= i < j < |order| ==> order[i] != order[j]
    ensures |order| <= 256 - low
    decreases 256 - low
  {
    if order == [] {
    } else if low !in order {
      assert order[0] in order;
      TagsCounted(order, low + 1);
    } else {
      var i :| 0 <= i < |order| && order[i] == low;
      var others := order[..i] + order[i + 1..];
      forall t | t in others ensures low + 1 <= t {
        var j :| 0 <= j < |others| && others[j] == t;
        var k := if j < i then j else j + 1;
        assert t == order[k] && k != i && order[k] in order;
      }
      TagsCounted(others, low + 1);
    }
  }

  lemma {:induction false} UnknownSize(unknown: map<byte, bytes>, order: seq<byte>)
    requires forall t :: t in order ==> t in unknown && |unknown[t]| < 0x1_0000
    ensures |UnknownBytes(unknown, order)| <= 0x1_0002 * |order|
  {
    if |order| > 0 {
      assert order[0] in order;
      UnknownSize(unknown, order[1..]);
    }
  }

  /** Without an entry under tag 0 a block of the shape that parsing gives takes less than 2^24 bytes. */
  lemma NormalSize(b: Block, order: seq<byte>)
    requires Normal(b) && ListsTags(order, b.unknown) && 0 !in b.unknown
    ensures ToBytes(b, order).Ok? && |ToBytes(b, order).value| < 0x100_0000
  {
    NormalSent(b);
    UnknownSize(b.unknown, order);
    forall t | t in order ensures 5 <= t {
      assert t in b.unknown && !IsKnown(t);
    }
    TagsCounted(order, 5);
    hide UnknownBytes, ListsTags;
    KnownSizes(b);
  }

  lemma KnownSizes(b: Block)
    requires Normal(b)
    ensures MetricsValue(b).Ok?
    ensures |OptionalEntry(TRACE_CONTEXT, TraceValue(b))| <= 27
    ensures |OptionalEntry(TRAFFIC_COLORING, ColoringValue(b))| <= 258
    ensures |OptionalEntry(METHOD_METRICS, MetricsValue(b).value)| <= 11
    ensures |OptionalEntry(TENANT_QUOTA_TOKEN, TokenValue(b))| <= 19
  {
  }

  /** The frame encoder writes the length itself, so a block handed over with `to_frame_bytes` carries it twice;
      it is parsed back as it was only if it already had an entry under tag 0. */
  lemma FramePrefixTwice(b: Block, order: seq<byte>)
    requires ListsTags(order, b.unknown) && ToFrameBytes(b, order).Ok?
    ensures Parse(ToFrameBytes(b, order).value) == Ok(b) ==> 0 in b.unknown
  {
    var data := ToFrameBytes(b, order).value;
    if Parse(data) == Ok(b) && 0 !in b.unknown {
      ParseNormal(EMPTY, data);
      NormalSize(b, order);
      PrefixIsTagZero(b, ToBytes(b, order).value);
    }
  }

  lemma PrefixIsTagZero(b: Block, content: bytes)
    requires |content| < 0x100_0000
    ensures var data := Uint(|content|, 4) + content;
            Parse(data) == Ok(b) ==> 0 in b.unknown || (b == EMPTY && content != [])
  {
    var data := Uint(|content|, 4) + content;
    TopByteZero(|content|);
    hide Store;
    if TakeEntry(data).Ok? {
      var ((t, value), rest) := TakeEntry(data).value;
      assert t == 0;
      StoreTagZero(value);
      if Parse(data) == Ok(b) {
        ParseKeepsTags(EMPTY.(unknown := map[0 := value]), rest, 0);
      }
    } else if content == [] {
      EmptyPrefix();
    }
  }

  lemma SmallLengths()
    ensures Uint(0, 2) == [0, 0] && Uint(0, 4) == [0, 0, 0, 0] && Uint(6, 4) == [0, 0, 0, 6]
  {
    assert Uint(0, 1) == [0];
    assert Uint(0, 2) == [0, 0];
    assert Uint(0, 3) == [0, 0, 0];
  }

  lemma EntryOfNothing(tag: byte)
    ensures EntryBytes(tag, []) == [tag, 0, 0]
  {
    SmallLengths();
  }

  /** The length of nothing is an entry. */
  lemma EmptyPrefix()
    ensures TakeEntry(Uint(0, 4) + []).Ok?
  {
    TakeEntryInverts(0, [], [0]);
    EntryOfNothing(0);
    SmallLengths();
    hide Uint, EntryBytes, TakeEntry;
    assert Uint(0, 4) + [] == EntryBytes(0, []) + [0];
  }

  const TAG_ZERO_EXAMPLE := EMPTY.(unknown := map[0 := [], 6 := []])

  /** The exception is real: two empty entries, of which the first is under tag 0. */
  lemma TagZeroExample()
    ensures ListsTags([0, 6], TAG_ZERO_EXAMPLE.unknown) && ToFrameBytes(TAG_ZERO_EXAMPLE, [0, 6]).Ok?
    ensures Parse(ToFrameBytes(TAG_ZERO_EXAMPLE, [0, 6]).value) == Ok(TAG_ZERO_EXAMPLE)
  {
    ExampleBytes();
    ExampleParsed();
    hide ToFrameBytes, Parse;
  }

  lemma ExampleBytes()
    ensures ToFrameBytes(TAG_ZERO_EXAMPLE, [0, 6]) == Ok([0, 0, 0, 6, 0, 0, 0, 6, 0, 0])
  {
    var unknown, order: seq<byte> := TAG_ZERO_EXAMPLE.unknown, [0, 6];
    EntryOfNothing(0);
    EntryOfNothing(6);
    SmallLengths();
    hide EntryBytes, Uint;
    assert order[1..] == [6] && order[1..][1..] == [];
    var content: bytes := [0, 0, 0, 6, 0, 0];
    assert UnknownBytes(unknown, order) == content;
    var none: bytes := [];
    hide UnknownBytes;
    assert none + (none + (none + (none + content))) == content;
    assert ToBytes(TAG_ZERO_EXAMPLE, order) == Ok(content);
    assert Uint(6, 4) + content == [0, 0, 0, 6, 0, 0, 0, 6, 0, 0];
  }

  lemma ExampleParsed()
    ensures Parse([0, 0, 0, 6, 0, 0, 0, 6, 0, 0]) == Ok(TAG_ZERO_EXAMPLE)
  {
    EntryOfNothing(0);
    EntryOfNothing(6);
    hide ParseFrom, EntryBytes, Store;
    var data: bytes, tail: bytes := [0, 0, 0, 6, 0, 0, 0, 6, 0, 0], [0, 6, 0, 0];
    assert data == EntryBytes(0, []) + (EntryBytes(6, []) + tail);
    ParseEntry(EMPTY, 0, [], EntryBytes(6, []) + tail);
    StoreTagZero([]);
    var b1 := EMPTY.(unknown := map[0 := []]);
    ParseEntry(b1, 6, [], tail);
    StoreTagSix(b1);
    assert b1.unknown[6 := []] == TAG_ZERO_EXAMPLE.unknown;
    TailTooShort(TAG_ZERO_EXAMPLE);
  }

  lemma StoreTagSix(b: Block)
    ensures Store(b, 6, []) == Ok(b.(unknown := b.unknown[6 := []]))
  {
  }

  lemma TailTooShort(b: Block)
    ensures ParseFrom(b, [0, 6, 0, 0]) == Ok(b)
  {
    var tail: bytes := [0, 6, 0, 0];
    var length: bytes := [6, 0];
    assert tail[1..] == [6, 0, 0] && tail[1..][..2] == length && tail[1..][2..] == [0];
    assert length[..1] == [6] && length[..1][..0] == [];
    assert Value(length[..1]) == 6;
    assert Value(length) == 1536;
  }
}
