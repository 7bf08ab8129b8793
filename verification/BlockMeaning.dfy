/** What a governance block says, told entry by entry from its bytes. */
module BlockMeaning {
  import opened Governance
  import opened Wire

  /** The whole entries at the front of some bytes: a tag, two bytes of length, and that many bytes. */
  function Entries(s: bytes): seq<(byte, bytes)>
    decreases |s|
  {
    if |s| < 3 || |s| < End(s) then [] else [(s[0], s[3..End(s)])] + Entries(s[End(s)..])
  }

  function End(s: bytes): (end: nat)
    requires |s| >= 3
    ensures end >= 3
  {
    3 + 256 * (s[1] as int) + s[2] as int
  }

  /** The value of the last entry with a tag. */
  function LastOf(entries: seq<(byte, bytes)>, tag: byte): Option<bytes> {
    if |entries| == 0 then None
    else if LastOf(entries[1..], tag).Some? then LastOf(entries[1..], tag)
    else if entries[0].0 == tag then Some(entries[0].1) else None
  }

  /** What is wrong with an entry: too few bytes under 1, 3 and 4, or no text under 2. */
  function Fault(entry: (byte, bytes)): Option<Error> {
    if (entry.0 == 1 && |entry.1| < 24) || (entry.0 == 3 && |entry.1| < 8) || (entry.0 == 4 && |entry.1| < 16)
    then Some(BadValue)
    else if entry.0 == 2 && !ValidUtf8(entry.1) then Some(BadUtf8) else None
  }

  function FirstFault(entries: seq<(byte, bytes)>): Option<Error> {
    if |entries| == 0 then None
    else if Fault(entries[0]).Some? then Fault(entries[0])
    else FirstFault(entries[1..])
  }

  function TraceIn(value: Option<bytes>, otherwise: Option<TraceContext>): Option<TraceContext> {
    if value.Some? && |value.value| >= 24 then Some(TraceContext(value.value[..16], value.value[16..24])) else otherwise
  }

  function MetricsIn(value: Option<bytes>, otherwise: Option<MethodMetrics>): Option<MethodMetrics> {
    if value.Some? && |value.value| >= 8
    then Some(MethodMetrics(Value(value.value[..4]), Value(value.value[4..8]))) else otherwise
  }

  function TokenIn(value: Option<bytes>, otherwise: Option<bytes>): Option<bytes> {
    if value.Some? && |value.value| >= 16 then Some(value.value[..16]) else otherwise
  }

  /** `b` holds what the entries say, over what `before` held: under 1 a trace id of 16 bytes and a span id of 8,
      under 2 a text, under 3 the time in the queue and then the time of execution, under 4 a token of 16 bytes, and
      under every other tag the bytes as they are. */
  ghost predicate Holds(before: Block, entries: seq<(byte, bytes)>, b: Block) {
    && b.trace == TraceIn(LastOf(entries, 1), before.trace)
    && b.coloring == Later(before.coloring, LastOf(entries, 2))
    && b.metrics == MetricsIn(LastOf(entries, 3), before.metrics)
    && b.token == TokenIn(LastOf(entries, 4), before.token)
    && forall t: byte :: HoldsUnder(before, entries, b, t)
  }

  predicate HoldsUnder(before: Block, entries: seq<(byte, bytes)>, b: Block, t: byte) {
    if 1 <= t <= 4 || LastOf(entries, t).None?
    then (t in b.unknown <==> t in before.unknown) && (t in b.unknown ==> b.unknown[t] == before.unknown[t])
    else t in b.unknown && b.unknown[t] == LastOf(entries, t).value
  }

  lemma EntryTaken(s: bytes)
    ensures TakeEntry(s).Ok? <==> |s| >= 3 && |s| >= End(s)
    ensures TakeEntry(s).Ok? ==> TakeEntry(s) == Ok(((s[0], s[3..End(s)]), s[End(s)..]))
  {
    if |s| >= 3 {
      var length := s[1..][..2];
      assert length == [s[1], s[2]];
      TwoByteValue(s[1], s[2]);
      hide Value;
      var end := End(s);
      assert s[1..][2..] == s[3..];
      if |s| >= end {
        assert s[3..][..end - 3] == s[3..end] && s[3..][end - 3..] == s[end..];
      }
    }
  }

  lemma TwoByteValue(a: byte, b: byte)
    ensures Value([a, b]) == 256 * (a as int) + b as int
  {
    assert [a, b][..1] == [a] && [a][..0] == [];
    assert Value([a]) == a;
  }

  lemma StoreFault(b: Block, tag: byte, value: bytes)
    ensures match Fault((tag, value))
            case Some(e) => Store(b, tag, value) == Err(e)
            case None => Store(b, tag, value).Ok?
  {
    hide ValidUtf8, Value;
  }

  /** Storing one entry, and then what the later ones say, is what they say together. */
  lemma HoldsMore(b: Block, tag: byte, value: bytes, later: seq<(byte, bytes)>, last: Block)
    requires Store(b, tag, value).Ok? && Holds(Store(b, tag, value).value, later, last) && FirstFault(later).None?
    ensures Holds(b, [(tag, value)] + later, last)
  {
    NoFaultLast(later, 1);
    NoFaultLast(later, 3);
    NoFaultLast(later, 4);
    hide ValidUtf8, Value, FirstFault, LastOf;
    LastOfMore(tag, value, later, 1);
    LastOfMore(tag, value, later, 2);
    LastOfMore(tag, value, later, 3);
    LastOfMore(tag, value, later, 4);
    forall t: byte ensures HoldsUnder(b, [(tag, value)] + later, last, t) {
      LastOfMore(tag, value, later, t);
      assert HoldsUnder(Store(b, tag, value).value, later, last, t);
    }
  }

  lemma LastOfMore(tag: byte, value: bytes, later: seq<(byte, bytes)>, t: byte)
    ensures LastOf([(tag, value)] + later, t)
         == if LastOf(later, t).Some? then LastOf(later, t) else if tag == t then Some(value) else None
  {
    assert ([(tag, value)] + later)[1..] == later;
  }

  lemma {:induction false} NoFaultLast(entries: seq<(byte, bytes)>, tag: byte)
    requires FirstFault(entries).None?
    ensures LastOf(entries, tag).Some? ==> Fault((tag, LastOf(entries, tag).value)).None?
  {
    if |entries| > 0 {
      NoFaultLast(entries[1..], tag);
    }
  }

  /** What parsing finds, told from the entries alone: the first faulty one decides the error, and without one every
      field holds what the last entry under its tag says. */
  lemma {:induction false} ParseMeans(b: Block, s: bytes)
    ensures match FirstFault(Entries(s))
            case Some(e) => ParseFrom(b, s) == Err(e)
            case None => ParseFrom(b, s).Ok? && Holds(b, Entries(s), ParseFrom(b, s).value)
    decreases |s|
  {
    EntryTaken(s);
    if TakeEntry(s).Err? {
      HoldsNothing(b);
    } else {
      var ((tag, value), rest) := TakeEntry(s).value;
      assert Entries(s) == [(tag, value)] + Entries(rest) && Entries(s)[1..] == Entries(rest);
      StoreFault(b, tag, value);
      hide Store, Holds, TakeEntry, Entries, Fault;
      if Store(b, tag, value).Ok? {
        ParseMeans(Store(b, tag, value).value, rest);
        if FirstFault(Entries(rest)).None? {
          HoldsMore(b, tag, value, Entries(rest), ParseFrom(Store(b, tag, value).value, rest).value);
        }
      }
    }
  }

  lemma HoldsNothing(b: Block)
    ensures Holds(b, [], b)
  {
  }

  lemma BlockMeans(data: bytes)
    ensures match FirstFault(Entries(data))
            case Some(e) => Parse(data) == Err(e)
            case None => Parse(data).Ok? && Holds(EMPTY, Entries(data), Parse(data).value)
  {
    ParseMeans(EMPTY, data);
    hide ParseFrom, Holds, Entries, FirstFault;
  }

  // ---------------------------------------------------------------- how a block is written

  /** The first `n` bytes, with zeros for those that are missing. */
  ghost predicate PaddedTo(data: bytes, n: nat, out: bytes) {
    && |out| == n
    && forall i :: 0 <= i < n ==> out[i] == if i < |data| then data[i] else 0
  }

  /** An entry: the tag, the length in two bytes, and the value, if there is one. */
  function Written(tag: byte, value: Option<bytes>): bytes {
    if value.None? then [] else [tag, |value.value| / 256 % 256, |value.value| % 256] + value.value
  }

  lemma LengthBytes(v: nat)
    ensures Masked(v, 2) == [v / 256 % 256, v % 256]
  {
    assert Limit(2) == 0x1_0000;
    var w := v % 0x1_0000;
    assert Uint(w / 256, 1) == [w / 256 % 256];
    assert w / 256 % 256 == v / 256 % 256 && w % 256 == v % 256 by { LowBytes(v); }
  }

  lemma LowBytes(v: nat)
    ensures v % 0x1_0000 / 256 % 256 == v / 256 % 256 && v % 0x1_0000 % 256 == v % 256
  {
    var q := v / 0x1_0000;
    assert v == 0x1_0000 * q + v % 0x1_0000;
    assert v / 256 == 256 * q + v % 0x1_0000 / 256;
  }

  lemma EntryWritten(tag: byte, value: bytes)
    ensures EntryBytes(tag, value) == Written(tag, Some(value))
  {
    LengthBytes(|value|);
    hide Masked;
  }

  lemma FittedPads(data: bytes, n: nat)
    ensures PaddedTo(data, n, Fitted(data, n))
  {
  }

  /** A block is written as the trace under 1, the coloring tag under 2, cut to 255 bytes, the metrics under 3, in the
      queue and then of execution, the token under 4, and then the unknown tags in their order. */
  lemma BlockWritten(b: Block, order: seq<byte>) returns (trace: Option<bytes>, token: Option<bytes>)
    requires ListsTags(order, b.unknown) && ToBytes(b, order).Ok?
    ensures if b.trace.None? then trace == None
            else trace.Some? && |trace.value| == 24 && PaddedTo(b.trace.value.traceId, 16, trace.value[..16])
                 && PaddedTo(b.trace.value.spanId, 8, trace.value[16..])
    ensures if b.token.None? then token == None else token.Some? && PaddedTo(b.token.value, 16, token.value)
    ensures var coloring :=
              if b.coloring.Some? && |b.coloring.value| > 255 then Some(b.coloring.value[..255]) else b.coloring;
            var metrics :=
              if b.metrics.None? then None
              else Some(Uint(b.metrics.value.queueUs, 4) + Uint(b.metrics.value.executionMs, 4));
            ToBytes(b, order).value
              == Written(1, trace) + (Written(2, coloring) + (Written(3, metrics)
                 + (Written(4, token) + UnknownBytes(b.unknown, order))))
  {
    trace, token := TraceValue(b), TokenValue(b);
    if b.trace.Some? {
      FittedPads(b.trace.value.traceId, 16);
      FittedPads(b.trace.value.spanId, 8);
      var first := Fitted(b.trace.value.traceId, 16);
      assert trace.value[..16] == first && trace.value[16..] == Fitted(b.trace.value.spanId, 8);
    }
    if b.token.Some? {
      FittedPads(b.token.value, 16);
    }
    hide Fitted, PaddedTo, Written, UnknownBytes, EntryBytes, Uint;
    WrittenOptional(1, TraceValue(b));
    WrittenOptional(2, ColoringValue(b));
    WrittenOptional(3, MetricsValue(b).value);
    WrittenOptional(4, TokenValue(b));
  }

  lemma WrittenOptional(tag: byte, value: Option<bytes>)
    ensures OptionalEntry(tag, value) == Written(tag, value)
  {
    if value.Some? {
      EntryWritten(tag, value.value);
    }
  }

  /** Each unknown tag is written as the known ones are. */
  lemma UnknownWritten(unknown: map<byte, bytes>, order: seq<byte>)
    requires forall t :: t in order ==> t in unknown
    ensures UnknownBytes(unknown, order)
         == if |order| == 0 then [] else Written(order[0], Some(unknown[order[0]])) + UnknownBytes(unknown, order[1..])
  {
    if |order| > 0 {
      EntryWritten(order[0], unknown[order[0]]);
      hide EntryBytes, Written;
    }
  }
}
