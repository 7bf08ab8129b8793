/** Service snapshots: nested arrays of instances and of metadata entries, and the wire layout that
    sections 6.5 and 6.6.8 of the HMMP specification v07 give them. */
module Snapshots {
  import opened Wire
  import opened Codec

  const IPV4 := 0x04
  const IPV6 := 0x06

  /** `weight` is the bit pattern of the 32-bit float. */
  datatype ServiceInstance = ServiceInstance(
    serviceName: bytes,
    ipType: nat,
    ip: bytes,
    port: nat,
    healthy: bool,
    weight: nat,
    metricsPack: nat,
    metadataHash: nat,
    metadata: map<bytes, bytes>)

  datatype ServiceSnapshot = ServiceSnapshot(serviceName: bytes, topologyVersion: nat, instances: seq<ServiceInstance>)

  datatype FilteredSnapshot = FilteredSnapshot(
    serviceName: bytes,
    topologyVersion: nat,
    totalCount: nat,
    instances: seq<ServiceInstance>)

  // ---------------------------------------------------------------- parsing

  function IpLength(ipType: nat): nat {
    if ipType == IPV4 then 4 else 16
  }

  function TakeInstance(s: bytes, serviceName: bytes): Result<(ServiceInstance, bytes)> {
    var (ipType, s1) :- TakeByte(s);
    if ipType != IPV4 && ipType != IPV6 then Err(BadValue) else
    var (port, s2) :- TakeUint(s1, 2);
    var (healthy, s3) :- TakeByte(s2);
    var (ip, s4) :- TakeBytes(s3, IpLength(ipType));
    var (weight, s5) :- TakeUint(s4, 4);
    var (metricsPack, s6) :- TakeUint(s5, 4);
    var (metadataHash, rest) :- TakeUint(s6, 8);
    Ok((ServiceInstance(serviceName, ipType, ip, port, healthy == 1, weight, metricsPack, metadataHash, map[]), rest))
  }

  function TakeEntry(s: bytes): Result<((bytes, bytes), bytes)> {
    var (key, s1) :- TakeString(s, 1);
    var (value, rest) :- TakeString(s1, 2);
    Ok(((key, value), rest))
  }

  /** `count` entries read into `m`; a repeated key keeps its last value. */
  function TakeEntries(s: bytes, count: nat, m: map<bytes, bytes>): Result<(map<bytes, bytes>, bytes)>
    decreases count
  {
    if count == 0 then Ok((m, s)) else
    var ((key, value), s1) :- TakeEntry(s);
    TakeEntries(s1, count - 1, m[key := value])
  }

  function TakeItem(s: bytes, serviceName: bytes, withMetadata: bool): Result<(ServiceInstance, bytes)> {
    var (instance, s1) :- TakeInstance(s, serviceName);
    if !withMetadata then Ok((instance, s1)) else
    var (count, s2) :- TakeUint(s1, 2);
    var (metadata, rest) :- TakeEntries(s2, count, instance.metadata);
    Ok((instance.(metadata := metadata), rest))
  }

  function TakeItems(s: bytes, serviceName: bytes, withMetadata: bool, count: nat)
    : Result<(seq<ServiceInstance>, bytes)>
    decreases count
  {
    if count == 0 then Ok(([], s)) else
    var (first, s1) :- TakeItem(s, serviceName, withMetadata);
    var (others, rest) :- TakeItems(s1, serviceName, withMetadata, count - 1);
    Ok(([first] + others, rest))
  }

  function TakeServiceSnapshot(s: bytes): Result<(ServiceSnapshot, bytes)> {
    var (name, s1) :- TakeString(s, 2);
    var (version, s2) :- TakeUint(s1, 8);
    var (count, s3) :- TakeUint(s2, 2);
    var (instances, rest) :- TakeItems(s3, name, false, count);
    Ok((ServiceSnapshot(name, version, instances), rest))
  }

  function TakeFilteredSnapshot(s: bytes, withMetadata: bool): Result<(FilteredSnapshot, bytes)> {
    var (name, s1) :- TakeString(s, 2);
    var (version, s2) :- TakeUint(s1, 8);
    var (total, s3) :- TakeUint(s2, 2);
    var (count, s4) :- TakeUint(s3, 2);
    var (instances, rest) :- TakeItems(s4, name, withMetadata, count);
    Ok((FilteredSnapshot(name, version, total, instances), rest))
  }

  method ReadInstance(reader: BinaryReader, serviceName: bytes) returns (r: Result<ServiceInstance>)
    requires reader.Valid()
    modifies reader
    ensures reader.Valid() && Reads(r, reader.Rest(), TakeInstance(old(reader.Rest()), serviceName))
  {
    hide TakeUint, TakeBytes;
    var ipType :- reader.ReadByte();
    if ipType != IPV4 && ipType != IPV6 {
      return Err(BadValue);
    }
    var port :- reader.ReadUint(2);
    var healthy :- reader.ReadByte();
    var ip :- reader.ReadBytes(IpLength(ipType));
    var weight :- reader.ReadUint(4);
    var metricsPack :- reader.ReadUint(4);
    var metadataHash :- reader.ReadUint(8);
    r := Ok(ServiceInstance(serviceName, ipType, ip, port, healthy == 1, weight, metricsPack, metadataHash, map[]));
  }

  /** The inner loop: it fills the metadata dictionary of one instance. */
  method ReadEntries(reader: BinaryReader, count: nat, m: map<bytes, bytes>) returns (r: Result<map<bytes, bytes>>)
    requires reader.Valid()
    modifies reader
    ensures reader.Valid() && Reads(r, reader.Rest(), TakeEntries(old(reader.Rest()), count, m))
  {
    hide TakeString;
    var metadata := m;
    for i := 0 to count
      invariant reader.Valid()
      invariant TakeEntries(reader.Rest(), count - i, metadata) == TakeEntries(old(reader.Rest()), count, m)
    {
      var key :- reader.ReadString(1);
      var value :- reader.ReadString(2);
      metadata := metadata[key := value];
    }
    r := Ok(metadata);
  }

  method ReadItem(reader: BinaryReader, serviceName: bytes, withMetadata: bool) returns (r: Result<ServiceInstance>)
    requires reader.Valid()
    modifies reader
    ensures reader.Valid() && Reads(r, reader.Rest(), TakeItem(old(reader.Rest()), serviceName, withMetadata))
  {
    hide TakeInstance, TakeEntries, TakeUint;
    var instance :- ReadInstance(reader, serviceName);
    if withMetadata {
      var count :- reader.ReadUint(2);
      var metadata :- ReadEntries(reader, count, instance.metadata);
      instance := instance.(metadata := metadata);
    }
    r := Ok(instance);
  }

  type Items = Result<(seq<ServiceInstance>, bytes)>

  /** `before` and what `spec` reads: the list so far, followed by the items still to come. */
  function Prepend(before: seq<ServiceInstance>, spec: Items): Items {
    match spec
    case Ok((items, rest)) => Ok((before + items, rest))
    case Err(e) => Err(e)
  }

  lemma PrependNone(spec: Items)
    ensures Prepend([], spec) == spec
  {
    assert spec.Ok? ==> [] + spec.value.0 == spec.value.0;
  }

  lemma PrependTwice(before: seq<ServiceInstance>, instance: ServiceInstance, spec: Items)
    ensures Prepend(before, Prepend([instance], spec)) == Prepend(before + [instance], spec)
  {
    assert spec.Ok? ==> before + ([instance] + spec.value.0) == (before + [instance]) + spec.value.0;
  }

  lemma TakeItemsStep(s: bytes, serviceName: bytes, withMetadata: bool, count: nat)
    requires count > 0
    ensures TakeItems(s, serviceName, withMetadata, count)
         == match TakeItem(s, serviceName, withMetadata)
            case Ok((instance, rest)) => Prepend([instance], TakeItems(rest, serviceName, withMetadata, count - 1))
            case Err(e) => Err(e)
  {
    hide TakeItem;
  }

  lemma TakeItemsDone(before: seq<ServiceInstance>, s: bytes, serviceName: bytes, withMetadata: bool)
    ensures Prepend(before, TakeItems(s, serviceName, withMetadata, 0)) == Ok((before, s))
  {
    assert before + [] == before;
  }

  /** The outer loop. */
  method ReadItems(reader: BinaryReader, serviceName: bytes, withMetadata: bool, count: nat)
    returns (r: Result<seq<ServiceInstance>>)
    requires reader.Valid()
    modifies reader
    ensures reader.Valid()
    ensures Reads(r, reader.Rest(), TakeItems(old(reader.Rest()), serviceName, withMetadata, count))
  {
    hide TakeItem, TakeItems, Prepend;
    var instances: seq<ServiceInstance> := [];
    PrependNone(TakeItems(reader.Rest(), serviceName, withMetadata, count));
    for i := 0 to count
      invariant reader.Valid()
      invariant Prepend(instances, TakeItems(reader.Rest(), serviceName, withMetadata, count - i))
             == TakeItems(old(reader.Rest()), serviceName, withMetadata, count)
    {
      TakeItemsStep(reader.Rest(), serviceName, withMetadata, count - i);
      PrependError(instances);
      var instance :- ReadItem(reader, serviceName, withMetadata);
      PrependTwice(instances, instance, TakeItems(reader.Rest(), serviceName, withMetadata, count - i - 1));
      instances := instances + [instance];
    }
    TakeItemsDone(instances, reader.Rest(), serviceName, withMetadata);
    r := Ok(instances);
  }

  lemma PrependError(before: seq<ServiceInstance>)
    ensures forall e: Error :: Prepend(before, Err(e)) == Err(e)
  {
  }

  method ServiceSnapshotFromBytes(data: bytes) returns (r: Result<ServiceSnapshot>)
    ensures match TakeServiceSnapshot(data) case Ok((snapshot, _)) => r == Ok(snapshot) case Err(e) => r == Err(e)
  {
    hide TakeServiceSnapshot;
    var reader := new BinaryReader(data);
    r := ReadServiceSnapshot(reader);
  }

  method ReadServiceSnapshot(reader: BinaryReader) returns (r: Result<ServiceSnapshot>)
    requires reader.Valid()
    modifies reader
    ensures reader.Valid() && Reads(r, reader.Rest(), TakeServiceSnapshot(old(reader.Rest())))
  {
    hide TakeString, TakeUint, TakeItems;
    var serviceName :- reader.ReadString(2);
    var topologyVersion :- reader.ReadUint(8);
    var instanceCount :- reader.ReadUint(2);
    var instances :- ReadItems(reader, serviceName, false, instanceCount);
    r := Ok(ServiceSnapshot(serviceName, topologyVersion, instances));
  }

  method FilteredSnapshotFromBytes(data: bytes, includeMetadata: bool) returns (r: Result<FilteredSnapshot>)
    ensures match TakeFilteredSnapshot(data, includeMetadata)
            case Ok((snapshot, _)) => r == Ok(snapshot)
            case Err(e) => r == Err(e)
  {
    hide TakeFilteredSnapshot;
    var reader := new BinaryReader(data);
    r := ReadFilteredSnapshot(reader, includeMetadata);
  }

  method ReadFilteredSnapshot(reader: BinaryReader, includeMetadata: bool) returns (r: Result<FilteredSnapshot>)
    requires reader.Valid()
    modifies reader
    ensures reader.Valid() && Reads(r, reader.Rest(), TakeFilteredSnapshot(old(reader.Rest()), includeMetadata))
  {
    hide TakeString, TakeUint, TakeItems;
    var serviceName :- reader.ReadString(2);
    var topologyVersion :- reader.ReadUint(8);
    var totalCount :- reader.ReadUint(2);
    var instanceCount :- reader.ReadUint(2);
    var instances :- ReadItems(reader, serviceName, includeMetadata, instanceCount);
    r := Ok(FilteredSnapshot(serviceName, topologyVersion, totalCount, instances));
  }

  // ---------------------------------------------------------------- the layout of the specification

  type Entries = seq<(bytes, bytes)>

  /** One array item as a server lays it out: the instance and its metadata entries in wire order. */
  datatype Item = Item(ipType: nat, ip: bytes, port: nat, healthy: bool, weight: nat, metricsPack: nat,
    metadataHash: nat, entries: Entries)

  function EntryBytes(entry: (bytes, bytes)): bytes {
    Prefixed(entry.0, 1) + Prefixed(entry.1, 2)
  }

  function EntriesBytes(entries: Entries): bytes {
    if |entries| == 0 then [] else EntryBytes(entries[0]) + EntriesBytes(entries[1..])
  }

  function InstanceBytes(item: Item): bytes {
    Uint(item.ipType, 1) + (Uint(item.port, 2) + (Uint(if item.healthy then 1 else 0, 1) + (item.ip
      + (Uint(item.weight, 4) + (Uint(item.metricsPack, 4) + Uint(item.metadataHash, 8))))))
  }

  function ItemBytes(item: Item, withMetadata: bool): bytes {
    if withMetadata then InstanceBytes(item) + (Uint(|item.entries|, 2) + EntriesBytes(item.entries))
    else InstanceBytes(item)
  }

  function ItemsBytes(items: seq<Item>, withMetadata: bool): bytes {
    if |items| == 0 then [] else ItemBytes(items[0], withMetadata) + ItemsBytes(items[1..], withMetadata)
  }

  function ServiceSnapshotBytes(name: bytes, version: nat, items: seq<Item>): bytes {
    Prefixed(name, 2) + (Uint(version, 8) + (Uint(|items|, 2) + ItemsBytes(items, false)))
  }

  function FilteredSnapshotBytes(name: bytes, version: nat, total: nat, items: seq<Item>, withMetadata: bool): bytes {
    Prefixed(name, 2) + (Uint(version, 8) + (Uint(total, 2) + (Uint(|items|, 2) + ItemsBytes(items, withMetadata))))
  }

  predicate EntryFits(entry: (bytes, bytes)) {
    |entry.0| < 0x100 && ValidUtf8(entry.0) && |entry.1| < 0x1_0000 && ValidUtf8(entry.1)
  }

  ghost predicate ItemFits(item: Item) {
    && (item.ipType == IPV4 || item.ipType == IPV6) && |item.ip| == IpLength(item.ipType)
    && item.port < 0x1_0000 && item.weight < 0x1_0000_0000 && item.metricsPack < 0x1_0000_0000
    && item.metadataHash < 0x1_0000_0000_0000_0000
    && |item.entries| < 0x1_0000 && forall e :: e in item.entries ==> EntryFits(e)
  }

  ghost predicate SnapshotFits(name: bytes, version: nat, items: seq<Item>) {
    && |name| < 0x1_0000 && ValidUtf8(name) && version < 0x1_0000_0000_0000_0000
    && |items| < 0x1_0000 && forall i :: i in items ==> ItemFits(i)
  }

  function DictOf(entries: Entries): map<bytes, bytes> {
    if |entries| == 0 then map[] else
    var (key, value) := entries[|entries| - 1];
    DictOf(entries[..|entries| - 1])[key := value]
  }

  /** What a dictionary filled from a list of entries holds: for each key, the value it came with last. */
  lemma {:induction false} DictOfHoldsLast(entries: Entries, i: nat)
    requires i < |entries| && forall j :: i < j < |entries| ==> entries[j].0 != entries[i].0
    ensures entries[i].0 in DictOf(entries) && DictOf(entries)[entries[i].0] == entries[i].1
  {
    if i < |entries| - 1 {
      DictOfHoldsLast(entries[..|entries| - 1], i);
    }
  }

  function Decoded(name: bytes, item: Item, withMetadata: bool): ServiceInstance {
    ServiceInstance(name, item.ipType, item.ip, item.port, item.healthy, item.weight, item.metricsPack,
                    item.metadataHash, if withMetadata then DictOf(item.entries) else map[])
  }

  function AllDecoded(name: bytes, items: seq<Item>, withMetadata: bool): seq<ServiceInstance> {
    if |items| == 0 then [] else [Decoded(name, items[0], withMetadata)] + AllDecoded(name, items[1..], withMetadata)
  }

  // ---------------------------------------------------------------- round trips

  lemma Limits()
    ensures Limit(1) == 0x100 && Limit(2) == 0x1_0000 && Limit(4) == 0x1_0000_0000
    ensures Limit(8) == 0x1_0000_0000_0000_0000
  {
  }

  lemma OneByte(b: byte, rest: bytes)
    ensures TakeByte(Uint(b, 1) + rest) == Ok((b, rest))
  {
    assert Uint(b, 1) == [b];
    assert ([b] + rest)[1..] == rest;
  }

  lemma InstanceInverts(item: Item, name: bytes, rest: bytes)
    requires ItemFits(item)
    ensures TakeInstance(InstanceBytes(item) + rest, name) == Ok((Decoded(name, item, false), rest))
  {
    Limits();
    hide Uint, TakeUint, TakeBytes, TakeByte, Limit;
    var healthy: byte := if item.healthy then 1 else 0;
    var s6 := Uint(item.metadataHash, 8) + rest;
    var s5 := Uint(item.metricsPack, 4) + s6;
    var s4 := Uint(item.weight, 4) + s5;
    var s3 := item.ip + s4;
    var s2 := Uint(healthy, 1) + s3;
    var s1 := Uint(item.port, 2) + s2;
    var t6 := Uint(item.metadataHash, 8);
    var t5 := Uint(item.metricsPack, 4) + t6;
    var t4 := Uint(item.weight, 4) + t5;
    var t3 := item.ip + t4;
    var t2 := Uint(healthy, 1) + t3;
    var t1 := Uint(item.port, 2) + t2;
    Reassociate(Uint(item.ipType, 1), t1, rest);
    Reassociate(Uint(item.port, 2), t2, rest);
    Reassociate(Uint(healthy, 1), t3, rest);
    Reassociate(item.ip, t4, rest);
    Reassociate(Uint(item.weight, 4), t5, rest);
    Reassociate(Uint(item.metricsPack, 4), t6, rest);
    assert InstanceBytes(item) + rest == Uint(item.ipType, 1) + s1;
    OneByte(item.ipType, s1);
    TakeUintInverts(item.port, 2, s2);
    OneByte(healthy, s3);
    TakeBytesInverts(item.ip, s4);
    TakeUintInverts(item.weight, 4, s5);
    TakeUintInverts(item.metricsPack, 4, s6);
    TakeUintInverts(item.metadataHash, 8, rest);
  }

  lemma EntryInverts(entry: (bytes, bytes), rest: bytes)
    requires EntryFits(entry)
    ensures TakeEntry(EntryBytes(entry) + rest) == Ok((entry, rest))
  {
    Limits();
    hide Prefixed, TakeString, ValidUtf8;
    Reassociate(Prefixed(entry.0, 1), Prefixed(entry.1, 2), rest);
    TakeStringInverts(entry.0, 1, Prefixed(entry.1, 2) + rest);
    TakeStringInverts(entry.1, 2, rest);
  }

  lemma {:induction false} EntriesInvert(done: Entries, entries: Entries, rest: bytes)
    requires forall e :: e in entries ==> EntryFits(e)
    ensures TakeEntries(EntriesBytes(entries) + rest, |entries|, DictOf(done)) == Ok((DictOf(done + entries), rest))
    decreases |entries|
  {
    hide EntryBytes, TakeEntry, EntryFits;
    if |entries| == 0 {
      assert [] + rest == rest && done + entries == done;
    } else {
      var first, others := entries[0], entries[1..];
      var s1 := EntriesBytes(others) + rest;
      Reassociate(EntryBytes(first), EntriesBytes(others), rest);
      EntryInverts(first, s1);
      var more := done + [first];
      assert more[..|more| - 1] == done;
      EntriesInvert(more, others, rest);
      assert more + others == done + entries;
    }
  }

  lemma ItemInverts(item: Item, name: bytes, withMetadata: bool, rest: bytes)
    requires ItemFits(item)
    ensures TakeItem(ItemBytes(item, withMetadata) + rest, name, withMetadata)
         == Ok((Decoded(name, item, withMetadata), rest))
  {
    Limits();
    hide InstanceBytes, TakeInstance, Uint, TakeUint, EntriesBytes, TakeEntries, Limit;
    if withMetadata {
      var s2 := EntriesBytes(item.entries) + rest;
      Reassociate(InstanceBytes(item), Uint(|item.entries|, 2) + EntriesBytes(item.entries), rest);
      Reassociate(Uint(|item.entries|, 2), EntriesBytes(item.entries), rest);
      InstanceInverts(item, name, Uint(|item.entries|, 2) + s2);
      TakeUintInverts(|item.entries|, 2, s2);
      EntriesInvert([], item.entries, rest);
      assert [] + item.entries == item.entries;
    } else {
      InstanceInverts(item, name, rest);
    }
  }

  lemma {:induction false} ItemsInvert(items: seq<Item>, name: bytes, withMetadata: bool, rest: bytes)
    requires forall i :: i in items ==> ItemFits(i)
    ensures TakeItems(ItemsBytes(items, withMetadata) + rest, name, withMetadata, |items|)
         == Ok((AllDecoded(name, items, withMetadata), rest))
    decreases |items|
  {
    hide ItemBytes, TakeItem, ItemFits, Decoded;
    if |items| == 0 {
      assert [] + rest == rest;
    } else {
      var later := ItemsBytes(items[1..], withMetadata);
      Reassociate(ItemBytes(items[0], withMetadata), later, rest);
      ItemInverts(items[0], name, withMetadata, later + rest);
      ItemsInvert(items[1..], name, withMetadata, rest);
    }
  }

  /** Parsing inverts the layout of section 6.6.8, uses up exactly the encoded bytes and leaves any suffix unread. */
  lemma {:induction false} FilteredSnapshotRoundTrip(
      name: bytes, version: nat, total: nat, items: seq<Item>, withMetadata: bool, rest: bytes)
    requires SnapshotFits(name, version, items) && total < 0x1_0000
    ensures TakeFilteredSnapshot(FilteredSnapshotBytes(name, version, total, items, withMetadata) + rest, withMetadata)
         == Ok((FilteredSnapshot(name, version, total, AllDecoded(name, items, withMetadata)), rest))
  {
    Limits();
    hide Prefixed, Uint, TakeString, TakeUint, ItemsBytes, TakeItems, Limit, ValidUtf8;
    var t4 := ItemsBytes(items, withMetadata);
    var t3 := Uint(|items|, 2) + t4;
    var t2 := Uint(total, 2) + t3;
    var t1 := Uint(version, 8) + t2;
    Reassociate(Prefixed(name, 2), t1, rest);
    Reassociate(Uint(version, 8), t2, rest);
    Reassociate(Uint(total, 2), t3, rest);
    Reassociate(Uint(|items|, 2), t4, rest);
    TakeStringInverts(name, 2, t1 + rest);
    TakeUintInverts(version, 8, t2 + rest);
    TakeUintInverts(total, 2, t3 + rest);
    TakeUintInverts(|items|, 2, t4 + rest);
    ItemsInvert(items, name, withMetadata, rest);
  }

  /** The same for the unfiltered snapshot of section 6.5. */
  lemma ServiceSnapshotRoundTrip(name: bytes, version: nat, items: seq<Item>, rest: bytes)
    requires SnapshotFits(name, version, items)
    ensures TakeServiceSnapshot(ServiceSnapshotBytes(name, version, items) + rest)
         == Ok((ServiceSnapshot(name, version, AllDecoded(name, items, false)), rest))
  {
    Limits();
    hide Prefixed, Uint, TakeString, TakeUint, ItemsBytes, TakeItems, Limit, ValidUtf8;
    var t3 := ItemsBytes(items, false);
    var t2 := Uint(|items|, 2) + t3;
    var t1 := Uint(version, 8) + t2;
    Reassociate(Prefixed(name, 2), t1, rest);
    Reassociate(Uint(version, 8), t2, rest);
    Reassociate(Uint(|items|, 2), t3, rest);
    TakeStringInverts(name, 2, t1 + rest);
    TakeUintInverts(version, 8, t2 + rest);
    TakeUintInverts(|items|, 2, t3 + rest);
    ItemsInvert(items, name, false, rest);
  }

  // ---------------------------------------------------------------- the layout, byte by byte

  /** Where the fields of an instance lie; its address has 4 bytes or 16. */
  lemma InstanceAtOffsets(s: bytes, name: bytes)
    requires TakeInstance(s, name).Ok?
    ensures var (i, rest) := TakeInstance(s, name).value;
            var n := if s[0] == 4 then 4 else 16;
            && |s| >= 20 + n && (s[0] == 4 || s[0] == 6) && rest == s[20 + n..]
            && i.serviceName == name && i.ipType == s[0] && i.port == Value(s[1..3]) && (i.healthy <==> s[3] == 1)
            && i.ip == s[4..4 + n] && i.weight == Value(s[4 + n..8 + n])
            && i.metricsPack == Value(s[8 + n..12 + n]) && i.metadataHash == Value(s[12 + n..20 + n])
            && i.metadata == map[]
  {
    hide Value;
    var n := if s[0] == 4 then 4 else 16;
    var s1 := s[1..];
    var s3 := s1[2..][1..];
    assert s1[..2] == s[1..3] && s1[2] == s[3] && s3 == s[4..];
    var s4 := s3[n..];
    assert s3[..n] == s[4..4 + n] && s4 == s[4 + n..];
    assert s4[..4] == s[4 + n..8 + n] && s4[4..] == s[8 + n..];
    assert s4[4..][..4] == s[8 + n..12 + n] && s4[4..][4..] == s[12 + n..];
    assert s4[4..][4..][..8] == s[12 + n..20 + n] && s4[4..][4..][8..] == s[20 + n..];
  }
}
