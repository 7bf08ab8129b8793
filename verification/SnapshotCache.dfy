/** The cache of service snapshots: a time to live, and a guard that only lets the topology version rise. */
module SnapshotCache {
  import opened Wire
  import opened CacheKeys
  import Instances

  datatype Listing = Listing(ip: string, port: nat, metadataHash: nat)
  datatype Snapshot = Snapshot(topologyVersion: nat, instances: seq<Listing>)

  /** A snapshot and the time it was put. */
  datatype Held = Held(snapshot: Snapshot, at: real)

  type Store = map<string, Held>

  predicate Accepts(store: Store, key: string, snapshot: Snapshot) {
    key in store ==> snapshot.topologyVersion > store[key].snapshot.topologyVersion
  }

  function PutIn(store: Store, key: string, snapshot: Snapshot, now: real): Store {
    if Accepts(store, key, snapshot) then store[key := Held(snapshot, now)] else store
  }

  function GetFrom(store: Store, key: string, ttlMs: real, now: real): Option<Snapshot> {
    if key in store && now - store[key].at < ttlMs then Some(store[key].snapshot) else None
  }

  /** The latest metadata hash seen for each address. */
  function Noticed(hashes: map<string, nat>, instances: seq<Listing>): map<string, nat> {
    if |instances| == 0 then hashes else
    var last := instances[|instances| - 1];
    Noticed(hashes, instances[..|instances| - 1])[Instances.Key(last.ip, last.port) := last.metadataHash]
  }

  class ServiceSnapshotCache {
    const ttlMs: real
    var cache: map<string, Snapshot>
    var fetchTime: map<string, real>
    var metadataHashCache: map<string, nat>

    ghost predicate Valid()
      reads this
    {
      cache.Keys == fetchTime.Keys
    }

    ghost function Value(): Store
      requires Valid()
      reads this
    {
      map k | k in cache :: Held(cache[k], fetchTime[k])
    }

    constructor (ttlMs: real)
      ensures Valid() && Value() == map[] && this.ttlMs == ttlMs && metadataHashCache == map[]
    {
      this.ttlMs := ttlMs;
      cache, fetchTime, metadataHashCache := map[], map[], map[];
    }

    method Get(tenant: string, group: string, service: string, now: real) returns (r: Option<Snapshot>)
      requires Valid()
      ensures r == GetFrom(Value(), Join3(tenant, group, service), ttlMs, now)
    {
      var key := Join3(tenant, group, service);
      if key in cache && key in fetchTime {
        var elapsed := now - fetchTime[key];
        if elapsed < ttlMs {
          return Some(cache[key]);
        }
      }
      r := None;
    }

    method Put(tenant: string, group: string, service: string, snapshot: Snapshot, now: real)
      returns (accepted: bool)
      requires Valid()
      modifies this
      ensures Valid() && accepted == Accepts(old(Value()), Join3(tenant, group, service), snapshot)
      ensures Value() == PutIn(old(Value()), Join3(tenant, group, service), snapshot, now)
      ensures metadataHashCache
           == if accepted then Noticed(old(metadataHashCache), snapshot.instances) else old(metadataHashCache)
    {
      var key := Join3(tenant, group, service);
      if key in cache && snapshot.topologyVersion <= cache[key].topologyVersion {
        return false;
      }
      cache := cache[key := snapshot];
      fetchTime := fetchTime[key := now];
      DetectMetadataHashChanges(snapshot);
      accepted := true;
    }

    method Invalidate(tenant: string, group: string, service: string)
      requires Valid()
      modifies this`cache, this`fetchTime
      ensures Valid() && Value() == old(Value()) - {Join3(tenant, group, service)}
    {
      var key := Join3(tenant, group, service);
      cache := cache - {key};
      fetchTime := fetchTime - {key};
    }

    method DetectMetadataHashChanges(snapshot: Snapshot)
      modifies this`metadataHashCache
      ensures metadataHashCache == Noticed(old(metadataHashCache), snapshot.instances)
    {
      var instances := snapshot.instances;
      for i := 0 to |instances|
        invariant metadataHashCache == Noticed(old(metadataHashCache), instances[..i])
      {
        assert instances[..i + 1][..i] == instances[..i];
        var key := Instances.Key(instances[i].ip, instances[i].port);
        metadataHashCache := metadataHashCache[key := instances[i].metadataHash];
      }
      assert instances[..|instances|] == instances;
    }
  }

  // ---------------------------------------------------------------- refinement of a map keyed by triples

  datatype Names = Names(tenant: string, group: string, service: string)

  datatype Event =
    | Put(names: Names, snapshot: Snapshot, now: real)
    | Invalidate(names: Names)

  function KeyOf(n: Names): string {
    Join3(n.tenant, n.group, n.service)
  }

  /** Names the key tells apart; the service may contain a '+'. */
  predicate Plain(n: Names) {
    '+' !in n.tenant && '+' !in n.group
  }

  /** No event of the run is for other names with the same key. */
  ghost predicate OwnKey(evs: seq<Event>, n: Names) {
    forall e :: e in evs && KeyOf(e.names) == KeyOf(n) ==> e.names == n
  }

  lemma PlainNamesOwnKey(evs: seq<Event>, n: Names)
    requires Plain(n) && forall e :: e in evs ==> Plain(e.names)
    ensures OwnKey(evs, n)
  {
    hide KeyOf;
    forall e | e in evs && KeyOf(e.names) == KeyOf(n) ensures e.names == n {
      KeyDetermines(e.names, n);
    }
  }

  lemma KeyDetermines(m: Names, n: Names)
    requires Plain(m) && Plain(n) && KeyOf(m) == KeyOf(n)
    ensures m == n
  {
    Join3Injective(m.tenant, m.group, m.service, n.tenant, n.group, n.service);
  }

  function Step(store: Store, e: Event): Store {
    match e
    case Put(n, snapshot, now) => PutIn(store, KeyOf(n), snapshot, now)
    case Invalidate(n) => store - {KeyOf(n)}
  }

  function Run(evs: seq<Event>): Store {
    if |evs| == 0 then map[] else Step(Run(evs[..|evs| - 1]), evs[|evs| - 1])
  }

  /** The puts under exactly these names since they were last invalidated. */
  function PutsSince(evs: seq<Event>, n: Names): seq<Held> {
    if |evs| == 0 then [] else
    var before := PutsSince(evs[..|evs| - 1], n);
    match evs[|evs| - 1]
    case Put(m, snapshot, now) => if m == n then before + [Held(snapshot, now)] else before
    case Invalidate(m) => if m == n then [] else before
  }

  /** Number `i` is the first put to reach the highest topology version of all. */
  ghost predicate FirstHighest(puts: seq<Held>, i: nat)
    requires i < |puts|
  {
    && (forall j :: 0 <= j < i ==> puts[j].snapshot.topologyVersion < puts[i].snapshot.topologyVersion)
    && (forall j :: i < j < |puts| ==> puts[j].snapshot.topologyVersion <= puts[i].snapshot.topologyVersion)
  }

  lemma FirstHighestUnique(puts: seq<Held>, i: nat, j: nat)
    requires i < |puts| && j < |puts| && FirstHighest(puts, i) && FirstHighest(puts, j)
    ensures i == j
  {
    var a, b := puts[i].snapshot.topologyVersion, puts[j].snapshot.topologyVersion;
    assert (i < j ==> a < b <= a) && (j < i ==> b < a <= b);
  }

  /** One more put either takes over or leaves the first highest where it was. */
  lemma OneMorePut(before: seq<Held>, i: nat, held: Held)
    requires i < |before| && FirstHighest(before, i)
    ensures if held.snapshot.topologyVersion > before[i].snapshot.topologyVersion
            then FirstHighest(before + [held], |before|) else FirstHighest(before + [held], i)
  {
    assert forall j :: 0 <= j < |before| ==>
      before[j].snapshot.topologyVersion <= before[i].snapshot.topologyVersion;
  }

  /** The cache holds the first put under these names, since they were last invalidated, to reach the highest topology
      version put since then; and it holds nothing if there was none. */
  ghost predicate HoldsPut(evs: seq<Event>, n: Names) {
    var puts := PutsSince(evs, n);
    && (KeyOf(n) in Run(evs) <==> puts != [])
    && (KeyOf(n) in Run(evs) ==>
          exists i :: 0 <= i < |puts| && FirstHighest(puts, i) && Run(evs)[KeyOf(n)] == puts[i])
  }

  /** Under names with a key of their own it always does; other names make no difference. */
  lemma {:induction false} HoldsFirstHighest(evs: seq<Event>, n: Names)
    requires OwnKey(evs, n)
    ensures HoldsPut(evs, n)
  {
    if |evs| > 0 {
      hide KeyOf;
      var front, last := evs[..|evs| - 1], evs[|evs| - 1];
      assert evs == front + [last] && last in evs;
      HoldsFirstHighest(front, n);
      var m := last.names;
      assert KeyOf(m) == KeyOf(n) <==> m == n;
      if last.Put? && m == n {
        var before, held := PutsSince(front, n), Held(last.snapshot, last.now);
        assert PutsSince(evs, n) == before + [held];
        hide FirstHighest;
        if before == [] {
          assert FirstHighest([held], 0) by { OnlyPut(held); }
          assert before + [held] == [held];
        } else {
          var i :| 0 <= i < |before| && FirstHighest(before, i) && Run(front)[KeyOf(n)] == before[i];
          OneMorePut(before, i, held);
        }
      }
    }
  }

  lemma OnlyPut(held: Held)
    ensures FirstHighest([held], 0)
  {
  }

  /** A read answers with that put's snapshot while the put is younger than the time to live, and with nothing
      otherwise. */
  lemma GetsFirstHighest(evs: seq<Event>, n: Names, ttlMs: real, now: real, i: nat)
    requires OwnKey(evs, n)
    requires i < |PutsSince(evs, n)| && FirstHighest(PutsSince(evs, n), i)
    ensures GetFrom(Run(evs), KeyOf(n), ttlMs, now)
         == if now - PutsSince(evs, n)[i].at < ttlMs then Some(PutsSince(evs, n)[i].snapshot) else None
  {
    HoldsFirstHighest(evs, n);
    var puts := PutsSince(evs, n);
    var j :| 0 <= j < |puts| && FirstHighest(puts, j) && Run(evs)[KeyOf(n)] == puts[j];
    FirstHighestUnique(puts, i, j);
  }

  /** In every run that uses only these names, the cache holds under `n` what was put under `n`. */
  ghost predicate AlwaysFaithful(names: iset<Names>, n: Names) {
    forall evs: seq<Event> :: Within(evs, names) ==> HoldsPut(evs, n)
  }

  ghost predicate Within(evs: seq<Event>, names: iset<Names>) {
    forall e :: e in evs ==> e.names in names
  }

  /** That is so exactly when no other of the names has the same key; names without a '+' in tenant and group never
      do. */
  lemma FaithfulExactly(names: iset<Names>, n: Names)
    ensures AlwaysFaithful(names, n) <==> forall m :: m in names && m != n ==> KeyOf(m) != KeyOf(n)
    ensures (forall m :: m in names ==> Plain(m)) && Plain(n) ==> AlwaysFaithful(names, n)
  {
    hide KeyOf, Plain, HoldsPut;
    if m :| m in names && m != n && KeyOf(m) == KeyOf(n) {
      OtherNamesPut(names, m, n);
    } else {
      forall evs: seq<Event> | Within(evs, names) ensures HoldsPut(evs, n) {
        assert OwnKey(evs, n);
        HoldsFirstHighest(evs, n);
      }
    }
    if Plain(n) && forall m :: m in names ==> Plain(m) {
      forall evs: seq<Event> | Within(evs, names) ensures HoldsPut(evs, n) {
        PlainNamesOwnKey(evs, n);
        HoldsFirstHighest(evs, n);
      }
    }
  }

  lemma OtherNamesPut(names: iset<Names>, m: Names, n: Names)
    requires m in names && m != n && KeyOf(m) == KeyOf(n)
    ensures !AlwaysFaithful(names, n)
  {
    hide KeyOf;
    var evs := [Put(m, Snapshot(0, []), 0.0)];
    assert evs[..0] == [];
    assert KeyOf(n) in Run(evs) && PutsSince(evs, n) == [];
    assert Within(evs, names) && !HoldsPut(evs, n);
  }

  // ---------------------------------------------------------------- metadata hashes

  /** The last instance of a snapshot at an address. */
  function LastAt(instances: seq<Listing>, key: string): Option<Listing> {
    if |instances| == 0 then None else
    var last := instances[|instances| - 1];
    if Instances.Key(last.ip, last.port) == key then Some(last) else LastAt(instances[..|instances| - 1], key)
  }

  /** After a snapshot an address has the metadata hash it is listed with last, and any other address keeps its own. */
  lemma {:induction false} NoticedExactly(hashes: map<string, nat>, instances: seq<Listing>, key: string)
    ensures var after, listed := Noticed(hashes, instances), LastAt(instances, key);
            if listed.Some? then key in after && after[key] == listed.value.metadataHash
            else (key in after <==> key in hashes) && (key in hashes ==> after[key] == hashes[key])
  {
    if |instances| > 0 {
      NoticedExactly(hashes, instances[..|instances| - 1], key);
    }
  }
}
