/** The cache of configuration content: three dictionaries and a directory of snapshot files, taken as a
    map from file name to content.  MD5 is a parameter. */
module ConfigCache {
  import opened Wire
  import opened CacheKeys

  type Digest = bytes

  datatype Store = Store(
    cache: map<string, string>,
    fetched: map<string, real>,
    md5s: map<string, Digest>,
    enabled: bool,
    files: map<string, string>)

  datatype Event =
    | Put(key: string, content: string, now: real)
    | Remove(key: string)
    | Invalidate(key: string)
    | Load(key: string, now: real)
    | Enable

  function Keep(md5: string -> Digest, s: Store, key: string, content: string, now: real): Store {
    s.(cache := s.cache[key := content], fetched := s.fetched[key := now], md5s := s.md5s[key := md5(content)])
  }

  function Drop(s: Store, key: string): Store {
    s.(cache := s.cache - {key}, fetched := s.fetched - {key}, md5s := s.md5s - {key})
  }

  /** What `load_from_snapshot` finds. */
  function OnDisk(s: Store, key: string): Option<string> {
    if s.enabled && FileName(key) in s.files then Some(s.files[FileName(key)]) else None
  }

  function Step(md5: string -> Digest, s: Store, e: Event): Store {
    match e
    case Put(key, content, now) =>
      var kept := Keep(md5, s, key, content, now);
      if s.enabled then kept.(files := s.files[FileName(key) := content]) else kept
    case Remove(key) =>
      var dropped := Drop(s, key);
      if s.enabled then dropped.(files := s.files - {FileName(key)}) else dropped
    case Invalidate(key) => Drop(s, key)
    case Load(key, now) => if OnDisk(s, key).Some? then Keep(md5, s, key, OnDisk(s, key).value, now) else s
    case Enable => s.(enabled := true)
  }

  function Run(md5: string -> Digest, s: Store, evs: seq<Event>): Store {
    if |evs| == 0 then s else Step(md5, Run(md5, s, evs[..|evs| - 1]), evs[|evs| - 1])
  }

  class ConfigurationCache {
    const md5: string -> Digest
    const ttlMs: real
    var cache: map<string, string>
    var fetchTime: map<string, real>
    var md5Cache: map<string, Digest>
    var snapshotDir: bool
    var files: map<string, string>

    ghost function Value(): Store
      reads this
    {
      Store(cache, fetchTime, md5Cache, snapshotDir, files)
    }

    constructor (md5: string -> Digest, ttlMs: real, snapshotDir: bool, files: map<string, string>)
      ensures this.md5 == md5 && this.ttlMs == ttlMs
      ensures Value() == Store(map[], map[], map[], snapshotDir, files)
    {
      this.md5, this.ttlMs := md5, ttlMs;
      cache, fetchTime, md5Cache := map[], map[], map[];
      this.snapshotDir, this.files := snapshotDir, files;
    }

    method EnableSnapshotDir()
      modifies this`snapshotDir
      ensures Value() == Step(md5, old(Value()), Enable)
    {
      snapshotDir := true;
    }

    method Get(tenant: string, group: string, dataId: string, tag: string, now: real) returns (r: Option<string>)
      ensures var key := ConfigKey(tenant, group, dataId, tag);
              r == if key in cache && key in fetchTime && now - fetchTime[key] < ttlMs then Some(cache[key]) else None
    {
      var key := ConfigKey(tenant, group, dataId, tag);
      if key in cache && key in fetchTime {
        var elapsed := now - fetchTime[key];
        if elapsed < ttlMs {
          return Some(cache[key]);
        }
      }
      r := None;
    }

    method Put(tenant: string, group: string, dataId: string, tag: string, content: string, now: real)
      modifies this
      ensures Value() == Step(md5, old(Value()), Event.Put(ConfigKey(tenant, group, dataId, tag), content, now))
    {
      var key := ConfigKey(tenant, group, dataId, tag);
      cache := cache[key := content];
      fetchTime := fetchTime[key := now];
      md5Cache := md5Cache[key := md5(content)];
      SaveSnapshot(key, content);
    }

    method Remove(tenant: string, group: string, dataId: string, tag: string)
      modifies this
      ensures Value() == Step(md5, old(Value()), Event.Remove(ConfigKey(tenant, group, dataId, tag)))
    {
      var key := ConfigKey(tenant, group, dataId, tag);
      cache, fetchTime, md5Cache := cache - {key}, fetchTime - {key}, md5Cache - {key};
      DeleteSnapshot(key);
    }

    method Invalidate(tenant: string, group: string, dataId: string, tag: string)
      modifies this
      ensures Value() == Step(md5, old(Value()), Event.Invalidate(ConfigKey(tenant, group, dataId, tag)))
    {
      var key := ConfigKey(tenant, group, dataId, tag);
      cache, fetchTime, md5Cache := cache - {key}, fetchTime - {key}, md5Cache - {key};
    }

    method LoadFromSnapshot(tenant: string, group: string, dataId: string, tag: string, now: real)
      returns (r: Option<string>)
      modifies this
      ensures Value() == Step(md5, old(Value()), Load(ConfigKey(tenant, group, dataId, tag), now))
      ensures r == OnDisk(old(Value()), ConfigKey(tenant, group, dataId, tag))
    {
      var key := ConfigKey(tenant, group, dataId, tag);
      if !snapshotDir || FileName(key) !in files {
        return None;
      }
      var content := files[FileName(key)];
      cache := cache[key := content];
      fetchTime := fetchTime[key := now];
      md5Cache := md5Cache[key := md5(content)];
      r := Some(content);
    }

    method SaveSnapshot(key: string, content: string)
      modifies this`files
      ensures files == if snapshotDir then old(files)[FileName(key) := content] else old(files)
    {
      if snapshotDir {
        files := files[FileName(key) := content];
      }
    }

    method DeleteSnapshot(key: string)
      modifies this`files
      ensures files == if snapshotDir then old(files) - {FileName(key)} else old(files)
    {
      if snapshotDir {
        files := files - {FileName(key)};
      }
    }
  }

  // ---------------------------------------------------------------- one domain, and true digests

  ghost predicate Coherent(md5: string -> Digest, s: Store) {
    s.cache.Keys == s.fetched.Keys == s.md5s.Keys && forall k :: k in s.cache ==> s.md5s[k] == md5(s.cache[k])
  }

  lemma StepCoherent(md5: string -> Digest, s: Store, e: Event)
    requires Coherent(md5, s)
    ensures Coherent(md5, Step(md5, s, e))
  {
    hide FileName;
  }

  /** In every run the three dictionaries share one domain, and every digest is that of the content beside it. */
  lemma {:induction false} RunsCoherent(md5: string -> Digest, s: Store, evs: seq<Event>)
    requires Coherent(md5, s)
    ensures Coherent(md5, Run(md5, s, evs))
  {
    if |evs| > 0 {
      RunsCoherent(md5, s, evs[..|evs| - 1]);
      StepCoherent(md5, Run(md5, s, evs[..|evs| - 1]), evs[|evs| - 1]);
    }
  }

  // ---------------------------------------------------------------- cache and files

  /** No event of the run is for another key with the same file. */
  ghost predicate OwnFile(evs: seq<Event>, key: string) {
    forall e :: e in evs && !e.Enable? && FileName(e.key) == FileName(key) ==> e.key == key
  }

  /** The content last put under a key and not removed since. */
  function LastPut(evs: seq<Event>, key: string): Option<string> {
    if |evs| == 0 then None else
    var before := LastPut(evs[..|evs| - 1], key);
    match evs[|evs| - 1]
    case Put(k, content, _) => if k == key then Some(content) else before
    case Remove(k) => if k == key then None else before
    case _ => before
  }

  lemma OwnFileFront(evs: seq<Event>, key: string)
    requires |evs| > 0 && OwnFile(evs, key)
    ensures OwnFile(evs[..|evs| - 1], key)
    ensures var last := evs[|evs| - 1];
            !last.Enable? && FileName(last.key) == FileName(key) ==> last.key == key
  {
    assert evs == evs[..|evs| - 1] + [evs[|evs| - 1]];
    assert evs[|evs| - 1] in evs;
  }

  ghost predicate FileMatches(s: Store, key: string) {
    s.enabled && (key in s.cache ==> FileName(key) in s.files && s.files[FileName(key)] == s.cache[key])
  }

  lemma StepMatches(md5: string -> Digest, s: Store, e: Event, key: string)
    requires FileMatches(s, key)
    requires !e.Enable? && FileName(e.key) == FileName(key) ==> e.key == key
    ensures FileMatches(Step(md5, s, e), key)
  {
    hide FileName;
  }

  /** With the directory on throughout and a file of its own, what is cached under a key is what its file holds. */
  lemma {:induction false} CachedEqualsFile(
      md5: string -> Digest, files: map<string, string>, evs: seq<Event>, key: string)
    requires OwnFile(evs, key)
    ensures FileMatches(Run(md5, Store(map[], map[], map[], true, files), evs), key)
  {
    if |evs| > 0 {
      OwnFileFront(evs, key);
      CachedEqualsFile(md5, files, evs[..|evs| - 1], key);
      hide FileName, Step, FileMatches, OwnFile;
      StepMatches(md5, Run(md5, Store(map[], map[], map[], true, files), evs[..|evs| - 1]), evs[|evs| - 1], key);
    }
  }

  /** ... and the file holds the last content put, through every invalidation. */
  lemma {:induction false} FileHoldsLastPut(
      md5: string -> Digest, files: map<string, string>, evs: seq<Event>, key: string)
    requires OwnFile(evs, key) && LastPut(evs, key).Some?
    ensures OnDisk(Run(md5, Store(map[], map[], map[], true, files), evs), key) == LastPut(evs, key)
  {
    var front, last := evs[..|evs| - 1], evs[|evs| - 1];
    OwnFileFront(evs, key);
    CachedEqualsFile(md5, files, front, key);
    CachedEqualsFile(md5, files, evs, key);
    if LastPut(front, key).Some? {
      FileHoldsLastPut(md5, files, front, key);
    }
    hide FileName;
  }

  /** Whether the file of a key has been written or deleted in the run. */
  predicate Touched(evs: seq<Event>, key: string) {
    exists i :: 0 <= i < |evs| && ((evs[i].Put? || evs[i].Remove?) && evs[i].key == key)
  }

  /** What is on disk for a key with a file of its own: the last content put; nothing, once it is removed; and what was
      there before the run as long as it is neither put nor removed. */
  lemma {:induction false} FileExactly(
      md5: string -> Digest, files: map<string, string>, evs: seq<Event>, key: string)
    requires OwnFile(evs, key)
    ensures var start := Store(map[], map[], map[], true, files);
            OnDisk(Run(md5, start, evs), key) == if Touched(evs, key) then LastPut(evs, key) else OnDisk(start, key)
  {
    if |evs| > 0 {
      var front, last := evs[..|evs| - 1], evs[|evs| - 1];
      OwnFileFront(evs, key);
      CachedEqualsFile(md5, files, front, key);
      FileExactly(md5, files, front, key);
      TouchedLast(evs, key);
      hide FileName, Touched;
    }
  }

  lemma TouchedLast(evs: seq<Event>, key: string)
    requires |evs| > 0
    ensures var last := evs[|evs| - 1];
            Touched(evs, key) == (Touched(evs[..|evs| - 1], key) || ((last.Put? || last.Remove?) && last.key == key))
  {
    var front := evs[..|evs| - 1];
    if i :| 0 <= i < |front| && ((front[i].Put? || front[i].Remove?) && front[i].key == key) {
      assert evs[i] == front[i];
    }
  }

  // ---------------------------------------------------------------- what is cached

  /** A key that has just been put is cached with that content, that time and that content's digest; other keys are
      as they were. */
  lemma PutCaches(md5: string -> Digest, s: Store, key: string, content: string, now: real)
    ensures var t := Step(md5, s, Put(key, content, now));
            && t.cache == s.cache[key := content] && t.fetched == s.fetched[key := now]
            && t.md5s == s.md5s[key := md5(content)]
  {
    hide FileName;
  }

  /** The content last put under a key, and when, as long as it has been neither removed nor invalidated since. */
  function LastCached(evs: seq<Event>, key: string): Option<(string, real)> {
    if |evs| == 0 then None else
    var before := LastCached(evs[..|evs| - 1], key);
    match evs[|evs| - 1]
    case Put(k, content, now) => if k == key then Some((content, now)) else before
    case Remove(k) => if k == key then None else before
    case Invalidate(k) => if k == key then None else before
    case _ => before
  }

  /** Without a directory the cache holds exactly that. */
  lemma {:induction false} CacheHoldsLast(
      md5: string -> Digest, files: map<string, string>, evs: seq<Event>, key: string)
    requires forall e :: e in evs ==> !e.Enable?
    ensures var s, last := Run(md5, Store(map[], map[], map[], false, files), evs), LastCached(evs, key);
            && !s.enabled && (key in s.cache <==> last.Some?) && (key in s.fetched <==> last.Some?)
            && (last.Some? ==> s.cache[key] == last.value.0 && s.fetched[key] == last.value.1)
  {
    if |evs| > 0 {
      assert evs[|evs| - 1] in evs && forall e :: e in evs[..|evs| - 1] ==> e in evs;
      CacheHoldsLast(md5, files, evs[..|evs| - 1], key);
      hide FileName;
    }
  }

  /** Loading after an invalidation restores the last value put, in the cache as well. */
  lemma LoadRestores(md5: string -> Digest, files: map<string, string>, evs: seq<Event>, key: string, now: real)
    requires OwnFile(evs, key) && LastPut(evs, key).Some?
    ensures var s := Run(md5, Store(map[], map[], map[], true, files), evs);
            var t := Step(md5, Step(md5, s, Invalidate(key)), Load(key, now));
            key !in Step(md5, s, Invalidate(key)).cache
            && OnDisk(Step(md5, s, Invalidate(key)), key) == LastPut(evs, key)
            && key in t.cache && Some(t.cache[key]) == LastPut(evs, key) && t.fetched[key] == now
  {
    FileHoldsLastPut(md5, files, evs, key);
  }

  // ---------------------------------------------------------------- which keys load what was put

  /** The run touches no key outside `keys`. */
  ghost predicate Over(evs: seq<Event>, keys: iset<string>) {
    forall e :: e in evs && !e.Enable? ==> e.key in keys
  }

  /** In every run over `keys`, whatever was on disk before, loading `key` restores what was put last. */
  ghost predicate AlwaysRestored(md5: string -> Digest, keys: iset<string>, key: string) {
    forall files: map<string, string>, evs: seq<Event> :: Over(evs, keys) && LastPut(evs, key).Some? ==>
      OnDisk(Run(md5, Store(map[], map[], map[], true, files), evs), key) == LastPut(evs, key)
  }

  /** Two keys with one file: a put under the second changes what is loaded under the first. */
  lemma SharedFileOverwrites(
      md5: string -> Digest, files: map<string, string>, k: string, l: string, a: string, b: string, t: real, u: real)
    requires k != l && FileName(k) == FileName(l)
    ensures LastPut([Put(k, a, t), Put(l, b, u)], k) == Some(a)
    ensures OnDisk(Run(md5, Store(map[], map[], map[], true, files), [Put(k, a, t), Put(l, b, u)]), k) == Some(b)
  {
    hide FileName;
    var first, both := [Put(k, a, t)], [Put(k, a, t), Put(l, b, u)];
    var start := Store(map[], map[], map[], true, files);
    assert both[..1] == first && first[..0] == [];
    assert LastPut(first, k) == Some(a);
    assert Run(md5, start, first) == Step(md5, start, first[0]);
    assert Run(md5, start, both) == Step(md5, Step(md5, start, both[0]), both[1]);
  }

  /** Loading restores the last value put, in every run over a set of keys, exactly when no other key of the
      set has the same file. */
  lemma RestoredExactly(md5: string -> Digest, keys: iset<string>, key: string)
    requires key in keys
    ensures AlwaysRestored(md5, keys, key) <==> forall l :: l in keys && l != key ==> FileName(l) != FileName(key)
  {
    if l :| l in keys && l != key && FileName(l) == FileName(key) {
      var evs := [Put(key, "a", 0.0), Put(l, "b", 0.0)];
      SharedFileOverwrites(md5, map[], key, l, "a", "b", 0.0, 0.0);
      hide LastPut, Run, OnDisk;
      assert Over(evs, keys);
      var s: string, t: string := "a", "b";
      assert s[0] != t[0];
    } else {
      forall files: map<string, string>, evs: seq<Event> | Over(evs, keys) && LastPut(evs, key).Some?
        ensures OnDisk(Run(md5, Store(map[], map[], map[], true, files), evs), key) == LastPut(evs, key)
      {
        hide FileName;
        assert OwnFile(evs, key);
        FileHoldsLastPut(md5, files, evs, key);
      }
    }
  }

  /** The keys of configurations named without '+', '/' and '\', and without '_' outside the tag. */
  ghost function SafeKeys(): iset<string> {
    iset tenant, group, dataId, tag | FileSafe(tenant, group, dataId, tag) :: ConfigKey(tenant, group, dataId, tag)
  }

  /** Such names are enough, in every run over them. */
  lemma SafeNamesRestored(md5: string -> Digest, tenant: string, group: string, dataId: string, tag: string)
    requires FileSafe(tenant, group, dataId, tag)
    ensures AlwaysRestored(md5, SafeKeys(), ConfigKey(tenant, group, dataId, tag))
  {
    hide FileName, FileSafe, ConfigKey, AlwaysRestored;
    var key := ConfigKey(tenant, group, dataId, tag);
    forall l | l in SafeKeys() && l != key ensures FileName(l) != FileName(key) {
      var a, b, c, t :| FileSafe(a, b, c, t) && l == ConfigKey(a, b, c, t);
      FileNamesDiffer(a, b, c, t, tenant, group, dataId, tag);
    }
    RestoredExactly(md5, SafeKeys(), key);
  }

  /** The smallest example of a shared file: "a_b+c+d" and "a+b_c+d". */
  lemma SharedFileBreaksLoad(md5: string -> Digest)
    ensures var k, l := ConfigKey("a_b", "c", "d", ""), ConfigKey("a", "b_c", "d", "");
            var evs := [Put(k, "old", 0.0), Put(l, "new", 0.0)];
            LastPut(evs, k) == Some("old")
            && OnDisk(Run(md5, Store(map[], map[], map[], true, map[]), evs), k) == Some("new")
  {
    FileNamesCollide();
    var k, l := ConfigKey("a_b", "c", "d", ""), ConfigKey("a", "b_c", "d", "");
    SharedFileOverwrites(md5, map[], k, l, "old", "new", 0.0, 0.0);
  }
}
