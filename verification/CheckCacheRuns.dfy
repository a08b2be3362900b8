/** Many runs of the check engine over one cache file: concurrent, with different
    configurations and engine versions, and with damage to the file in between. */
module CheckCacheRuns {
  import CanonicalJson
  import JsonReader
  import opened Options
  import opened CheckCache

  type Json = CanonicalJson.Json

  /** check: what the checkers report on a file; hash: an ideal hash. */
  datatype Params = Params(check: (string, Json, string, string) -> seq<Diagnostic>, hash: string -> string)

  ghost predicate Ideal(hash: string -> string) {
    forall s, t :: hash(s) == hash(t) ==> s == t
  }

  /** A file that was checked: its content, with the size and time its metadata showed. */
  datatype Observation = Observation(path: string, size: nat, mtimeSecs: int, content: string)

  datatype Process = Process(engineVersion: string, config: Json, enabled: bool, entries: Entries, invalidated: bool)

  datatype System = System(disk: Disk, processes: map<nat, Process>, observed: set<Observation>)

  datatype Event =
    | Start(pid: nat, engineVersion: string, config: Json, enabled: bool)
    | CheckFile(pid: nat, seen: Observation, model: Option<CachedModel>)
    | Clear(pid: nat)
    | Flush(pid: nat, written: bool)
    | Stop(pid: nat)
    | Damage(disk: Disk)

  ghost function ConfigHash(p: Params, config: Json): string {
    p.hash(CanonicalJson.Canonical(config))
  }

  /** The entry a check of the file leaves. */
  function EntryOf(p: Params, engineVersion: string, config: Json, o: Observation, model: Option<CachedModel>): CacheEntry {
    CacheEntry(p.hash(o.content), o.size, o.mtimeSecs, CachedAll(p.check(engineVersion, config, o.path, o.content)), model)
  }

  ghost predicate Next(p: Params, s: System, e: Event, s': System) {
    match e
    case Start(pid, version, config, enabled) =>
      && pid !in s.processes
      && var loaded := if enabled then LoadCacheFile(s.disk, version, ConfigHash(p, config)) else (map[], false);
         s' == s.(processes := s.processes[pid := Process(version, config, enabled, loaded.0, loaded.1)],
                  disk := if enabled then AfterLoad(s.disk) else s.disk)
    case CheckFile(pid, o, model) =>
      && pid in s.processes
      && var q := s.processes[pid];
         var entries := if q.enabled then q.entries[o.path := EntryOf(p, q.engineVersion, q.config, o, model)] else q.entries;
         s' == s.(processes := s.processes[pid := q.(entries := entries)], observed := s.observed + {o})
    case Clear(pid) =>
      && pid in s.processes
      && s' == s.(processes := s.processes[pid := s.processes[pid].(entries := map[], invalidated := true)])
    case Flush(pid, written) =>
      && pid in s.processes
      && var q := s.processes[pid];
         s' == if q.enabled && written then s.(disk := Readable(CacheFile(CACHE_VERSION, q.engineVersion, ConfigHash(p, q.config), q.entries)))
               else s
    case Stop(pid) => s' == s.(processes := s.processes - {pid})
    // the file can be lost or garbled at any time
    case Damage(disk) => !disk.Readable? && s' == s.(disk := disk)
  }

  ghost predicate IsRun(p: Params, states: seq<System>, events: seq<Event>) {
    && |states| == |events| + 1
    && !states[0].disk.Readable? && states[0].processes == map[]
    && forall i :: 0 <= i < |events| ==> Next(p, states[i], events[i], states[i + 1])
  }

  /** The entry is what checking o under this configuration reports. */
  ghost predicate Reports(p: Params, engineVersion: string, config: Json, path: string, e: CacheEntry, o: Observation) {
    && o.path == path && e == EntryOf(p, engineVersion, config, o, e.model)
  }

  ghost predicate EntryOk(p: Params, observed: set<Observation>, engineVersion: string, config: Json, entries: Entries, path: string) {
    path in entries ==> exists o :: o in observed && Reports(p, engineVersion, config, path, entries[path], o)
  }

  ghost predicate EntriesOk(p: Params, observed: set<Observation>, engineVersion: string, config: Json, entries: Entries) {
    forall path :: EntryOk(p, observed, engineVersion, config, entries, path)
  }

  ghost predicate FileOf(p: Params, observed: set<Observation>, f: CacheFile, config: Json) {
    f.configHash == ConfigHash(p, config) && EntriesOk(p, observed, f.engineVersion, config, f.entries)
  }

  ghost predicate ProcessOk(p: Params, s: System, pid: nat) {
    pid in s.processes ==>
      var q := s.processes[pid];
      EntriesOk(p, s.observed, q.engineVersion, q.config, q.entries)
  }

  ghost predicate Inv(p: Params, s: System) {
    && (s.disk.Readable? ==> exists config :: FileOf(p, s.observed, s.disk.file, config))
    && (forall pid :: ProcessOk(p, s, pid))
  }

  lemma MoreObserved(p: Params, observed: set<Observation>, more: set<Observation>, engineVersion: string, config: Json, entries: Entries)
    requires EntriesOk(p, observed, engineVersion, config, entries) && observed <= more
    ensures EntriesOk(p, more, engineVersion, config, entries)
  {
    forall path ensures EntryOk(p, more, engineVersion, config, entries, path) {
      assert EntryOk(p, observed, engineVersion, config, entries, path);
    }
  }

  lemma Checked(p: Params, observed: set<Observation>, engineVersion: string, config: Json, entries: Entries, o: Observation, model: Option<CachedModel>)
    requires EntriesOk(p, observed, engineVersion, config, entries) && o in observed
    ensures EntriesOk(p, observed, engineVersion, config, entries[o.path := EntryOf(p, engineVersion, config, o, model)])
  {
    var more := entries[o.path := EntryOf(p, engineVersion, config, o, model)];
    forall path ensures EntryOk(p, observed, engineVersion, config, more, path) {
      if path == o.path {
        assert Reports(p, engineVersion, config, path, more[path], o);
      } else {
        assert EntryOk(p, observed, engineVersion, config, entries, path);
      }
    }
  }

  /** Only a file written under the same configuration and engine is loaded. */
  lemma Loaded(p: Params, s: System, engineVersion: string, config: Json)
    requires Ideal(p.hash) && Inv(p, s)
    ensures EntriesOk(p, s.observed, engineVersion, config, LoadCacheFile(s.disk, engineVersion, ConfigHash(p, config)).0)
  {
    if s.disk.Readable? {
      var c :| FileOf(p, s.observed, s.disk.file, c);
      JsonReader.ConfigHashExact(p.hash, c, config);
    }
  }

  lemma Step(p: Params, s: System, e: Event, s': System)
    requires Ideal(p.hash) && Inv(p, s) && Next(p, s, e, s')
    ensures Inv(p, s')
  {
    if s'.disk.Readable? {
      DiskStep(p, s, e, s');
    }
    forall pid ensures ProcessOk(p, s', pid) {
      ProcessStep(p, s, e, s', pid);
    }
  }

  lemma DiskStep(p: Params, s: System, e: Event, s': System)
    requires Inv(p, s) && Next(p, s, e, s') && s'.disk.Readable?
    ensures exists config :: FileOf(p, s'.observed, s'.disk.file, config)
  {
    hide EntriesOk;
    if e.Flush? && s.processes[e.pid].enabled && e.written {
      assert ProcessOk(p, s, e.pid);
      assert FileOf(p, s'.observed, s'.disk.file, s.processes[e.pid].config);
    } else {
      var c :| FileOf(p, s.observed, s.disk.file, c);
      MoreObserved(p, s.observed, s'.observed, s.disk.file.engineVersion, c, s.disk.file.entries);
      assert FileOf(p, s'.observed, s'.disk.file, c);
    }
  }

  lemma ProcessStep(p: Params, s: System, e: Event, s': System, pid: nat)
    requires Ideal(p.hash) && Inv(p, s) && Next(p, s, e, s')
    ensures ProcessOk(p, s', pid)
  {
    assert ProcessOk(p, s, pid);
    if pid in s.processes {
      var q := s.processes[pid];
      MoreObserved(p, s.observed, s'.observed, q.engineVersion, q.config, q.entries);
      if e.CheckFile? && e.pid == pid {
        Checked(p, s'.observed, q.engineVersion, q.config, q.entries, e.seen, e.model);
      }
    }
    if e.Start? && e.pid == pid {
      Loaded(p, s, e.engineVersion, e.config);
    }
  }

  lemma {:induction false} InvAlong(p: Params, states: seq<System>, events: seq<Event>, i: nat)
    requires Ideal(p.hash) && IsRun(p, states, events) && i < |states|
    ensures Inv(p, states[i])
  {
    if i > 0 {
      InvAlong(p, states, events, i - 1);
      assert Next(p, states[i - 1], events[i - 1], states[i]);
      Step(p, states[i - 1], events[i - 1], states[i]);
    }
  }

  /** A content-hash hit answers what checking the file now, under the configuration and
      engine of this run, would report: whatever was cached before, by whom, and in what order. */
  lemma HitIsCurrent(p: Params, states: seq<System>, events: seq<Event>, i: nat, pid: nat, path: string, content: string)
    requires Ideal(p.hash) && IsRun(p, states, events) && i < |states| && pid in states[i].processes
    requires var q := states[i].processes[pid]; Hit(q.entries, q.enabled && !q.invalidated, File(path, content, p.hash(content)))
    ensures var q := states[i].processes[pid];
      q.entries[path].diagnostics == CachedAll(p.check(q.engineVersion, q.config, path, content))
  {
    InvAlong(p, states, events, i);
    var q := states[i].processes[pid];
    assert ProcessOk(p, states[i], pid);
    assert EntryOk(p, states[i].observed, q.engineVersion, q.config, q.entries, path);
  }

  /** Size and modification time tell the contents of a path apart. */
  ghost predicate StatHonest(observed: set<Observation>) {
    forall a, b :: a in observed && b in observed && a.path == b.path && a.size == b.size && a.mtimeSecs == b.mtimeSecs
      ==> a.content == b.content
  }

  /** A hit on size and time alone answers the same, as long as those tell contents apart. */
  lemma FastHitIsCurrent(p: Params, states: seq<System>, events: seq<Event>, i: nat, pid: nat, now: Observation)
    requires Ideal(p.hash) && IsRun(p, states, events) && i < |states| && pid in states[i].processes
    requires var q := states[i].processes[pid]; FastHit(q.entries, q.enabled && !q.invalidated, FileMeta(now.path, now.size, now.mtimeSecs))
    requires StatHonest(states[i].observed + {now})
    ensures var q := states[i].processes[pid];
      q.entries[now.path].diagnostics == CachedAll(p.check(q.engineVersion, q.config, now.path, now.content))
  {
    InvAlong(p, states, events, i);
    var q := states[i].processes[pid];
    assert ProcessOk(p, states[i], pid);
    assert EntryOk(p, states[i].observed, q.engineVersion, q.config, q.entries, now.path);
    var o :| o in states[i].observed && Reports(p, q.engineVersion, q.config, now.path, q.entries[now.path], o);
    assert o in states[i].observed + {now} && now in states[i].observed + {now};
  }

  /** The checkers tell any two texts of this path apart. */
  ghost predicate TellsApart(p: Params, engineVersion: string, config: Json, path: string) {
    forall x, y :: CachedAll(p.check(engineVersion, config, path, x)) == CachedAll(p.check(engineVersion, config, path, y)) ==> x == y
  }

  /** Exactly when a hit on size and time is current, whatever these tell: if it would be a hit on
      the content as well. For checkers that tell texts apart there is no other way. */
  lemma FastHitCurrentIff(p: Params, states: seq<System>, events: seq<Event>, i: nat, pid: nat, now: Observation)
    requires Ideal(p.hash) && IsRun(p, states, events) && i < |states| && pid in states[i].processes
    requires var q := states[i].processes[pid]; FastHit(q.entries, q.enabled && !q.invalidated, FileMeta(now.path, now.size, now.mtimeSecs))
    ensures var q := states[i].processes[pid];
      var current := q.entries[now.path].diagnostics == CachedAll(p.check(q.engineVersion, q.config, now.path, now.content));
      var hit := Hit(q.entries, q.enabled && !q.invalidated, File(now.path, now.content, p.hash(now.content)));
      && (hit ==> current)
      && (TellsApart(p, q.engineVersion, q.config, now.path) ==> (current <==> hit))
  {
    InvAlong(p, states, events, i);
    var q := states[i].processes[pid];
    assert ProcessOk(p, states[i], pid);
    assert EntryOk(p, states[i].observed, q.engineVersion, q.config, q.entries, now.path);
    var o :| o in states[i].observed && Reports(p, q.engineVersion, q.config, now.path, q.entries[now.path], o);
    hide Inv, IsRun, ProcessOk, EntriesOk, EntryOk;
  }

  predicate Ascii(s: string) {
    forall i :: 0 <= i < |s| ==> s[i] < 128 as char
  }

  /** The other way does occur: one text is replaced by another of the same length within the
      same second. One run checks the file, stores the entry and flushes; the file is edited; the
      next run answers it from the cache, and not with what the checkers would say now. */
  lemma FastHitCanBeStale(p: Params, engineVersion: string, config: Json, path: string, before: string, after: string, mtime: int)
    returns (states: seq<System>, events: seq<Event>)
    requires Ascii(before) && Ascii(after) && |before| == |after| > 0 && mtime != 0
    requires CachedAll(p.check(engineVersion, config, path, before)) != CachedAll(p.check(engineVersion, config, path, after))
    ensures IsRun(p, states, events)
    ensures events == [Start(0, engineVersion, config, true), CheckFile(0, Observation(path, |before|, mtime, before), None),
                       Flush(0, true), Stop(0), Start(1, engineVersion, config, true)]
    ensures var s := states[5];
      && 1 in s.processes
      && var q := s.processes[1];
         && FastHit(q.entries, q.enabled && !q.invalidated, FileMeta(path, |after|, mtime))
         && q.entries[path].diagnostics != CachedAll(p.check(q.engineVersion, q.config, path, after))
  {
    var o := Observation(path, |before|, mtime, before);
    var q := Process(engineVersion, config, true, map[], false);
    var r := q.(entries := map[path := EntryOf(p, engineVersion, config, o, None)]);
    var disk := Readable(CacheFile(CACHE_VERSION, engineVersion, ConfigHash(p, config), r.entries));
    var s0, s1, s2 := System(Missing, map[], {}), System(Missing, map[0 := q], {}), System(Missing, map[0 := r], {o});
    var s3, s4, s5 := System(disk, map[0 := r], {o}), System(disk, map[], {o}), System(disk, map[1 := r], {o});
    states, events := [s0, s1, s2, s3, s4, s5],
      [Start(0, engineVersion, config, true), CheckFile(0, o, None), Flush(0, true), Stop(0), Start(1, engineVersion, config, true)];
    StartsEmpty(p, engineVersion, config);
    ChecksAndFlushes(p, q, o);
    StartsAgain(p, r, o);
    hide Next, ConfigHash, EntryOf;
  }

  lemma StartsEmpty(p: Params, engineVersion: string, config: Json)
    ensures Next(p, System(Missing, map[], {}), Start(0, engineVersion, config, true),
                 System(Missing, map[0 := Process(engineVersion, config, true, map[], false)], {}))
  {
    hide ConfigHash;
  }

  lemma ChecksAndFlushes(p: Params, q: Process, o: Observation)
    requires q.enabled && q.entries == map[]
    ensures var r := q.(entries := map[o.path := EntryOf(p, q.engineVersion, q.config, o, None)]);
      var disk := Readable(CacheFile(CACHE_VERSION, q.engineVersion, ConfigHash(p, q.config), r.entries));
      && Next(p, System(Missing, map[0 := q], {}), CheckFile(0, o, None), System(Missing, map[0 := r], {o}))
      && Next(p, System(Missing, map[0 := r], {o}), Flush(0, true), System(disk, map[0 := r], {o}))
  {
    hide ConfigHash, EntryOf;
  }

  lemma StartsAgain(p: Params, r: Process, o: Observation)
    requires r.enabled && !r.invalidated
    ensures var disk := Readable(CacheFile(CACHE_VERSION, r.engineVersion, ConfigHash(p, r.config), r.entries));
      && Next(p, System(disk, map[0 := r], {o}), Stop(0), System(disk, map[], {o}))
      && Next(p, System(disk, map[], {o}), Start(1, r.engineVersion, r.config, true), System(disk, map[1 := r], {o}))
  {
    hide ConfigHash;
  }

  // ---- a process is a cache object ---------------------------------------------------------------------

  /** The object is process pid's cache, run for this configuration. */
  ghost predicate Holds(p: Params, s: System, pid: nat, cache: CheckCache, config: Json)
    reads cache
  {
    && cache.configHash == ConfigHash(p, config)
    && pid in s.processes
    && s.processes[pid] == Process(cache.engineVersion, config, cache.enabled, cache.entries, cache.invalidated)
  }

  /** What the object does is a step of its process, and the object stays that process's cache:
      loading, */
  method LoadIsStep(p: Params, ghost s: System, ghost pid: nat, disk: Disk, enabled: bool, engineVersion: string, ghost config: Json, configHash: string)
    returns (cache: CheckCache, ghost s': System)
    requires s.disk == disk && pid !in s.processes && configHash == ConfigHash(p, config)
    ensures Next(p, s, Start(pid, engineVersion, config, enabled), s') && Holds(p, s', pid, cache, config)
  {
    cache := new CheckCache(disk, enabled, engineVersion, configHash);
    s' := s.(processes := s.processes[pid := Process(engineVersion, config, enabled, cache.entries, cache.invalidated)],
             disk := if enabled then AfterLoad(s.disk) else s.disk);
  }

  /** storing what the checkers report on a file, */
  method UpdateIsStep(p: Params, ghost s: System, ghost pid: nat, cache: CheckCache, ghost config: Json, o: Observation,
                      contentHash: string, diagnostics: seq<Diagnostic>, model: Option<CachedModel>)
    returns (ghost s': System)
    requires Holds(p, s, pid, cache, config)
    requires contentHash == p.hash(o.content) && diagnostics == p.check(cache.engineVersion, config, o.path, o.content)
    modifies cache`entries
    ensures Next(p, s, CheckFile(pid, o, model), s') && Holds(p, s', pid, cache, config)
  {
    cache.Update(o.path, contentHash, o.size, o.mtimeSecs, diagnostics, model);
    s' := s.(processes := s.processes[pid := s.processes[pid].(entries := cache.entries)], observed := s.observed + {o});
  }

  /** clearing, */
  method ClearIsStep(p: Params, ghost s: System, ghost pid: nat, cache: CheckCache, ghost config: Json) returns (ghost s': System)
    requires Holds(p, s, pid, cache, config)
    modifies cache
    ensures Next(p, s, Clear(pid), s') && Holds(p, s', pid, cache, config)
  {
    cache.Clear();
    s' := s.(processes := s.processes[pid := s.processes[pid].(entries := map[], invalidated := true)]);
  }

  /** and flushing. */
  method FlushIsStep(p: Params, ghost s: System, ghost pid: nat, cache: CheckCache, ghost config: Json, disk: Disk, written: bool)
    returns (disk': Disk, ghost s': System)
    requires Holds(p, s, pid, cache, config) && s.disk == disk
    ensures Next(p, s, Flush(pid, written), s') && Holds(p, s', pid, cache, config) && s'.disk == disk'
  {
    disk' := cache.Flush(disk, written);
    s' := s.(disk := disk');
  }
}
