/** The persisted cache of check results: one entry per file, valid for one configuration and
    one engine version. */
module CheckCache {
  import opened Options

  // ---- diagnostics and their cached form -----------------------------------------------------------

  datatype Severity = Error | Warning | Info

  datatype Category =
    | SqlSyntax | SqlSafety | SqlHeader | RefResolution | SchemaContract | YamlSchema | NamingConvention
    | DbtProject | ModelConsistency | FileStructure | DatabricksSql | IncrementalLogic | Performance | TestAdequacy

  datatype Diagnostic = Diagnostic(
    ruleId: string, message: string, severity: Severity, category: Category, filePath: string,
    line: nat, column: nat, snippet: Option<string>, suggestion: Option<string>, docUrl: Option<string>)

  /** Severity and category as text. */
  datatype CachedDiagnostic = CachedDiagnostic(
    ruleId: string, severity: string, category: string, message: string, filePath: string,
    line: nat, column: nat, snippet: Option<string>, suggestion: Option<string>, docUrl: Option<string>)

  function SeverityText(s: Severity): string {
    match s
    case Error => "error"
    case Warning => "warning"
    case Info => "info"
  }

  function CategoryText(c: Category): string {
    match c
    case SqlSyntax => "SqlSyntax"
    case SqlSafety => "SqlSafety"
    case SqlHeader => "SqlHeader"
    case RefResolution => "RefResolution"
    case SchemaContract => "SchemaContract"
    case YamlSchema => "YamlSchema"
    case NamingConvention => "NamingConvention"
    case DbtProject => "DbtProject"
    case ModelConsistency => "ModelConsistency"
    case FileStructure => "FileStructure"
    case DatabricksSql => "DatabricksSql"
    case IncrementalLogic => "IncrementalLogic"
    case Performance => "Performance"
    case TestAdequacy => "TestAdequacy"
  }

  function CachedOf(d: Diagnostic): CachedDiagnostic {
    CachedDiagnostic(d.ruleId, SeverityText(d.severity), CategoryText(d.category), d.message, d.filePath,
                     d.line, d.column, d.snippet, d.suggestion, d.docUrl)
  }

  function ToDiagnostic(d: CachedDiagnostic): Diagnostic {
    var severity :=
      if d.severity == "error" || d.severity == "Error" then Error
      else if d.severity == "warning" || d.severity == "Warning" then Warning
      else Info;
    var category :=
      if d.category == "SqlSyntax" then SqlSyntax
      else if d.category == "SqlSafety" then SqlSafety
      else if d.category == "SqlHeader" then SqlHeader
      else if d.category == "RefResolution" then RefResolution
      else if d.category == "SchemaContract" then SchemaContract
      else if d.category == "YamlSchema" then YamlSchema
      else if d.category == "NamingConvention" then NamingConvention
      else if d.category == "DbtProject" then DbtProject
      else if d.category == "ModelConsistency" then ModelConsistency
      else FileStructure;
    Diagnostic(d.ruleId, d.message, severity, category, d.filePath, d.line, d.column, d.snippet, d.suggestion, d.docUrl)
  }

  /** A diagnostic replayed from the cache is the one that was stored exactly when its category
      is one of the first ten; any other comes back as FileStructure, and nothing else changes. */
  lemma ReplayExactIff(d: Diagnostic)
    ensures ToDiagnostic(CachedOf(d)) == d
       <==> d.category !in {DatabricksSql, IncrementalLogic, Performance, TestAdequacy}
    ensures ToDiagnostic(CachedOf(d)) == d.(category := ToDiagnostic(CachedOf(d)).category)
    ensures ToDiagnostic(CachedOf(d)) != d ==> ToDiagnostic(CachedOf(d)).category == FileStructure
  {
    var s, c := SeverityText(d.severity), CategoryText(d.category);
    assert |s| == (if d.severity == Error then 5 else if d.severity == Warning then 7 else 4);
    assert |c| > 0 && (c == "FileStructure" <==> d.category == FileStructure);
  }

  function CachedAll(ds: seq<Diagnostic>): (r: seq<CachedDiagnostic>)
    ensures |r| == |ds| && forall i :: 0 <= i < |ds| ==> r[i] == CachedOf(ds[i])
  {
    seq(|ds|, i requires 0 <= i < |ds| => CachedOf(ds[i]))
  }

  /** The texts of a severity that are understood, with a small letter or a capital. */
  lemma SeverityTexts(d: CachedDiagnostic)
    ensures ToDiagnostic(d).severity == Error <==> d.severity in {"error", "Error"}
    ensures ToDiagnostic(d).severity == Warning <==> d.severity in {"warning", "Warning"}
  {
    assert "error" != "warning" && |"error"| != |"Warning"| && |"Error"| != |"warning"| && |"Error"| != |"Warning"|;
  }

  /** Nothing is lost by storing: different diagnostics have different cached forms. */
  lemma CachedFormsDiffer(d: Diagnostic, e: Diagnostic)
    ensures CachedOf(d) == CachedOf(e) <==> d == e
  {
    if CachedOf(d) == CachedOf(e) {
      assert |SeverityText(d.severity)| == |SeverityText(e.severity)|;
      SameCategory(d.category, e.category);
    }
  }

  lemma SameCategory(c: Category, d: Category)
    requires CategoryText(c) == CategoryText(d)
    ensures c == d
  {
    CategoryNumbered(c);
    CategoryNumbered(d);
  }

  /** Lengths and two letters tell the categories apart. */
  lemma CategoryNumbered(c: Category)
    ensures var t := CategoryText(c);
      && |t| >= 9
      && c == if t[0] == 'D' then (if t[1] == 'b' then DbtProject else DatabricksSql)
              else if t[0] == 'F' then FileStructure
              else if t[0] == 'I' then IncrementalLogic
              else if t[0] == 'M' then ModelConsistency
              else if t[0] == 'N' then NamingConvention
              else if t[0] == 'P' then Performance
              else if t[0] == 'R' then RefResolution
              else if t[0] == 'T' then TestAdequacy
              else if t[0] == 'Y' then YamlSchema
              else if t[1] == 'c' then SchemaContract
              else if t[4] == 'y' then SqlSyntax
              else if t[4] == 'a' then SqlSafety
              else SqlHeader
  {
  }

  // ---- the file on disk ----------------------------------------------------------------------------------

  datatype CachedModel = CachedModel(name: string, refNames: seq<string>, header: map<string, string>)

  datatype CacheEntry = CacheEntry(
    contentHash: string, fileSize: nat, mtimeSecs: int, diagnostics: seq<CachedDiagnostic>, model: Option<CachedModel>)

  type Entries = map<string, CacheEntry>

  datatype CacheFile = CacheFile(version: string, engineVersion: string, configHash: string, entries: Entries)

  datatype Disk = Missing | Unreadable | Corrupt | Readable(file: CacheFile)

  const CACHE_VERSION := "1"

  /** Entries, and whether the cache is invalidated. */
  function LoadCacheFile(disk: Disk, engineVersion: string, configHash: string): (Entries, bool) {
    match disk
    case Missing => (map[], false)
    case Unreadable => (map[], false)
    case Corrupt => (map[], false)
    case Readable(f) =>
      if f.engineVersion != engineVersion then (map[], true)
      else if f.configHash != configHash then (map[], true)
      else if f.version != CACHE_VERSION then (map[], true)
      else (f.entries, false)
  }

  /** A file counts exactly when it can be read and its version is 1, for this engine and this
      configuration; another that can be read makes the cache useless for the run. */
  lemma LoadIff(disk: Disk, engineVersion: string, configHash: string)
    ensures var (entries, invalidated) := LoadCacheFile(disk, engineVersion, configHash);
      && (disk.Readable? && disk.file == CacheFile("1", engineVersion, configHash, disk.file.entries)
          ==> entries == disk.file.entries && !invalidated)
      && (!(disk.Readable? && disk.file == CacheFile("1", engineVersion, configHash, disk.file.entries))
          ==> entries == map[] && (invalidated <==> disk.Readable?))
  {
  }

  /** A corrupt file is deleted when it is loaded. */
  function AfterLoad(disk: Disk): Disk {
    if disk.Corrupt? then Missing else disk
  }

  // ---- the cache of one run ----------------------------------------------------------------------------------

  datatype FileMeta = FileMeta(relPath: string, size: nat, mtimeSecs: int)

  datatype File = File(relPath: string, content: string, contentHash: string)

  predicate FastHit(entries: Entries, usable: bool, meta: FileMeta) {
    && usable && meta.relPath in entries
    && var e := entries[meta.relPath];
       e.fileSize > 0 && e.mtimeSecs != 0 && e.fileSize == meta.size && e.mtimeSecs == meta.mtimeSecs
  }

  predicate Hit(entries: Entries, usable: bool, file: File) {
    usable && file.relPath in entries && entries[file.relPath].contentHash == file.contentHash
  }

  function FastHits(entries: Entries, usable: bool, metas: seq<FileMeta>): (r: seq<bool>)
    ensures |r| == |metas| && forall i :: 0 <= i < |metas| ==> r[i] == FastHit(entries, usable, metas[i])
  {
    seq(|metas|, i requires 0 <= i < |metas| => FastHit(entries, usable, metas[i]))
  }

  function Hits(entries: Entries, usable: bool, files: seq<File>): (r: seq<bool>)
    ensures |r| == |files| && forall i :: 0 <= i < |files| ==> r[i] == Hit(entries, usable, files[i])
  {
    seq(|files|, i requires 0 <= i < |files| => Hit(entries, usable, files[i]))
  }

  /** The elements whose verdict is `want`. */
  function Selected<T>(s: seq<T>, verdicts: seq<bool>, want: bool): seq<T>
    requires |s| == |verdicts|
  {
    if s == [] then []
    else Selected(s[..|s| - 1], verdicts[..|s| - 1], want) + (if verdicts[|s| - 1] == want then [s[|s| - 1]] else [])
  }

  lemma SelectedAppend<T>(s: seq<T>, verdicts: seq<bool>, x: T, verdict: bool, want: bool)
    requires |s| == |verdicts|
    ensures Selected(s + [x], verdicts + [verdict], want) == Selected(s, verdicts, want) + (if verdict == want then [x] else [])
  {
    assert (s + [x])[..|s|] == s && (verdicts + [verdict])[..|s|] == verdicts;
  }

  /** Takes from a where the verdict is true, from b where it is false. */
  function Woven<T>(a: seq<T>, b: seq<T>, verdicts: seq<bool>): seq<T>
    decreases |verdicts|
  {
    if verdicts == [] then []
    else if verdicts[|verdicts| - 1] then
      if a == [] then [] else Woven(a[..|a| - 1], b, verdicts[..|verdicts| - 1]) + [a[|a| - 1]]
    else
      if b == [] then [] else Woven(a, b[..|b| - 1], verdicts[..|verdicts| - 1]) + [b[|b| - 1]]
  }

  lemma WovenAppend<T>(a: seq<T>, b: seq<T>, verdicts: seq<bool>, x: T)
    ensures Woven(a + [x], b, verdicts + [true]) == Woven(a, b, verdicts) + [x]
    ensures Woven(a, b + [x], verdicts + [false]) == Woven(a, b, verdicts) + [x]
  {
    assert (a + [x])[..|a|] == a && (b + [x])[..|b|] == b;
    assert (verdicts + [true])[..|verdicts|] == verdicts && (verdicts + [false])[..|verdicts|] == verdicts;
  }

  predicate Whole<T(==)>(s: seq<T>, verdicts: seq<bool>)
    requires |s| == |verdicts|
  {
    && Woven(Selected(s, verdicts, true), Selected(s, verdicts, false), verdicts) == s
    && |Selected(s, verdicts, true)| + |Selected(s, verdicts, false)| == |s|
  }

  lemma WholeAppend<T>(s: seq<T>, verdicts: seq<bool>, x: T, verdict: bool)
    requires |s| == |verdicts| && Whole(s, verdicts)
    ensures Whole(s + [x], verdicts + [verdict])
  {
    hide Selected, Woven;
    var a, b := Selected(s, verdicts, true), Selected(s, verdicts, false);
    SelectedAppend(s, verdicts, x, verdict, true);
    SelectedAppend(s, verdicts, x, verdict, false);
    WovenAppend(a, b, verdicts, x);
    assert a + [] == a && b + [] == b;
  }

  /** The two parts keep their order, share nothing and miss nothing: woven together by the
      verdicts they are the list again. */
  lemma {:induction false} PartsMakeWhole<T>(s: seq<T>, verdicts: seq<bool>)
    requires |s| == |verdicts|
    ensures Whole(s, verdicts)
  {
    if s != [] {
      var n := |s| - 1;
      PartsMakeWhole(s[..n], verdicts[..n]);
      WholeAppend(s[..n], verdicts[..n], s[n], verdicts[n]);
      assert s == s[..n] + [s[n]] && verdicts == verdicts[..n] + [verdicts[n]];
    }
  }

  class CheckCache {
    const engineVersion: string
    const configHash: string
    const enabled: bool
    var entries: Entries
    var invalidated: bool

    constructor (disk: Disk, enabled: bool, engineVersion: string, configHash: string)
      ensures this.enabled == enabled && this.engineVersion == engineVersion && this.configHash == configHash
      ensures (entries, invalidated) == if enabled then LoadCacheFile(disk, engineVersion, configHash) else (map[], false)
    {
      this.enabled, this.engineVersion, this.configHash := enabled, engineVersion, configHash;
      var loaded := if enabled then LoadCacheFile(disk, engineVersion, configHash) else (map[], false);
      entries, invalidated := loaded.0, loaded.1;
    }

    predicate Usable()
      reads this
    {
      enabled && !invalidated
    }

    predicate IsFastCached(meta: FileMeta)
      reads this
    {
      FastHit(entries, Usable(), meta)
    }

    predicate IsCached(file: File)
      reads this
    {
      Hit(entries, Usable(), file)
    }

    method FastPartition(metas: seq<FileMeta>) returns (cached: seq<FileMeta>, uncached: seq<FileMeta>)
      ensures var verdicts := FastHits(entries, Usable(), metas);
        && cached == Selected(metas, verdicts, true) && uncached == Selected(metas, verdicts, false)
        && Woven(cached, uncached, verdicts) == metas
    {
      cached, uncached := [], [];
      ghost var verdicts := [];
      for i := 0 to |metas|
        invariant |verdicts| == i && forall k :: 0 <= k < i ==> verdicts[k] == FastHit(entries, Usable(), metas[k])
        invariant cached == Selected(metas[..i], verdicts, true) && uncached == Selected(metas[..i], verdicts, false)
      {
        var hit := IsFastCached(metas[i]);
        SelectedAppend(metas[..i], verdicts, metas[i], hit, true);
        SelectedAppend(metas[..i], verdicts, metas[i], hit, false);
        assert metas[..i + 1] == metas[..i] + [metas[i]];
        if hit {
          cached := cached + [metas[i]];
        } else {
          uncached := uncached + [metas[i]];
        }
        verdicts := verdicts + [hit];
      }
      assert metas[..|metas|] == metas;
      assert verdicts == FastHits(entries, Usable(), metas);
      PartsMakeWhole(metas, verdicts);
    }

    method Partition(files: seq<File>) returns (cached: seq<File>, uncached: seq<File>)
      ensures var verdicts := Hits(entries, Usable(), files);
        && cached == Selected(files, verdicts, true) && uncached == Selected(files, verdicts, false)
        && Woven(cached, uncached, verdicts) == files
    {
      cached, uncached := [], [];
      ghost var verdicts := [];
      for i := 0 to |files|
        invariant |verdicts| == i && forall k :: 0 <= k < i ==> verdicts[k] == Hit(entries, Usable(), files[k])
        invariant cached == Selected(files[..i], verdicts, true) && uncached == Selected(files[..i], verdicts, false)
      {
        var hit := IsCached(files[i]);
        SelectedAppend(files[..i], verdicts, files[i], hit, true);
        SelectedAppend(files[..i], verdicts, files[i], hit, false);
        assert files[..i + 1] == files[..i] + [files[i]];
        if hit {
          cached := cached + [files[i]];
        } else {
          uncached := uncached + [files[i]];
        }
        verdicts := verdicts + [hit];
      }
      assert files[..|files|] == files;
      assert verdicts == Hits(entries, Usable(), files);
      PartsMakeWhole(files, verdicts);
    }

    method Update(path: string, contentHash: string, size: nat, mtime: int, diagnostics: seq<Diagnostic>, model: Option<CachedModel>)
      modifies this`entries
      ensures entries == if enabled then old(entries)[path := CacheEntry(contentHash, size, mtime, CachedAll(diagnostics), model)]
                         else old(entries)
    {
      if !enabled {
        return;
      }
      var cached: seq<CachedDiagnostic> := [];
      for i := 0 to |diagnostics|
        invariant |cached| == i && forall k :: 0 <= k < i ==> cached[k] == CachedOf(diagnostics[k])
        invariant entries == old(entries)
      {
        cached := cached + [CachedOf(diagnostics[i])];
      }
      assert cached == CachedAll(diagnostics);
      entries := entries[path := CacheEntry(contentHash, size, mtime, cached, model)];
    }

    /** The whole file at once, by a rename; if writing fails the old one stays. What was
        written is loaded again by the same engine for the same configuration. */
    method Flush(disk: Disk, written: bool) returns (disk': Disk)
      ensures enabled && written ==>
        && disk' == Readable(CacheFile(CACHE_VERSION, engineVersion, configHash, entries))
        && AfterLoad(disk') == disk' && LoadCacheFile(disk', engineVersion, configHash) == (entries, false)
      ensures !enabled || !written ==> disk' == disk
    {
      if !enabled {
        return disk;
      }
      disk' := if written then Readable(CacheFile(CACHE_VERSION, engineVersion, configHash, entries)) else disk;
    }

    /** Nothing is answered from the cache for the rest of the run. */
    method Clear()
      modifies this
      ensures entries == map[] && invalidated
      ensures (forall file :: !IsCached(file)) && (forall meta :: !IsFastCached(meta))
    {
      entries := map[];
      invalidated := true;
    }
  }

  /** What an update makes of later questions about the path: by content, the same hash is a hit;
      by size and time, the same ones are, unless the size or the time is 0, which is unknown. */
  method UpdateThenAsk(cache: CheckCache, path: string, contentHash: string, size: nat, mtime: int,
                       diagnostics: seq<Diagnostic>, model: Option<CachedModel>, file: File, meta: FileMeta) returns (hit: bool, fastHit: bool)
    requires cache.Usable() && file.relPath == meta.relPath == path
    modifies cache`entries
    ensures hit <==> file.contentHash == contentHash
    ensures fastHit <==> meta.size == size && meta.mtimeSecs == mtime && size != 0 && mtime != 0
    ensures path in cache.entries && cache.entries[path].diagnostics == CachedAll(diagnostics)
  {
    cache.Update(path, contentHash, size, mtime, diagnostics, model);
    hit := cache.IsCached(file);
    fastHit := cache.IsFastCached(meta);
  }

  /** After a clear, files that are checked and stored again are still not answered from the
      cache in this run, but a flush makes them the next run's entries. */
  method ClearedForRun(cache: CheckCache, disk: Disk, path: string, contentHash: string, size: nat, mtime: int,
                       diagnostics: seq<Diagnostic>, model: Option<CachedModel>) returns (next: CheckCache)
    requires cache.enabled
    modifies cache
    ensures (forall file :: !cache.IsCached(file)) && (forall meta :: !cache.IsFastCached(meta))
    ensures next.entries == map[path := CacheEntry(contentHash, size, mtime, CachedAll(diagnostics), model)]
    ensures forall content :: next.IsCached(File(path, content, contentHash))
  {
    cache.Clear();
    cache.Update(path, contentHash, size, mtime, diagnostics, model);
    var written := cache.Flush(disk, true);
    next := new CheckCache(written, true, cache.engineVersion, cache.configHash);
  }

  /** What a flush wrote is what the next load reads, for the same engine and configuration;
      for any other it is nothing. */
  method FlushThenLoad(cache: CheckCache, disk: Disk, engineVersion: string, configHash: string) returns (next: CheckCache)
    requires cache.enabled
    ensures next.Usable() <==> engineVersion == cache.engineVersion && configHash == cache.configHash
    ensures next.entries == if next.Usable() then cache.entries else map[]
  {
    var written := cache.Flush(disk, true);
    next := new CheckCache(written, true, engineVersion, configHash);
  }
}
