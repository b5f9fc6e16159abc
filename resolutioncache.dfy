/**
 * The memoised `getColorForPath` of test/standalone_test.js: a `Map` from
 * path to resolution, capped at `MAX_CACHE_SIZE` entries. A JavaScript `Map`
 * iterates in insertion order and a hit does not re-insert its key, so on a
 * full cache the evicted key is the oldest inserted one (FIFO).
 */
module ResolutionCache {
  import opened Wrappers
  import opened PathResolver

  /** `MAX_CACHE_SIZE`. */
  const MaxCacheSize: nat := 100

  /** The last n elements of s (all of s when it is shorter). */
  function Newest<T>(s: seq<T>, n: nat): (r: seq<T>)
    ensures |r| == if |s| <= n then |s| else n
    ensures r == s[|s| - |r|..]
  {
    if |s| <= n then s else s[|s| - n..]
  }

  /** No element occurs twice. */
  predicate Distinct<T(==)>(s: seq<T>) {
    forall i, j :: 0 <= i < j < |s| ==> s[i] != s[j]
  }

  /**
   * The cache invariant on values: keys lists the map's keys once each in
   * insertion order, the size stays within the cap, the empty path is never
   * stored, and every stored value is the uncached resolution of its key.
   */
  ghost predicate CacheInv(keys: seq<string>, entries: map<string, Option<FolderInfo>>, folders: seq<FolderInfo>) {
    && |keys| <= MaxCacheSize
    && Distinct(keys)
    && (forall k :: k in entries <==> k in keys)
    && |entries| == |keys|
    && (forall k :: k in entries ==> k != "" && entries[k] == Resolve(k, folders))
  }

  /** Dropping the oldest key keeps the invariant, one entry smaller. */
  lemma EvictKeeps(keys: seq<string>, entries: map<string, Option<FolderInfo>>, folders: seq<FolderInfo>)
    requires CacheInv(keys, entries, folders) && |keys| > 0
    ensures CacheInv(keys[1..], entries - {keys[0]}, folders)
    ensures |keys[1..]| == |keys| - 1
  {
    var rest, smaller := keys[1..], entries - {keys[0]};
    assert keys[0] !in rest;
    assert smaller.Keys == entries.Keys - {keys[0]};
  }

  /** Appending a path that is not stored, with its resolution, keeps the invariant. */
  lemma AppendKeeps(keys: seq<string>, entries: map<string, Option<FolderInfo>>, folders: seq<FolderInfo>, path: string)
    requires CacheInv(keys, entries, folders) && |keys| < MaxCacheSize
    requires path != "" && path !in entries
    ensures CacheInv(keys + [path], entries[path := Resolve(path, folders)], folders)
  {
    DistinctSnoc(keys, path);
    var bigger := entries[path := Resolve(path, folders)];
    assert |bigger| == |entries| + 1;
    assert forall k :: k in bigger <==> k in keys + [path];
  }

  lemma DistinctSnoc<T>(s: seq<T>, x: T)
    requires Distinct(s) && x !in s
    ensures Distinct(s + [x])
  {
    var longer := s + [x];
    forall i, j | 0 <= i < j < |longer| ensures longer[i] != longer[j] {
      assert longer[i] == s[i];
    }
  }

  /** The key order after a miss on path: the oldest key goes when the cache is full. */
  function KeysAfterMiss(keys: seq<string>, path: string): (r: seq<string>)
    ensures |r| == if |keys| >= MaxCacheSize then |keys| else |keys| + 1
    ensures r[|r| - 1] == path && r[..|r| - 1] == keys[|keys| - (|r| - 1)..]
  {
    (if |keys| >= MaxCacheSize then keys[1..] else keys) + [path]
  }

  class PathColorCache {
    /** `foldersCache`: the table every entry was resolved against. */
    const folders: seq<FolderInfo>
    /** The keys of `pathColorCache`, oldest first. */
    var keys: seq<string>
    /** `pathColorCache`: path -> resolution, `None` for a path that matched nothing. */
    var entries: map<string, Option<FolderInfo>>

    ghost predicate Valid()
      reads this
    {
      CacheInv(keys, entries, folders)
    }

    /** A cache over the given table, initially empty. */
    constructor (folders: seq<FolderInfo>)
      ensures this.folders == folders && keys == [] && entries == map[]
      ensures Valid()
    {
      this.folders := folders;
      keys := [];
      entries := map[];
    }

    /** `pathColorCache.clear()`. */
    method Clear()
      requires Valid()
      modifies this
      ensures keys == [] && entries == map[]
      ensures Valid()
    {
      keys := [];
      entries := map[];
    }

    /**
     * The memoised `getColorForPath(filePath)`: the result is always the uncached
     * resolution. The empty path and a hit leave the cache as it was; a miss
     * first drops the oldest key when the cache is full, then appends the path.
     */
    method Get(path: string) returns (r: Option<FolderInfo>)
      requires Valid()
      modifies this
      ensures Valid() && |entries| <= MaxCacheSize
      ensures r == Resolve(path, folders)
      ensures path != "" && path in old(entries) ==> r == old(entries)[path]
      ensures path == "" || path in old(entries) ==> keys == old(keys) && entries == old(entries)
      ensures path != "" && path !in old(entries) ==>
        && keys == KeysAfterMiss(old(keys), path)
        && entries == (if |old(keys)| >= MaxCacheSize then old(entries) - {old(keys)[0]} else old(entries))[path := r]
    {
      if path == "" {
        return None;
      }
      if path in entries {
        return entries[path];
      }
      r := ScanFolders(path, folders);
      if |entries| >= MaxCacheSize {
        EvictKeeps(keys, entries, folders);
        var firstKey := keys[0];
        keys := keys[1..];
        entries := entries - {firstKey};
      }
      AppendKeeps(keys, entries, folders, path);
      keys := keys + [path];
      entries := entries[path := r];
    }
  }

  /** One more element: the newest n are the old newest n, less the oldest when full, then it. */
  lemma {:induction false} NewestStep<T>(s: seq<T>, x: T, n: nat)
    requires n > 0
    ensures Newest(s + [x], n) == (if |Newest(s, n)| >= n then Newest(s, n)[1..] else Newest(s, n)) + [x]
  {
    var t := s + [x];
    if |s| >= n {
      assert Newest(s, n)[1..] == s[|s| - n + 1..];
      assert t[|t| - n..] == s[|s| - n + 1..] + [x];
    }
  }

  /** In a duplicate-free run, lookup i misses and its miss extends the newest window by one. */
  lemma NextLookupIsMiss(paths: seq<string>, i: nat)
    requires Distinct(paths) && i < |paths|
    ensures paths[i] !in Newest(paths[..i], MaxCacheSize)
    ensures Newest(paths[..i + 1], MaxCacheSize) == KeysAfterMiss(Newest(paths[..i], MaxCacheSize), paths[i])
  {
    var window := Newest(paths[..i], MaxCacheSize);
    forall j | 0 <= j < |window| ensures window[j] != paths[i] {
      assert window[j] == paths[i - |window| + j];
    }
    NewestStep(paths[..i], paths[i], MaxCacheSize);
    assert paths[..i + 1] == paths[..i] + [paths[i]];
  }

  /**
   * A run of lookups of distinct non-empty paths from an empty cache, as the
   * eviction test's loop does: afterwards exactly the newest MaxCacheSize
   * paths are cached, in lookup order.
   */
  method LookupAll(cache: PathColorCache, paths: seq<string>)
    requires cache.Valid() && cache.keys == []
    requires Distinct(paths) && forall i :: 0 <= i < |paths| ==> paths[i] != ""
    modifies cache
    ensures cache.Valid() && cache.keys == Newest(paths, MaxCacheSize)
  {
    for i := 0 to |paths|
      invariant cache.Valid()
      invariant cache.keys == Newest(paths[..i], MaxCacheSize)
    {
      NextLookupIsMiss(paths, i);
      var _ := cache.Get(paths[i]);
    }
    assert paths[..|paths|] == paths;
  }

  /**
   * The eviction test: after `clear()` and 105 lookups of distinct paths the
   * cache holds exactly 100 entries, the last 100 paths, and the first 5 are gone.
   */
  method EvictionScenario(cache: PathColorCache, paths: seq<string>)
    requires cache.Valid()
    requires |paths| == 105 && Distinct(paths) && forall i :: 0 <= i < |paths| ==> paths[i] != ""
    modifies cache
    ensures |cache.entries| == MaxCacheSize && cache.keys == paths[5..]
    ensures forall j :: 0 <= j < 5 ==> paths[j] !in cache.entries
  {
    cache.Clear();
    LookupAll(cache, paths);
  }

  /**
   * The cache test: two lookups of the same path in a fresh cache return the
   * same resolution and leave one entry.
   */
  method RepeatedLookup(cache: PathColorCache, path: string) returns (first: Option<FolderInfo>, second: Option<FolderInfo>)
    requires cache.Valid() && cache.keys == [] && path != ""
    modifies cache
    ensures first == second == Resolve(path, cache.folders)
    ensures |cache.entries| == 1 && cache.keys == [path]
  {
    first := cache.Get(path);
    second := cache.Get(path);
  }

  /** `foldersCache` of the standalone test, in iteration order. */
  const StandaloneFolders: seq<FolderInfo> := [FolderInfo("frontend", "#dc3545"), FolderInfo("backend", "#007acc")]

  /** A Windows path resolves through its backslash-bracketed folder name. */
  lemma WindowsPathSample(path: string)
    requires path == "C:\\projects\\my-app\\frontend\\src\\index.js"
    ensures Resolve(path, StandaloneFolders) == Some(FolderInfo("frontend", "#dc3545"))
  {
    WindowsPathMatchesFrontend(path);
    ResolveAt(path, StandaloneFolders, 0);
  }

  /** A Linux path resolves to backend: frontend does not occur in it. */
  lemma LinuxPathSample(path: string)
    requires path == "/home/user/backend/api/main.py"
    ensures Resolve(path, StandaloneFolders) == Some(FolderInfo("backend", "#007acc"))
  {
    LinuxPathMissesFrontend(path);
    LinuxPathMatchesBackend(path);
    ResolveAt(path, StandaloneFolders, 1);
  }
}
