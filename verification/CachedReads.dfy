/**
 The two clients of the cache: the interceptor around a cached route and the memo of public
 assets. Each looks the key up and takes its snapshot before anything is read, and stores on
 that snapshot's condition afterwards; what happens in between is CacheProtocol's subject.
 */
module CachedReads {
  import opened Wrappers
  import opened CacheSpec
  import opened CacheKeys
  import C = CacheService

  const ASSET_PUBLIC_MEMO_TAGS: seq<Tag> :=
    ["home", "pages", "board_members", "news", "partners", "documents", "doc_categories", "licences"]

  datatype Request = Request(isGet: bool, path: string, query: Query, previewAware: bool)

  datatype Lookup<+V> = Bypass | Hit(value: V) | Miss(key: Key, snapshot: string)

  datatype CacheControl = Unset | Public | PrivateNoStore

  /** A preview is never answered from the cache; on a route without previews the parameter means nothing. */
  predicate SkipsLookup(req: Request) {
    req.previewAware && "preview" in req.query
  }

  /** The cache after a lookup: an entry past its lifetime is gone, if it was looked for. */
  function LookedUp<V>(s: CacheState<V>, req: Request, key: Key, expired: bool): CacheState<V> {
    if req.isGet && !SkipsLookup(req) && expired then Expire(s, key) else s
  }

  /** What a lookup under `key` answers: the entry, unless a preview is asked for, or else a snapshot of the tags. */
  ghost function Answer<V>(s: CacheState<V>, req: Request, key: Key, tags: seq<Tag>, expired: bool): Lookup<V> {
    if !SkipsLookup(req) && key in s.responses && !expired then Hit(s.responses[key].value)
    else Miss(key, VersionOf(s.versions, s.epoch, tags))
  }

  method LookUp<V(==)>(cache: C.CacheService<V>, req: Request, key: Key, tags: seq<Tag>, expired: bool)
    returns (r: Lookup<V>)
    requires cache.Valid() && req.isGet
    modifies cache, cache.tagIndex.Values
    ensures cache.Valid()
    ensures cache.View() == LookedUp(old(cache.View()), req, key, expired)
    ensures r == Answer(old(cache.View()), req, key, tags, expired)
  {
    if !(req.previewAware && "preview" in req.query) {
      var cached := cache.Get(key, expired);
      if cached.Some? {
        return Hit(cached.value);
      }
    }
    var version := cache.Snapshot(tags);
    return Miss(key, version);
  }

  method BeforeHandler<V(==)>(cache: C.CacheService<V>, req: Request, params: seq<string>, tags: seq<Tag>,
      expired: bool)
    returns (r: Lookup<V>, headers: CacheControl)
    requires cache.Valid()
    modifies cache, cache.tagIndex.Values
    ensures cache.Valid()
    ensures cache.View() == LookedUp(old(cache.View()), req, KeyOf(req.path, req.query, params), expired)
    ensures r == if !req.isGet then Bypass
            else Answer(old(cache.View()), req, KeyOf(req.path, req.query, params), tags, expired)
    ensures r.Bypass? <==> !req.isGet
    ensures r.Hit? <==>
            && req.isGet && !(req.previewAware && "preview" in req.query)
            && KeyOf(req.path, req.query, params) in old(cache.cache) && !expired
    ensures r.Hit? ==> r.value == old(cache.cache)[KeyOf(req.path, req.query, params)].value
    ensures r.Miss? ==>
            && r.key == KeyOf(req.path, req.query, params)
            && r.snapshot == VersionOf(old(cache.tagVersions), old(cache.epoch), tags)
    ensures headers == if r.Hit? then Public else Unset
  {
    if !req.isGet {
      return Bypass, Unset;
    }
    var key := BuildCacheKey(req.path, req.query, params);
    r := LookUp(cache, req, key, tags, expired);
    headers := if r.Hit? then Public else Unset;
  }

  /** A verified preview stays private and unstored; a handler may also ask for its response not to be stored. */
  method AfterHandler<V(==)>(cache: C.CacheService<V>, key: Key, tags: seq<Tag>, snapshot: string, data: V,
                             previewVerified: bool, skipCacheWrite: bool, choice: LruChoice)
    returns (headers: CacheControl)
    requires cache.Valid()
    modifies cache, cache.tagIndex.Values
    ensures cache.Valid()
    ensures cache.View() == if previewVerified || skipCacheWrite then old(cache.View())
                            else StoreIfCurrent(old(cache.View()), false, key, Entry(data, tags), snapshot, choice)
    ensures !previewVerified && !skipCacheWrite && !choice.refused &&
            snapshot == VersionOf(old(cache.tagVersions), old(cache.epoch), tags) ==>
              key in cache.cache && cache.cache[key] == Entry(data, tags)
    ensures headers == if previewVerified then PrivateNoStore else Public
  {
    if previewVerified {
      return PrivateNoStore;
    }
    if !skipCacheWrite {
      var _ := cache.Set(key, data, tags, Some(snapshot), choice);
    }
    return Public;
  }

  method BeforeAssetQuery<V(==)>(cache: C.CacheService<V>, assetId: string, expired: bool) returns (r: Lookup<V>)
    requires cache.Valid()
    modifies cache, cache.tagIndex.Values
    ensures cache.Valid()
    ensures cache.View() == if expired then ExpireMemo(old(cache.View()), MemoKeyOf(assetId)) else old(cache.View())
    ensures var key := MemoKeyOf(assetId);
            r == if key in old(cache.memoCache) && !expired then Hit(old(cache.memoCache)[key].value)
                 else Miss(key, VersionOf(old(cache.tagVersions), old(cache.epoch), ASSET_PUBLIC_MEMO_TAGS))
  {
    var memoised := cache.GetMemo(MemoKeyOf(assetId), expired);
    if memoised.Some? {
      return Hit(memoised.value);
    }
    var version := cache.Snapshot(ASSET_PUBLIC_MEMO_TAGS);
    return Miss(MemoKeyOf(assetId), version);
  }

  method AfterAssetQuery<V(==)>(cache: C.CacheService<V>, key: Key, snapshot: string, isPublic: V, choice: LruChoice)
    requires cache.Valid()
    modifies cache, cache.tagIndex.Values
    ensures cache.Valid()
    ensures cache.View() ==
            StoreIfCurrent(old(cache.View()), true, key, Entry(isPublic, ASSET_PUBLIC_MEMO_TAGS), snapshot, choice)
  {
    var _ := cache.SetMemo(key, isPublic, ASSET_PUBLIC_MEMO_TAGS, Some(snapshot), choice);
  }
}
