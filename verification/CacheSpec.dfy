/**
 The response cache and the boolean memo store as one value: what each operation of
 CacheService does to the two stores, the shared tag index, the tag versions and the epoch,
 and what those operations keep.

 lru-cache itself is not modelled: which entries it evicts, whether an entry's lifetime has
 passed and whether it declines an oversized entry are choices (`LruChoice`) that every
 statement below is made for.
 */
module CacheSpec {
  import opened Strings

  type Key = string
  type Tag = string

  datatype Entry<+V> = Entry(value: V, tags: seq<Tag>)

  datatype LruChoice = LruChoice(expired: bool, refused: bool, victims: set<Key>)

  datatype CacheState<V> = CacheState(
    responses: map<Key, Entry<V>>,
    memos: map<Key, Entry<V>>,
    index: set<(Tag, Key)>,
    versions: map<Tag, nat>,
    epoch: nat)

  /** Keys of CacheInterceptor.buildCacheKey and of MediaService.isPubliclyReadable. */
  predicate IsResponseKey(k: Key) { "GET:" <= k }

  predicate IsMemoKey(k: Key) { "asset-public:" <= k }

  // ---- versions -------------------------------------------------------------------------

  function Count(versions: map<Tag, nat>, t: Tag): nat {
    if t in versions then versions[t] else 0
  }

  function Counts(versions: map<Tag, nat>, tags: seq<Tag>): seq<nat> {
    seq(|tags|, i requires 0 <= i < |tags| => Count(versions, tags[i]))
  }

  function Commas(ns: seq<nat>): string {
    if |ns| == 0 then ""
    else if |ns| == 1 then Decimal(ns[0])
    else Decimal(ns[0]) + [','] + Commas(ns[1..])
  }

  function VersionOf(versions: map<Tag, nat>, epoch: nat, tags: seq<Tag>): string {
    Decimal(epoch) + [':'] + Commas(Counts(versions, tags))
  }

  lemma {:induction false} CommasInjective(ms: seq<nat>, ns: seq<nat>)
    requires |ms| == |ns| && Commas(ms) == Commas(ns)
    ensures ms == ns
  {
    if |ms| == 0 {
    } else if |ms| == 1 {
      DecimalInjective(ms[0], ns[0]);
    } else {
      UniqueSplit(Decimal(ms[0]), Decimal(ns[0]), ',', Commas(ms[1..]), Commas(ns[1..]));
      DecimalInjective(ms[0], ns[0]);
      CommasInjective(ms[1..], ns[1..]);
      assert ms == [ms[0]] + ms[1..] && ns == [ns[0]] + ns[1..];
    }
  }

  /**
   Two snapshots of the same tags are the same string exactly when nothing was cleared and no
   tag of the list was purged in between.
   */
  lemma {:induction false} SnapshotsAgree(v: map<Tag, nat>, e: nat, w: map<Tag, nat>, f: nat, tags: seq<Tag>)
    ensures VersionOf(v, e, tags) == VersionOf(w, f, tags) <==>
            e == f && forall t | t in tags :: Count(v, t) == Count(w, t)
  {
    if VersionOf(v, e, tags) == VersionOf(w, f, tags) {
      UniqueSplit(Decimal(e), Decimal(f), ':', Commas(Counts(v, tags)), Commas(Counts(w, tags)));
      DecimalInjective(e, f);
      CommasInjective(Counts(v, tags), Counts(w, tags));
      forall t | t in tags ensures Count(v, t) == Count(w, t) {
        var i :| 0 <= i < |tags| && tags[i] == t;
        assert Counts(v, tags)[i] == Counts(w, tags)[i];
      }
    }
    if e == f && forall t | t in tags :: Count(v, t) == Count(w, t) {
      assert Counts(v, tags) == Counts(w, tags);
    }
  }

  // ---- operations -----------------------------------------------------------------------

  /** The index once the keys in `gone` were disposed of: each loses the tags it was stored under. */
  function Untagged<V>(index: set<(Tag, Key)>, store: map<Key, Entry<V>>, gone: set<Key>): set<(Tag, Key)> {
    set p | p in index && !(p.1 in gone && p.1 in store && p.0 in store[p.1].tags)
  }

  function Tagged(index: set<(Tag, Key)>, key: Key, tags: seq<Tag>): set<(Tag, Key)> {
    index + set t | t in tags :: (t, key)
  }

  function Stored<V>(store: map<Key, Entry<V>>, key: Key, entry: Entry<V>, choice: LruChoice): map<Key, Entry<V>> {
    var rest := store - (choice.victims + {key});
    if choice.refused then rest else rest[key := entry]
  }

  function Set<V>(s: CacheState<V>, key: Key, entry: Entry<V>, choice: LruChoice): CacheState<V> {
    s.(responses := Stored(s.responses, key, entry, choice),
       index := Tagged(Untagged(s.index, s.responses, choice.victims + {key}), key, entry.tags))
  }

  function SetMemo<V>(s: CacheState<V>, key: Key, entry: Entry<V>, choice: LruChoice): CacheState<V> {
    s.(memos := Stored(s.memos, key, entry, choice),
       index := Tagged(Untagged(s.index, s.memos, choice.victims + {key}), key, entry.tags))
  }

  /** The conditional store: nothing happens when one of the tags was purged since the snapshot. */
  function StoreIfCurrent<V>(s: CacheState<V>, memo: bool, key: Key, entry: Entry<V>, snapshot: string,
      choice: LruChoice): CacheState<V> {
    if snapshot != VersionOf(s.versions, s.epoch, entry.tags) then s
    else if memo then SetMemo(s, key, entry, choice)
    else Set(s, key, entry, choice)
  }

  /** Reading a response whose lifetime has passed drops it; any other read changes nothing. */
  function Expire<V>(s: CacheState<V>, key: Key): CacheState<V> {
    s.(responses := s.responses - {key}, index := Untagged(s.index, s.responses, {key}))
  }

  function ExpireMemo<V>(s: CacheState<V>, key: Key): CacheState<V> {
    s.(memos := s.memos - {key}, index := Untagged(s.index, s.memos, {key}))
  }

  function Indexed(index: set<(Tag, Key)>, tag: Tag): set<Key> {
    set p | p in index && p.0 == tag :: p.1
  }

  /** `cache.delete(key)`, or `memoCache.delete(key)` when no response has that key. */
  function DropEither<V>(s: CacheState<V>, key: Key): CacheState<V> {
    if key in s.responses then Expire(s, key) else ExpireMemo(s, key)
  }

  /** What dropping the keys in `done` one by one leaves: memos go only where no response had the key. */
  function Walked<V>(s: CacheState<V>, done: set<Key>): CacheState<V> {
    var memos := done - s.responses.Keys;
    s.(responses := s.responses - done, memos := s.memos - memos,
       index := Untagged(Untagged(s.index, s.responses, done), s.memos, memos))
  }

  function Bumped<V>(s: CacheState<V>, tag: Tag): CacheState<V> {
    s.(versions := s.versions[tag := Count(s.versions, tag) + 1])
  }

  function Forgotten<V>(s: CacheState<V>, tag: Tag): CacheState<V> {
    s.(index := set p | p in s.index && p.0 != tag)
  }

  /** Count the purge, walk the keys listed under the tag, then forget the tag. */
  function Purge<V>(s: CacheState<V>, tag: Tag): CacheState<V> {
    Forgotten(Walked(Bumped(s, tag), Indexed(s.index, tag)), tag)
  }

  function Purged<V>(s: CacheState<V>, tag: Tag): nat {
    |Indexed(s.index, tag) * s.responses.Keys|
  }

  function Clear<V>(s: CacheState<V>): CacheState<V> {
    CacheState(map[], map[], {}, s.versions, s.epoch + 1)
  }

  /** Disposing of the keys in `gone` takes `k` out of the set of `t`. */
  ghost predicate Carries<V>(store: map<Key, Entry<V>>, gone: set<Key>, t: Tag, k: Key) {
    k in gone && k in store && t in store[k].tags
  }

  lemma InStoredIndex<V>(index: set<(Tag, Key)>, store: map<Key, Entry<V>>, gone: set<Key>, key: Key, tags: seq<Tag>)
    ensures forall t, k :: (t, k) in Tagged(Untagged(index, store, gone), key, tags) <==>
              ((t, k) in index && !Carries(store, gone, t, k)) || (k == key && t in tags)
  {
  }

  /** The walk may drop its keys one at a time: those still to come are not disturbed. */
  lemma WalkStep<V>(s: CacheState<V>, done: set<Key>, key: Key)
    requires key !in done
    ensures DropEither(Walked(s, done), key) == Walked(s, done + {key})
    ensures key in Walked(s, done).responses <==> key in s.responses
  {
    var w, next := Walked(s, done), DropEither(Walked(s, done), key);
    var memos := done - s.responses.Keys;
    assert next.responses == s.responses - (done + {key});
    assert (done + {key}) - s.responses.Keys == memos + (if key in s.responses then {} else {key});
    assert next.memos == s.memos - ((done + {key}) - s.responses.Keys);
    assert next.index == Walked(s, done + {key}).index;
  }

  lemma WalkStart<V>(s: CacheState<V>)
    ensures Walked(s, {}) == s
  {
  }

  // ---- what the operations keep ---------------------------------------------------------

  /** Every stored key is indexed under all its tags; the index may hold more than that. */
  ghost predicate Covered<V>(index: set<(Tag, Key)>, store: map<Key, Entry<V>>) {
    forall k, t | k in store && t in store[k].tags :: (t, k) in index
  }

  ghost predicate Coherent<V>(s: CacheState<V>) {
    && (forall k | k in s.responses :: IsResponseKey(k))
    && (forall k | k in s.memos :: IsMemoKey(k))
    && Covered(s.index, s.responses)
    && Covered(s.index, s.memos)
  }

  lemma KeySpacesDisjoint(k: Key)
    ensures !(IsResponseKey(k) && IsMemoKey(k))
  {
    assert IsResponseKey(k) ==> k[0] == "GET:"[0];
    assert IsMemoKey(k) ==> k[0] == "asset-public:"[0];
  }

  /**
   Coverage survives storing (also when lru-cache refuses the entry or evicts others), expiry,
   purging and clearing, although the tag sets of one store are edited on behalf of the other.
   */
  lemma StoringKeepsCoherent<V>(s: CacheState<V>, key: Key, entry: Entry<V>, choice: LruChoice)
    requires Coherent(s)
    ensures IsResponseKey(key) ==> Coherent(Set(s, key, entry, choice))
    ensures IsMemoKey(key) ==> Coherent(SetMemo(s, key, entry, choice))
  {
    StoresDisjoint(s, key);
  }

  lemma RemovingKeepsCoherent<V>(s: CacheState<V>, key: Key, tag: Tag)
    requires Coherent(s)
    ensures Coherent(Expire(s, key)) && Coherent(ExpireMemo(s, key))
    ensures Coherent(Purge(s, tag)) && Coherent(Clear(s))
  {
    StoresDisjoint(s, key);
  }

  lemma StoresDisjoint<V>(s: CacheState<V>, key: Key)
    requires Coherent(s)
    ensures s.responses.Keys !! s.memos.Keys
    ensures IsResponseKey(key) ==> key !in s.memos
    ensures IsMemoKey(key) ==> key !in s.responses
  {
    forall k ensures !(IsResponseKey(k) && IsMemoKey(k)) {
      KeySpacesDisjoint(k);
    }
  }

  /** Scanning one store: what remains after dropping every entry that carries `tag`. */
  function WithoutTag<V>(store: map<Key, Entry<V>>, tag: Tag): map<Key, Entry<V>> {
    map k | k in store && tag !in store[k].tags :: store[k]
  }

  /** No stored key is listed under `tag` without carrying it. */
  ghost predicate Honest<V>(s: CacheState<V>, tag: Tag) {
    && (forall k | k in s.responses && (tag, k) in s.index :: tag in s.responses[k].tags)
    && (forall k | k in s.memos && (tag, k) in s.index :: tag in s.memos[k].tags)
  }

  /**
   Purging through the index never leaves an entry carrying the tag, and it is the scan of both
   stores exactly when the index lists no stored key under a tag it does not carry; then the
   count is the number of response entries that carried the tag.
   */
  lemma PurgeIsScan<V>(s: CacheState<V>, tag: Tag)
    requires Coherent(s)
    ensures forall k | k in Purge(s, tag).responses :: tag !in s.responses[k].tags
    ensures forall k | k in Purge(s, tag).memos :: tag !in s.memos[k].tags
    ensures Purge(s, tag).responses == WithoutTag(s.responses, tag) && Purge(s, tag).memos == WithoutTag(s.memos, tag)
            <==> Honest(s, tag)
    ensures Honest(s, tag) ==> Purged(s, tag) == |set k | k in s.responses && tag in s.responses[k].tags|
  {
    var keys := Indexed(s.index, tag);
    var s' := Purge(s, tag);
    forall k ensures k in keys <==> (tag, k) in s.index {
      if (tag, k) in s.index {
        assert (tag, k).1 == k;
      }
    }
    forall k | k in s.memos ensures k !in s.responses {
      KeySpacesDisjoint(k);
    }
    if Honest(s, tag) {
      assert keys * s.responses.Keys == set k | k in s.responses && tag in s.responses[k].tags;
      assert s'.responses == WithoutTag(s.responses, tag);
      assert s'.memos == WithoutTag(s.memos, tag);
    } else if k :| k in s.responses && (tag, k) in s.index && tag !in s.responses[k].tags {
      assert k in WithoutTag(s.responses, tag) && k !in s'.responses;
    } else {
      var k :| k in s.memos && (tag, k) in s.index && tag !in s.memos[k].tags;
      assert k in WithoutTag(s.memos, tag) && k !in s'.memos;
    }
  }

  ghost predicate Carried<V>(s: CacheState<V>, t: Tag, k: Key) {
    (k in s.responses && t in s.responses[k].tags) || (k in s.memos && t in s.memos[k].tags)
  }

  /** The index lists exactly what is stored. */
  ghost predicate Exact<V>(s: CacheState<V>) {
    forall t, k :: (t, k) in s.index <==> Carried(s, t, k)
  }

  /** It does so as long as lru-cache declines nothing: what leaves a store leaves the index. */
  lemma RemovingKeepsExact<V>(s: CacheState<V>, key: Key, tag: Tag)
    requires Coherent(s) && Exact(s)
    ensures Exact(Expire(s, key)) && Exact(ExpireMemo(s, key)) && Exact(Clear(s))
    ensures Exact(Purge(s, tag))
  {
    StoresDisjoint(s, key);
    PurgeKeepsExact(s, tag);
  }

  lemma PurgeKeepsExact<V>(s: CacheState<V>, tag: Tag)
    requires Coherent(s) && Exact(s)
    ensures Exact(Purge(s, tag))
  {
    StoresDisjoint(s, "");
    var keys := Indexed(s.index, tag);
    forall k ensures k in keys <==> (tag, k) in s.index {
      assert (tag, k) in s.index ==> (tag, k).1 == k;
    }
  }

  lemma StoringKeepsExact<V>(s: CacheState<V>, key: Key, entry: Entry<V>, choice: LruChoice)
    requires Coherent(s) && Exact(s) && !choice.refused
    ensures IsResponseKey(key) ==> Exact(Set(s, key, entry, choice))
    ensures IsMemoKey(key) ==> Exact(SetMemo(s, key, entry, choice))
  {
    StoresDisjoint(s, key);
  }

  /**
   Whatever lru-cache declined, a purge leaves nothing listed under its tag, and what is listed of
   other keys under other tags as it was.
   */
  lemma PurgeForgets<V>(s: CacheState<V>, tag: Tag, t: Tag, k: Key)
    ensures (tag, k) !in Purge(s, tag).index
    ensures t != tag && (tag, k) !in s.index ==> ((t, k) in Purge(s, tag).index <==> (t, k) in s.index)
  {
    if k in Indexed(s.index, tag) {
      var p :| p in s.index && p.0 == tag && p.1 == k;
      assert p == (tag, k);
    }
  }

  /** Each key is always stored under the same list of tags. */
  ghost predicate FollowsTags<V>(s: CacheState<V>, tagsOf: Key -> seq<Tag>) {
    && (forall p | p in s.index :: p.0 in tagsOf(p.1))
    && (forall k | k in s.responses :: s.responses[k].tags == tagsOf(k))
    && (forall k | k in s.memos :: s.memos[k].tags == tagsOf(k))
  }

  /** A route stores under its declared tags only, and that is enough for the index to stay honest. */
  lemma FixedTagsStayHonest<V>(s: CacheState<V>, tagsOf: Key -> seq<Tag>, key: Key, value: V, choice: LruChoice,
      tag: Tag)
    requires FollowsTags(s, tagsOf)
    ensures Honest(s, tag)
    ensures FollowsTags(Set(s, key, Entry(value, tagsOf(key)), choice), tagsOf)
    ensures FollowsTags(SetMemo(s, key, Entry(value, tagsOf(key)), choice), tagsOf)
    ensures FollowsTags(Expire(s, key), tagsOf) && FollowsTags(ExpireMemo(s, key), tagsOf)
    ensures FollowsTags(Purge(s, tag), tagsOf) && FollowsTags(Clear(s), tagsOf)
  {
    forall p | p in s.index ensures p == (p.0, p.1) {}
  }

  /** A snapshot as `versionOf` gave it out before now: neither its epoch nor its counts are ahead. */
  ghost predicate TakenBefore<V>(s: CacheState<V>, v: map<Tag, nat>, e: nat) {
    e <= s.epoch && forall t :: Count(v, t) <= Count(s.versions, t)
  }

  /** Clearing empties the cache and outdates every snapshot taken before it, whatever its tags. */
  lemma ClearOutdates<V>(s: CacheState<V>, v: map<Tag, nat>, e: nat, tags: seq<Tag>)
    requires e <= s.epoch
    ensures VersionOf(v, e, tags) != VersionOf(Clear(s).versions, Clear(s).epoch, tags)
    ensures Clear(s).responses == map[] && Clear(s).memos == map[] && Clear(s).index == {}
  {
    SnapshotsAgree(v, e, Clear(s).versions, Clear(s).epoch, tags);
  }

  /** Of the snapshots that hold, purging a tag outdates exactly those that list it. */
  lemma PurgeOutdates<V>(s: CacheState<V>, v: map<Tag, nat>, e: nat, tags: seq<Tag>, tag: Tag)
    requires TakenBefore(s, v, e)
    ensures var s' := Purge(s, tag);
            VersionOf(v, e, tags) == VersionOf(s'.versions, s'.epoch, tags) <==>
              VersionOf(v, e, tags) == VersionOf(s.versions, s.epoch, tags) && tag !in tags
  {
    SnapshotsAgree(v, e, s.versions, s.epoch, tags);
    SnapshotsAgree(v, e, Purge(s, tag).versions, Purge(s, tag).epoch, tags);
  }

  /**
   With a tag list that varies the index does go wrong: a refused entry leaves its key behind
   under "a", and a later purge of "a" removes an entry that only ever carried "b".
   */
  lemma VaryingTagsPurgeTooMuch(v: int)
    ensures var s0: CacheState<int> := CacheState(map[], map[], {}, map[], 0);
            var s1 := Set(s0, "GET:/x:", Entry(v, ["a"]), LruChoice(false, true, {}));
            var s2 := Set(s1, "GET:/x:", Entry(v, ["b"]), LruChoice(false, false, {}));
            Coherent(s2) && "GET:/x:" in s2.responses && s2.responses["GET:/x:"].tags == ["b"] &&
            "GET:/x:" !in Purge(s2, "a").responses
  {
    var s0: CacheState<int> := CacheState(map[], map[], {}, map[], 0);
    var k := "GET:/x:";
    var s1 := Set(s0, k, Entry(v, ["a"]), LruChoice(false, true, {}));
    assert "a" in ["a"];
    assert ("a", k) in s1.index;
    var s2 := Set(s1, k, Entry(v, ["b"]), LruChoice(false, false, {}));
    assert ("a", k) in s2.index;
    StoringKeepsCoherent(s0, k, Entry(v, ["a"]), LruChoice(false, true, {}));
    StoringKeepsCoherent(s1, k, Entry(v, ["b"]), LruChoice(false, false, {}));
    assert k in Indexed(s2.index, "a") by {
      assert ("a", k).1 == k && ("a", k).0 == "a";
    }
  }
}
