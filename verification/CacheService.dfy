/**
 CacheService on the heap. The index entry of a tag is an object of its own, and purging a tag
 walks that object while lru-cache's dispose callback deletes from it and, when it runs empty,
 drops it from the index: the walk then continues on an object the index no longer holds.
 */
module CacheService {
  import opened Wrappers
  import opened CacheSpec

  /**
   A JavaScript Set of keys: a list of slots in insertion order. Deleting empties a slot and
   moves nothing, so that a walk over the slots stays in step while elements are deleted.
   */
  class KeySet {
    var slots: seq<Option<Key>>

    /** No key has two slots. */
    ghost predicate Valid()
      reads this
    {
      NoTwice(slots)
    }

    ghost function Keys(): set<Key>
      reads this
    {
      KeysOf(slots)
    }

    constructor ()
      ensures Valid() && slots == []
    {
      slots := [];
    }

    method Add(key: Key)
      requires Valid()
      modifies this
      ensures Valid() && Keys() == old(Keys()) + {key}
    {
      if Some(key) !in slots {
        slots := slots + [Some(key)];
        assert slots[|slots| - 1] == Some(key);
        forall k ensures k in Keys() <==> k in old(Keys()) || k == key {
          if k in old(Keys()) {
            var i :| 0 <= i < |old(slots)| && old(slots)[i] == Some(k);
            assert slots[i] == Some(k);
          }
        }
      } else {
        var i :| 0 <= i < |slots| && slots[i] == Some(key);
        assert slots[i].value == key;
      }
    }

    method Delete(key: Key)
      requires Valid()
      modifies this
      ensures Valid() && Keys() == old(Keys()) - {key}
      ensures |slots| == |old(slots)|
      ensures forall i | 0 <= i < |slots| :: slots[i] == if old(slots)[i] == Some(key) then None else old(slots)[i]
      ensures slots == Emptied(old(slots), key)
    {
      var was := slots;
      slots := Emptied(was, key);
      EmptiedKeys(was, key);
    }

    method IsEmpty() returns (empty: bool)
      ensures empty <==> Keys() == {}
    {
      empty := forall i | 0 <= i < |slots| :: slots[i].None?;
      if !empty {
        var i :| 0 <= i < |slots| && slots[i].Some?;
        assert slots[i].value in Keys();
      }
    }
  }

  ghost function KeysOf(slots: seq<Option<Key>>): set<Key> {
    set i | 0 <= i < |slots| && slots[i].Some? :: slots[i].value
  }

  function Emptied(slots: seq<Option<Key>>, key: Key): seq<Option<Key>> {
    seq(|slots|, i requires 0 <= i < |slots| => if slots[i] == Some(key) then None else slots[i])
  }

  lemma EmptiedKeys(slots: seq<Option<Key>>, key: Key)
    ensures KeysOf(Emptied(slots, key)) == KeysOf(slots) - {key}
  {
    var e := Emptied(slots, key);
    forall k | k in KeysOf(slots) - {key} ensures k in KeysOf(e) {
      var i :| 0 <= i < |slots| && slots[i] == Some(k);
      assert e[i] == Some(k);
    }
    forall k | k in KeysOf(e) ensures k in KeysOf(slots) - {key} {
      var i :| 0 <= i < |e| && e[i] == Some(k);
      assert slots[i] == Some(k);
    }
  }

  lemma EmptiedTwice(slots: seq<Option<Key>>, key: Key)
    ensures Emptied(Emptied(slots, key), key) == Emptied(slots, key)
  {
  }

  /** The index only lost tags; the sets of the others are the same objects. */
  ghost predicate Shrunk(was: map<Tag, KeySet>, now: map<Tag, KeySet>) {
    forall t | t in now :: t in was && now[t] == was[t]
  }

  class CacheService<V(==)> {
    var cache: map<Key, Entry<V>>
    var memoCache: map<Key, Entry<V>>
    var tagIndex: map<Tag, KeySet>
    var tagVersions: map<Tag, nat>
    var epoch: nat
    var hits: nat
    var misses: nat

    /** Tags do not share a set object, and a tag whose set ran empty is not in the index. */
    ghost predicate Valid()
      reads this`tagIndex, tagIndex.Values
    {
      && (forall t | t in tagIndex :: tagIndex[t].Valid() && tagIndex[t].Keys() != {})
      && (forall t, u | t in tagIndex && u in tagIndex && t != u :: tagIndex[t] != tagIndex[u])
    }

    ghost predicate Listed(t: Tag, k: Key)
      reads this`tagIndex, tagIndex.Values
    {
      t in tagIndex && k in tagIndex[t].Keys()
    }

    ghost function Index(): (pairs: set<(Tag, Key)>)
      reads this`tagIndex, tagIndex.Values
      ensures forall t, k :: (t, k) in pairs <==> Listed(t, k)
    {
      set t, k | t in tagIndex && k in tagIndex[t].Keys() :: (t, k)
    }

    ghost function View(): CacheState<V>
      reads this`cache, this`memoCache, this`tagIndex, this`tagVersions, this`epoch, tagIndex.Values
    {
      CacheState(cache, memoCache, Index(), tagVersions, epoch)
    }

    /** The fields stand for `s`. */
    lemma ViewIs(s: CacheState<V>)
      requires Valid()
      requires cache == s.responses && memoCache == s.memos && tagVersions == s.versions && epoch == s.epoch
      requires forall t, k :: (t, k) in s.index <==> Listed(t, k)
      ensures View() == s
    {
      assert forall p: (Tag, Key) :: p in Index() <==> p in s.index by {
        forall p: (Tag, Key) ensures p in Index() <==> p in s.index {
          assert p == (p.0, p.1);
        }
      }
    }

    constructor ()
      ensures Valid() && View() == CacheState(map[], map[], {}, map[], 0)
    {
      cache, memoCache, tagIndex, tagVersions := map[], map[], map[], map[];
      epoch, hits, misses := 0, 0, 0;
    }

    method TagKey(key: Key, tags: seq<Tag>)
      requires Valid()
      modifies this`tagIndex, tagIndex.Values
      ensures Valid() && fresh(tagIndex.Values - old(tagIndex.Values))
      ensures forall t, k :: Listed(t, k) <==> old(Listed(t, k)) || (k == key && t in tags)
    {
      for n := 0 to |tags|
        invariant Valid() && fresh(tagIndex.Values - old(tagIndex.Values))
        invariant forall t, k :: Listed(t, k) <==> old(Listed(t, k)) || (k == key && t in tags[..n])
      {
        var tag := tags[n];
        label next:
        if tag !in tagIndex {
          var keys := new KeySet();
          keys.Add(key);
          tagIndex := tagIndex[tag := keys];
        } else {
          tagIndex[tag].Add(key);
        }
        assert tags[..n + 1] == tags[..n] + [tag];
        assert tag in tagIndex.Keys && tagIndex[tag] in tagIndex.Values;
        forall t, k ensures Listed(t, k) <==> old@next(Listed(t, k)) || (k == key && t == tag) {}
      }
      assert tags[..|tags|] == tags;
    }

    /** One tag lets go of `key`: its set loses the key and leaves the index when it runs empty. */
    method UntagOne(key: Key, tag: Tag)
      requires Valid()
      modifies this`tagIndex, tagIndex.Values
      ensures Valid() && Shrunk(old(tagIndex), tagIndex)
      ensures forall s: KeySet | s in old(tagIndex.Values) ::
                s.slots == old(s.slots) || s.slots == Emptied(old(s.slots), key)
      ensures forall t, k :: Listed(t, k) <==> old(Listed(t, k)) && !(k == key && t == tag)
    {
      if tag in tagIndex {
        EmptiedKeys(tagIndex[tag].slots, key);
        tagIndex[tag].Delete(key);
        var empty := tagIndex[tag].IsEmpty();
        assert forall t, k | t != tag :: Listed(t, k) <==> old(Listed(t, k));
        if empty {
          tagIndex := tagIndex - {tag};
        }
      }
    }

    /**
     Each listed set either keeps its slots or has the slot of `key` emptied, and a set that runs
     empty leaves the index: this is all a walk over one of these sets can notice.
     */
    method UntagKey(key: Key, tags: seq<Tag>)
      requires Valid()
      modifies this`tagIndex, tagIndex.Values
      ensures Valid() && Shrunk(old(tagIndex), tagIndex)
      ensures forall s: KeySet | s in old(tagIndex.Values) ::
                s.slots == old(s.slots) || s.slots == Emptied(old(s.slots), key)
      ensures forall t, k :: Listed(t, k) <==> old(Listed(t, k)) && !(k == key && t in tags)
    {
      for n := 0 to |tags|
        invariant Valid() && Shrunk(old(tagIndex), tagIndex)
        invariant forall s: KeySet | s in old(tagIndex.Values) ::
                    s.slots == old(s.slots) || s.slots == Emptied(old(s.slots), key)
        invariant forall t, k :: Listed(t, k) <==> old(Listed(t, k)) && !(k == key && t in tags[..n])
      {
        ghost var before := tagIndex.Values;
        label next:
        UntagOne(key, tags[n]);
        assert tags[..n + 1] == tags[..n] + [tags[n]];
        forall s: KeySet | s in old(tagIndex.Values)
          ensures s.slots == old(s.slots) || s.slots == Emptied(old(s.slots), key)
        {
          EmptiedTwice(old(s.slots), key);
          assert s !in before ==> s.slots == old@next(s.slots);
        }
      }
      assert tags[..|tags|] == tags;
    }

    // ---- lru-cache: an entry that leaves a store is disposed of, which untags it -----------

    method Drop(key: Key) returns (dropped: bool)
      requires Valid()
      modifies this`cache, this`tagIndex, tagIndex.Values
      ensures Valid() && Shrunk(old(tagIndex), tagIndex)
      ensures forall s: KeySet | s in old(tagIndex.Values) ::
                s.slots == old(s.slots) || s.slots == Emptied(old(s.slots), key)
      ensures dropped <==> key in old(cache)
      ensures cache == old(cache) - {key}
      ensures forall t, k :: Listed(t, k) <==> old(Listed(t, k)) && !Carries(old(cache), {key}, t, k)
    {
      dropped := key in cache;
      if dropped {
        UntagKey(key, cache[key].tags);
        cache := cache - {key};
      }
    }

    method DropMemo(key: Key)
      requires Valid()
      modifies this`memoCache, this`tagIndex, tagIndex.Values
      ensures Valid() && Shrunk(old(tagIndex), tagIndex)
      ensures forall s: KeySet | s in old(tagIndex.Values) ::
                s.slots == old(s.slots) || s.slots == Emptied(old(s.slots), key)
      ensures memoCache == old(memoCache) - {key}
      ensures forall t, k :: Listed(t, k) <==> old(Listed(t, k)) && !Carries(old(memoCache), {key}, t, k)
    {
      if key in memoCache {
        UntagKey(key, memoCache[key].tags);
        memoCache := memoCache - {key};
      }
    }

    method DropEither(key: Key) returns (dropped: bool)
      requires Valid()
      modifies this`cache, this`memoCache, this`tagIndex, tagIndex.Values
      ensures Valid() && Shrunk(old(tagIndex), tagIndex)
      ensures forall s: KeySet | s in old(tagIndex.Values) ::
                s.slots == old(s.slots) || s.slots == Emptied(old(s.slots), key)
      ensures dropped <==> key in old(cache)
      ensures View() == CacheSpec.DropEither(old(View()), key)
    {
      dropped := Drop(key);
      if !dropped {
        DropMemo(key);
      }
      ViewIs(CacheSpec.DropEither(old(View()), key));
    }

    method DropAll(keys: set<Key>)
      requires Valid()
      modifies this`cache, this`tagIndex, tagIndex.Values
      ensures Valid() && Shrunk(old(tagIndex), tagIndex)
      ensures cache == old(cache) - keys
      ensures forall t, k :: Listed(t, k) <==> old(Listed(t, k)) && !Carries(old(cache), keys, t, k)
    {
      var rest := keys;
      while rest != {}
        invariant rest <= keys && Valid() && Shrunk(old(tagIndex), tagIndex)
        invariant cache == old(cache) - (keys - rest)
        invariant forall t, k :: Listed(t, k) <==> old(Listed(t, k)) && !Carries(old(cache), keys - rest, t, k)
      {
        var key :| key in rest;
        var _ := Drop(key);
        rest := rest - {key};
      }
    }

    method DropAllMemos(keys: set<Key>)
      requires Valid()
      modifies this`memoCache, this`tagIndex, tagIndex.Values
      ensures Valid() && Shrunk(old(tagIndex), tagIndex)
      ensures memoCache == old(memoCache) - keys
      ensures forall t, k :: Listed(t, k) <==> old(Listed(t, k)) && !Carries(old(memoCache), keys, t, k)
    {
      var rest := keys;
      while rest != {}
        invariant rest <= keys && Valid() && Shrunk(old(tagIndex), tagIndex)
        invariant memoCache == old(memoCache) - (keys - rest)
        invariant forall t, k :: Listed(t, k) <==> old(Listed(t, k)) && !Carries(old(memoCache), keys - rest, t, k)
      {
        var key :| key in rest;
        DropMemo(key);
        rest := rest - {key};
      }
    }

    // ---- the public operations ------------------------------------------------------------

    method Snapshot(tags: seq<Tag>) returns (version: string)
      ensures version == VersionOf(tagVersions, epoch, tags)
    {
      version := VersionOf(tagVersions, epoch, tags);
    }

    method ExpireEntry(key: Key)
      requires Valid()
      modifies this`cache, this`tagIndex, tagIndex.Values
      ensures Valid() && View() == Expire(old(View()), key)
    {
      var _ := Drop(key);
      ViewIs(Expire(old(View()), key));
    }

    method ExpireMemoEntry(key: Key)
      requires Valid()
      modifies this`memoCache, this`tagIndex, tagIndex.Values
      ensures Valid() && View() == ExpireMemo(old(View()), key)
    {
      DropMemo(key);
      ViewIs(ExpireMemo(old(View()), key));
    }

    method Get(key: Key, expired: bool) returns (value: Option<V>)
      requires Valid()
      modifies this, tagIndex.Values
      ensures Valid() && View() == if expired then Expire(old(View()), key) else old(View())
      ensures value == if key in old(cache) && !expired then Some(old(cache)[key].value) else None
      ensures cache == (if expired then old(cache) - {key} else old(cache)) && memoCache == old(memoCache)
      ensures hits == old(hits) + (if value.Some? then 1 else 0)
      ensures misses == old(misses) + (if value.Some? then 0 else 1)
      ensures tagVersions == old(tagVersions) && epoch == old(epoch)
    {
      if expired {
        ExpireEntry(key);
      }
      value := if key in cache then Some(cache[key].value) else None;
      if value.Some? {
        hits := hits + 1;
      } else {
        misses := misses + 1;
      }
    }

    method GetMemo(key: Key, expired: bool) returns (value: Option<V>)
      requires Valid()
      modifies this, tagIndex.Values
      ensures Valid() && View() == if expired then ExpireMemo(old(View()), key) else old(View())
      ensures value == if key in old(memoCache) && !expired then Some(old(memoCache)[key].value) else None
      ensures memoCache == (if expired then old(memoCache) - {key} else old(memoCache)) && cache == old(cache)
      ensures hits == old(hits) && misses == old(misses)
      ensures tagVersions == old(tagVersions) && epoch == old(epoch)
    {
      if expired {
        ExpireMemoEntry(key);
      }
      value := if key in memoCache then Some(memoCache[key].value) else None;
    }

    /** `peek` hides an expired entry; lru-cache then disposes of the old entry itself. */
    method MakeRoom(key: Key, choice: LruChoice)
      requires Valid()
      modifies this`cache, this`tagIndex, tagIndex.Values
      ensures Valid() && Shrunk(old(tagIndex), tagIndex)
      ensures cache == old(cache) - (choice.victims + {key})
      ensures forall t, k :: Listed(t, k) <==> old(Listed(t, k)) && !Carries(old(cache), choice.victims + {key}, t, k)
    {
      if key in cache && !choice.expired {
        UntagKey(key, cache[key].tags);
      }
      DropAll(choice.victims + {key});
    }

    method Replace(key: Key, entry: Entry<V>, choice: LruChoice)
      requires Valid()
      modifies this`cache, this`tagIndex, tagIndex.Values
      ensures Valid() && View() == CacheSpec.Set(old(View()), key, entry, choice)
    {
      MakeRoom(key, choice);
      if !choice.refused {
        cache := cache[key := entry];
      }
      TagKey(key, entry.tags);
      InStoredIndex(old(Index()), old(cache), choice.victims + {key}, key, entry.tags);
      ViewIs(CacheSpec.Set(old(View()), key, entry, choice));
    }

    method Set(key: Key, value: V, tags: seq<Tag>, ifVersion: Option<string>, choice: LruChoice) returns (stored: bool)
      requires Valid()
      modifies this, tagIndex.Values
      ensures Valid()
      ensures stored <==> ifVersion.None? || ifVersion.value == VersionOf(old(tagVersions), old(epoch), tags)
      ensures View() == if stored then CacheSpec.Set(old(View()), key, Entry(value, tags), choice) else old(View())
      ensures stored && !choice.refused ==> key in cache && cache[key] == Entry(value, tags)
      ensures forall k | k != key && k !in choice.victims ::
                if k in old(cache) then k in cache && cache[k] == old(cache)[k] else k !in cache
      ensures memoCache == old(memoCache) && tagVersions == old(tagVersions) && epoch == old(epoch)
      ensures hits == old(hits) && misses == old(misses)
    {
      if ifVersion.Some? && ifVersion.value != VersionOf(tagVersions, epoch, tags) {
        return false;
      }
      Replace(key, Entry(value, tags), choice);
      return true;
    }

    /** `peek` hides an expired entry; lru-cache then disposes of the old entry itself. */
    method MakeMemoRoom(key: Key, choice: LruChoice)
      requires Valid()
      modifies this`memoCache, this`tagIndex, tagIndex.Values
      ensures Valid() && Shrunk(old(tagIndex), tagIndex)
      ensures memoCache == old(memoCache) - (choice.victims + {key})
      ensures forall t, k :: Listed(t, k) <==>
              old(Listed(t, k)) && !Carries(old(memoCache), choice.victims + {key}, t, k)
    {
      if key in memoCache && !choice.expired {
        UntagKey(key, memoCache[key].tags);
      }
      DropAllMemos(choice.victims + {key});
    }

    method ReplaceMemo(key: Key, entry: Entry<V>, choice: LruChoice)
      requires Valid()
      modifies this`memoCache, this`tagIndex, tagIndex.Values
      ensures Valid() && View() == CacheSpec.SetMemo(old(View()), key, entry, choice)
    {
      MakeMemoRoom(key, choice);
      if !choice.refused {
        memoCache := memoCache[key := entry];
      }
      TagKey(key, entry.tags);
      InStoredIndex(old(Index()), old(memoCache), choice.victims + {key}, key, entry.tags);
      ViewIs(CacheSpec.SetMemo(old(View()), key, entry, choice));
    }

    method SetMemo(key: Key, value: V, tags: seq<Tag>, ifVersion: Option<string>, choice: LruChoice)
      returns (stored: bool)
      requires Valid()
      modifies this, tagIndex.Values
      ensures Valid()
      ensures stored <==> ifVersion.None? || ifVersion.value == VersionOf(old(tagVersions), old(epoch), tags)
      ensures View() == if stored then CacheSpec.SetMemo(old(View()), key, Entry(value, tags), choice) else old(View())
      ensures stored && !choice.refused ==> key in memoCache && memoCache[key] == Entry(value, tags)
      ensures forall k | k != key && k !in choice.victims ::
                if k in old(memoCache) then k in memoCache && memoCache[k] == old(memoCache)[k] else k !in memoCache
      ensures cache == old(cache) && tagVersions == old(tagVersions) && epoch == old(epoch)
      ensures hits == old(hits) && misses == old(misses)
    {
      if ifVersion.Some? && ifVersion.value != VersionOf(tagVersions, epoch, tags) {
        return false;
      }
      ReplaceMemo(key, Entry(value, tags), choice);
      return true;
    }

    /**
     The walk deletes from the very set it is walking (each dropped entry untags itself), and the
     set may leave the index before the walk is over; it visits every key listed at the start.
     */
    method DropListed(keys: KeySet) returns (dropped: nat)
      requires Valid() && keys in tagIndex.Values
      modifies this`cache, this`memoCache, this`tagIndex, tagIndex.Values
      ensures Valid()
      ensures View() == Walked(old(View()), old(keys.Keys()))
      ensures dropped == |old(keys.Keys()) * old(cache).Keys|
    {
      ghost var s, slots := View(), keys.slots;
      dropped := WalkThrough(keys);
      WalkSlots(s, slots, |slots|);
      CountHits(slots, s.responses.Keys, |slots|);
      assert slots[..|slots|] == slots;
    }

    method WalkThrough(keys: KeySet) returns (dropped: nat)
      requires Valid() && keys.Valid()
      modifies this`cache, this`memoCache, this`tagIndex, tagIndex.Values
      ensures Valid()
      ensures View() == WalkedSlots(old(View()), old(keys.slots), |old(keys.slots)|)
      ensures dropped == Hits(old(keys.slots), old(cache).Keys, |old(keys.slots)|)
    {
      ghost var s, slots := View(), keys.slots;
      dropped := 0;
      for i := 0 to |keys.slots|
        invariant |keys.slots| == |slots| && keys.slots[i..] == slots[i..]
        invariant Valid() && Shrunk(old(tagIndex), tagIndex)
        invariant View() == WalkedSlots(s, slots, i)
        invariant dropped == Hits(slots, s.responses.Keys, i)
      {
        StillThere(s, slots, i);
        var hit := VisitKey(keys, i, slots);
        dropped := dropped + (if hit then 1 else 0);
      }
    }

    /** `keys` may have left the index by now; the slots still to be visited are as they were. */
    method VisitKey(keys: KeySet, i: nat, ghost slots: seq<Option<Key>>) returns (hit: bool)
      requires Valid() && i < |keys.slots| == |slots| && keys.slots[i..] == slots[i..] && NoTwice(slots)
      modifies this`cache, this`memoCache, this`tagIndex, tagIndex.Values
      ensures Valid() && Shrunk(old(tagIndex), tagIndex)
      ensures |keys.slots| == |slots| && keys.slots[i + 1..] == slots[i + 1..]
      ensures hit <==> slots[i].Some? && slots[i].value in old(View()).responses
      ensures View() == WalkedOne(old(View()), slots[i])
    {
      ghost var before := keys.slots;
      TailKept(before, slots, before, i);
      hit := false;
      if keys.slots[i].Some? {
        hit := DropEither(keys.slots[i].value);
        TailKept(before, slots, keys.slots, i);
      }
    }

    method PurgeTag(tag: Tag) returns (purged: nat)
      requires Valid()
      modifies this, tagIndex.Values
      ensures Valid()
      ensures View() == Purge(old(View()), tag) && purged == Purged(old(View()), tag)
      ensures hits == old(hits) && misses == old(misses)
    {
      Bump(tag);
      purged := DropAndForget(tag, old(View()));
    }

    method DropAndForget(tag: Tag, ghost s: CacheState<V>) returns (dropped: nat)
      requires Valid() && View() == Bumped(s, tag)
      modifies this`cache, this`memoCache, this`tagIndex, tagIndex.Values
      ensures Valid() && View() == Purge(s, tag) && dropped == Purged(s, tag)
    {
      dropped := DropTag(tag);
      Forget(tag);
    }

    method DropTag(tag: Tag) returns (dropped: nat)
      requires Valid()
      modifies this`cache, this`memoCache, this`tagIndex, tagIndex.Values
      ensures Valid() && View() == Walked(old(View()), Indexed(old(View()).index, tag))
      ensures dropped == Purged(old(View()), tag)
    {
      ListedUnder(tag);
      dropped := 0;
      if tag in tagIndex {
        dropped := DropListed(tagIndex[tag]);
      } else {
        WalkStart(View());
      }
    }

    method Bump(tag: Tag)
      requires Valid()
      modifies this`tagVersions
      ensures Valid() && View() == Bumped(old(View()), tag)
    {
      tagVersions := tagVersions[tag := Count(tagVersions, tag) + 1];
    }

    method Forget(tag: Tag)
      requires Valid()
      modifies this`tagIndex
      ensures Valid() && View() == Forgotten(old(View()), tag)
    {
      tagIndex := tagIndex - {tag};
      ViewIs(Forgotten(old(View()), tag));
    }

    lemma ListedUnder(tag: Tag)
      ensures Indexed(Index(), tag) == if tag in tagIndex then tagIndex[tag].Keys() else {}
    {
      forall k ensures k in Indexed(Index(), tag) <==> Listed(tag, k) {
        if Listed(tag, k) {
          assert (tag, k) in Index() && (tag, k).1 == k;
        }
      }
    }

    method ClearAll()
      requires Valid()
      modifies this
      ensures Valid() && View() == Clear(old(View()))
      ensures cache == map[] && memoCache == map[] && tagIndex == map[]
      ensures forall v, e: nat, tags | e <= old(epoch) :: VersionOf(v, e, tags) != VersionOf(tagVersions, epoch, tags)
      ensures hits == old(hits) && misses == old(misses)
    {
      forall v, e: nat, tags | e <= epoch ensures VersionOf(v, e, tags) != VersionOf(tagVersions, epoch + 1, tags) {
        ClearOutdates(View(), v, e, tags);
      }
      epoch := epoch + 1;
      cache, memoCache, tagIndex := map[], map[], map[];
    }
  }

  lemma CountStep(done: set<Key>, key: Key, responses: set<Key>)
    requires key !in done
    ensures |(done + {key}) * responses| == |done * responses| + (if key in responses then 1 else 0)
  {
    assert (done + {key}) * responses == done * responses + (if key in responses then {key} else {});
  }

  ghost function WalkedOne<V>(s: CacheState<V>, slot: Option<Key>): CacheState<V> {
    if slot.Some? then DropEither(s, slot.value) else s
  }

  ghost function WalkedSlots<V>(s: CacheState<V>, slots: seq<Option<Key>>, n: nat): CacheState<V>
    requires n <= |slots|
  {
    if n == 0 then s else WalkedOne(WalkedSlots(s, slots, n - 1), slots[n - 1])
  }

  ghost function Hits(slots: seq<Option<Key>>, responses: set<Key>, n: nat): nat
    requires n <= |slots|
  {
    if n == 0 then 0
    else Hits(slots, responses, n - 1) + (if slots[n - 1].Some? && slots[n - 1].value in responses then 1 else 0)
  }

  /** The walk over `n` slots drops their keys. */
  lemma {:induction false} WalkSlots<V>(s: CacheState<V>, slots: seq<Option<Key>>, n: nat)
    requires n <= |slots| && NoTwice(slots)
    ensures WalkedSlots(s, slots, n) == Walked(s, KeysOf(slots[..n]))
  {
    if n == 0 {
      WalkStart(s);
    } else {
      WalkSlots(s, slots, n - 1);
      VisitSlot(slots, n - 1);
      if slots[n - 1].Some? {
        WalkStep(s, KeysOf(slots[..n - 1]), slots[n - 1].value);
      }
    }
  }

  /** A key still to be visited is a response when the walk gets there just if it was one at the start. */
  lemma StillThere<V>(s: CacheState<V>, slots: seq<Option<Key>>, i: nat)
    requires i < |slots| && NoTwice(slots)
    ensures slots[i].Some? ==> (slots[i].value in WalkedSlots(s, slots, i).responses <==> slots[i].value in s.responses)
  {
    WalkSlots(s, slots, i);
    VisitSlot(slots, i);
  }

  lemma {:induction false} CountHits(slots: seq<Option<Key>>, responses: set<Key>, n: nat)
    requires n <= |slots| && NoTwice(slots)
    ensures Hits(slots, responses, n) == |KeysOf(slots[..n]) * responses|
  {
    if n > 0 {
      CountHits(slots, responses, n - 1);
      CountSlot(slots, responses, n - 1);
    }
  }

  lemma CountSlot(slots: seq<Option<Key>>, responses: set<Key>, i: nat)
    requires i < |slots| && NoTwice(slots)
    ensures |KeysOf(slots[..i + 1]) * responses| == |KeysOf(slots[..i]) * responses| +
              (if slots[i].Some? && slots[i].value in responses then 1 else 0)
  {
    VisitSlot(slots, i);
    if slots[i].Some? {
      CountStep(KeysOf(slots[..i]), slots[i].value, responses);
    }
  }

  /** The visited keys once `slot` is among them. */
  ghost function Entered(done: set<Key>, slot: Option<Key>): set<Key> {
    if slot.Some? then done + {slot.value} else done
  }

  ghost predicate NoTwice(slots: seq<Option<Key>>) {
    forall i, j | 0 <= i < j < |slots| && slots[i].Some? :: slots[i] != slots[j]
  }

  /** Emptying the slot being visited leaves the slots still to be visited as they were. */
  lemma TailKept(before: seq<Option<Key>>, start: seq<Option<Key>>, after: seq<Option<Key>>, i: nat)
    requires i < |before| == |start| && before[i..] == start[i..] && NoTwice(start)
    requires after == before || (start[i].Some? && after == Emptied(before, start[i].value))
    ensures before[i] == start[i] && |after| == |start| && after[i + 1..] == start[i + 1..]
  {
  }

  lemma VisitSlot(slots: seq<Option<Key>>, i: nat)
    requires i < |slots|
    ensures KeysOf(slots[..i + 1]) == Entered(KeysOf(slots[..i]), slots[i])
    ensures NoTwice(slots) && slots[i].Some? ==> slots[i].value !in KeysOf(slots[..i])
  {
  }
}
