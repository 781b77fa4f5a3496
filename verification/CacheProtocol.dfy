/**
 Readers and writers around the cache, interleaved in any order and in any number.

 A reader (a cached route, or the media memo) snapshots the versions of its tags, reads tables
 one at a time and at last stores what it built if the snapshot still holds. A writer commits
 to some tables and then purges tags one at a time. Rows are represented by a version number
 per table: what a reader saw of a table is the number it saw.
 */
module CacheProtocol {
  import opened CacheSpec

  type Table = string

  /** What a response or memo was built from: the table versions its handler saw. */
  datatype Body = Body(seen: set<(Table, nat)>)

  datatype Reader = Reader(memo: bool, key: Key, tags: seq<Tag>, versions: map<Tag, nat>, epoch: nat,
      seen: set<(Table, nat)>)

  /** A committed write and the tags it has still to purge. */
  datatype Write = Write(tables: set<Table>, toPurge: set<Tag>)

  datatype Sys = Sys(cache: CacheState<Body>, db: map<Table, nat>, readers: map<nat, Reader>, writes: map<nat, Write>)

  /** The tags every writer of a table purges (`entityType` and `extraPurgeTags` of its collection). */
  type Wiring = map<Table, set<Tag>>

  datatype Step =
    | Begin(id: nat, memo: bool, key: Key, tags: seq<Tag>)
    | Read(id: nat, table: Table)
    | Finish(id: nat, choice: LruChoice)
    | Abandon(id: nat)
    | Commit(id: nat, tables: set<Table>, toPurge: set<Tag>)
    | PurgeNext(id: nat, tag: Tag)
    | PurgeByHand(tag: Tag)
    | Lapse(key: Key)
    | LapseMemo(key: Key)
    | ClearByHand
    | Restart

  function Current(s: Sys, t: Table): nat {
    if t in s.db then s.db[t] else 0
  }

  function PurgedBy(w: Wiring, t: Table): set<Tag> {
    if t in w then w[t] else {}
  }

  /**
   What keeping tags in step with tables takes: something the handler is stored under is purged by
   writers of `t`. The code leaves this to its authors; at boot it checks only that every tag
   served has some purger.
   */
  ghost predicate Wired(w: Wiring, tags: seq<Tag>, t: Table) {
    exists g :: g in tags && g in PurgedBy(w, t)
  }

  const EMPTY_CACHE: CacheState<Body> := CacheState(map[], map[], {}, map[], 0)

  predicate Holds(s: Sys, r: Reader) {
    VersionOf(r.versions, r.epoch, r.tags) == VersionOf(s.cache.versions, s.cache.epoch, r.tags)
  }

  ghost predicate Enabled(w: Wiring, s: Sys, step: Step) {
    match step
    case Begin(id, memo, key, _) => id !in s.readers && (if memo then IsMemoKey(key) else IsResponseKey(key))
    case Read(id, table) => id in s.readers && Wired(w, s.readers[id].tags, table)
    case Finish(id, _) => id in s.readers
    case Abandon(id) => id in s.readers
    case Commit(id, tables, toPurge) => id !in s.writes && forall t | t in tables :: PurgedBy(w, t) <= toPurge
    case PurgeNext(id, tag) => id in s.writes && tag in s.writes[id].toPurge
    case _ => true
  }

  function Apply(s: Sys, step: Step): Sys {
    match step
    case Begin(id, memo, key, tags) =>
      s.(readers := s.readers[id := Reader(memo, key, tags, s.cache.versions, s.cache.epoch, {})])
    case Read(id, table) =>
      if id !in s.readers then s else
      var r := s.readers[id];
      s.(readers := s.readers[id := r.(seen := r.seen + {(table, Current(s, table))})])
    case Finish(id, choice) =>
      if id !in s.readers then s else
      var r := s.readers[id];
      var entry := Entry(Body(r.seen), r.tags);
      s.(cache := StoreIfCurrent(s.cache, r.memo, r.key, entry, VersionOf(r.versions, r.epoch, r.tags), choice),
        readers := s.readers - {id})
    case Abandon(id) => s.(readers := s.readers - {id})
    case Commit(id, tables, toPurge) =>
      s.(db := (map t | t in s.db.Keys + tables :: if t in tables then Current(s, t) + 1 else Current(s, t)),
         writes := s.writes[id := Write(tables, toPurge)])
    case PurgeNext(id, tag) =>
      if id !in s.writes then s else
      s.(cache := Purge(s.cache, tag),
         writes := s.writes[id := s.writes[id].(toPurge := s.writes[id].toPurge - {tag})])
    case PurgeByHand(tag) => s.(cache := Purge(s.cache, tag))
    case Lapse(key) => s.(cache := Expire(s.cache, key))
    case LapseMemo(key) => s.(cache := ExpireMemo(s.cache, key))
    case ClearByHand => s.(cache := Clear(s.cache))
    case Restart => s.(cache := EMPTY_CACHE, readers := map[], writes := map[])
  }

  // ---- the invariant --------------------------------------------------------------------

  /** A committed write to `t` has not purged `g` yet. */
  ghost predicate Pending(s: Sys, t: Table, g: Tag) {
    exists id :: id in s.writes && t in s.writes[id].tables && g in s.writes[id].toPurge
  }

  ghost predicate FreshOrPending(w: Wiring, s: Sys, read: (Table, nat), tags: seq<Tag>) {
    && Wired(w, tags, read.0)
    && (read.1 == Current(s, read.0) ||
        forall g | g in tags && g in PurgedBy(w, read.0) :: Pending(s, read.0, g))
  }

  ghost predicate EntryOk(w: Wiring, s: Sys, e: Entry<Body>) {
    forall read | read in e.value.seen :: FreshOrPending(w, s, read, e.tags)
  }

  ghost predicate Outdated(s: Sys, r: Reader, g: Tag) {
    Count(s.cache.versions, g) > Count(r.versions, g) || s.cache.epoch > r.epoch
  }

  ghost predicate ReadOk(w: Wiring, s: Sys, r: Reader, read: (Table, nat)) {
    && Wired(w, r.tags, read.0)
    && (read.1 == Current(s, read.0) ||
        forall g | g in r.tags && g in PurgedBy(w, read.0) :: Pending(s, read.0, g) || Outdated(s, r, g))
  }

  ghost predicate ReaderOk(w: Wiring, s: Sys, r: Reader) {
    && (if r.memo then IsMemoKey(r.key) else IsResponseKey(r.key))
    && r.epoch <= s.cache.epoch
    && (forall g :: Count(r.versions, g) <= Count(s.cache.versions, g))
    && (forall read | read in r.seen :: ReadOk(w, s, r, read))
  }

  ghost predicate EntriesOk(w: Wiring, s: Sys) {
    && (forall k | k in s.cache.responses :: EntryOk(w, s, s.cache.responses[k]))
    && (forall k | k in s.cache.memos :: EntryOk(w, s, s.cache.memos[k]))
  }

  ghost predicate ReadersOk(w: Wiring, s: Sys) {
    forall id | id in s.readers :: ReaderOk(w, s, s.readers[id])
  }

  ghost predicate Inv(w: Wiring, s: Sys) {
    Coherent(s.cache) && EntriesOk(w, s) && ReadersOk(w, s)
  }

  // ---- preservation, step by step -------------------------------------------------------

  /** A snapshot that still holds has no outdated tag: what the reader built may be stored. */
  lemma HoldingReaderIsStorable(w: Wiring, s: Sys, r: Reader)
    requires ReaderOk(w, s, r) && Holds(s, r)
    ensures EntryOk(w, s, Entry(Body(r.seen), r.tags))
  {
    SnapshotsAgree(r.versions, r.epoch, s.cache.versions, s.cache.epoch, r.tags);
    forall read | read in r.seen ensures FreshOrPending(w, s, read, r.tags) {
      assert ReadOk(w, s, r, read);
    }
  }

  lemma FinishKeeps(w: Wiring, s: Sys, id: nat, choice: LruChoice)
    requires Inv(w, s) && id in s.readers
    ensures Inv(w, Apply(s, Finish(id, choice)))
  {
    var r := s.readers[id];
    var s' := Apply(s, Finish(id, choice));
    if Holds(s, r) {
      HoldingReaderIsStorable(w, s, r);
      StoringKeepsCoherent(s.cache, r.key, Entry(Body(r.seen), r.tags), choice);
    }
    SameDatabase(w, s, s');
  }

  /** What only depends on the database and the pending writes carries over to a later state. */
  lemma SameDatabase(w: Wiring, s: Sys, s': Sys)
    requires s'.db == s.db && s'.writes == s.writes
    ensures forall e: Entry<Body> :: EntryOk(w, s, e) <==> EntryOk(w, s', e)
    ensures s'.cache.epoch >= s.cache.epoch && (forall g :: Count(s.cache.versions, g) <= Count(s'.cache.versions, g))
            ==> forall r: Reader :: ReaderOk(w, s, r) ==> ReaderOk(w, s', r)
  {
  }

  lemma CommitKeeps(w: Wiring, s: Sys, id: nat, tables: set<Table>, toPurge: set<Tag>)
    requires Inv(w, s) && Enabled(w, s, Commit(id, tables, toPurge))
    ensures Inv(w, Apply(s, Commit(id, tables, toPurge)))
  {
    var s' := Apply(s, Commit(id, tables, toPurge));
    forall t, g | Pending(s, t, g) ensures Pending(s', t, g) {
      var i :| i in s.writes && t in s.writes[i].tables && g in s.writes[i].toPurge;
      assert i in s'.writes && s'.writes[i] == s.writes[i];
    }
    forall t, g | t in tables && g in PurgedBy(w, t) ensures Pending(s', t, g) {
      assert id in s'.writes && s'.writes[id] == Write(tables, toPurge);
    }
    forall t ensures t !in tables ==> Current(s', t) == Current(s, t) {}
    forall read, tags | FreshOrPending(w, s, read, tags) ensures FreshOrPending(w, s', read, tags) {}
    forall e: Entry<Body> | EntryOk(w, s, e) ensures EntryOk(w, s', e) {}
    forall i | i in s'.readers ensures ReaderOk(w, s', s'.readers[i]) {
      var r := s.readers[i];
      forall read | read in r.seen ensures ReadOk(w, s', r, read) {
        assert ReadOk(w, s, r, read);
        forall g | Outdated(s, r, g) ensures Outdated(s', r, g) {}
      }
    }
  }

  lemma PurgeLeavesUntagged(cache: CacheState<Body>, tag: Tag)
    requires Coherent(cache)
    ensures Coherent(Purge(cache, tag))
    ensures forall k | k in Purge(cache, tag).responses :: k in cache.responses && tag !in cache.responses[k].tags
    ensures forall k | k in Purge(cache, tag).memos :: k in cache.memos && tag !in cache.memos[k].tags
  {
    RemovingKeepsCoherent(cache, "", tag);
    PurgeIsScan(cache, tag);
  }

  /** A purge settles what the write owed under that tag: stored entries go, readers are outdated. */
  lemma PurgeNextKeeps(w: Wiring, s: Sys, id: nat, tag: Tag)
    requires Inv(w, s) && Enabled(w, s, PurgeNext(id, tag))
    ensures Inv(w, Apply(s, PurgeNext(id, tag)))
  {
    var s' := Apply(s, PurgeNext(id, tag));
    PurgeLeavesUntagged(s.cache, tag);
    assert Owed(s, s', tag) by {
      forall t, g | Pending(s, t, g) && g != tag ensures Pending(s', t, g) {
        var i :| i in s.writes && t in s.writes[i].tables && g in s.writes[i].toPurge;
        assert i in s'.writes && t in s'.writes[i].tables && g in s'.writes[i].toPurge;
      }
    }
    forall k | k in s'.cache.responses ensures EntryOk(w, s', s'.cache.responses[k]) {
      EntrySurvivesPurge(w, s, s', s.cache.responses[k], tag);
    }
    forall k | k in s'.cache.memos ensures EntryOk(w, s', s'.cache.memos[k]) {
      EntrySurvivesPurge(w, s, s', s.cache.memos[k], tag);
    }
    forall i | i in s'.readers ensures ReaderOk(w, s', s'.readers[i]) {
      ReaderSurvivesPurge(w, s, s', s.readers[i], tag);
    }
  }

  /** Only purges of `tag` were settled, and nothing was committed. */
  ghost predicate Owed(s: Sys, s': Sys, tag: Tag) {
    s'.db == s.db && forall t, g | Pending(s, t, g) && g != tag :: Pending(s', t, g)
  }

  lemma EntrySurvivesPurge(w: Wiring, s: Sys, s': Sys, e: Entry<Body>, tag: Tag)
    requires Owed(s, s', tag) && EntryOk(w, s, e) && tag !in e.tags
    ensures EntryOk(w, s', e)
  {
  }

  lemma ReaderSurvivesPurge(w: Wiring, s: Sys, s': Sys, r: Reader, tag: Tag)
    requires Owed(s, s', tag) && ReaderOk(w, s, r)
    requires s'.cache.epoch == s.cache.epoch
    requires s'.cache.versions == s.cache.versions[tag := Count(s.cache.versions, tag) + 1]
    ensures ReaderOk(w, s', r)
  {
  }

  /** Dropping entries, for whatever reason, makes none of those that stay any older. */
  lemma RemovalKeeps(w: Wiring, s: Sys, cache: CacheState<Body>)
    requires Inv(w, s) && Coherent(cache)
    requires forall k | k in cache.responses :: k in s.cache.responses && cache.responses[k] == s.cache.responses[k]
    requires forall k | k in cache.memos :: k in s.cache.memos && cache.memos[k] == s.cache.memos[k]
    requires cache.epoch >= s.cache.epoch && forall g :: Count(s.cache.versions, g) <= Count(cache.versions, g)
    ensures Inv(w, s.(cache := cache))
  {
    SameDatabase(w, s, s.(cache := cache));
  }

  lemma ReadKeeps(w: Wiring, s: Sys, id: nat, table: Table)
    requires Inv(w, s) && Enabled(w, s, Read(id, table))
    ensures Inv(w, Apply(s, Read(id, table)))
  {
    var s' := Apply(s, Read(id, table));
    SameDatabase(w, s, s');
    var r := s'.readers[id];
    forall read | read in r.seen ensures ReadOk(w, s', r, read) {
      if read in s.readers[id].seen {
        assert ReadOk(w, s, s.readers[id], read);
        forall g | Outdated(s, s.readers[id], g) ensures Outdated(s', r, g) {}
      }
    }
  }

  lemma DroppingKeeps(w: Wiring, s: Sys, step: Step)
    requires Inv(w, s) && Enabled(w, s, step)
    requires step.PurgeByHand? || step.Lapse? || step.LapseMemo? || step.ClearByHand?
    ensures Inv(w, Apply(s, step))
  {
    var key := if step.Lapse? || step.LapseMemo? then step.key else "";
    RemovingKeepsCoherent(s.cache, key, if step.PurgeByHand? then step.tag else "");
    RemovalKeeps(w, s, Apply(s, step).cache);
  }

  lemma StepKeeps(w: Wiring, s: Sys, step: Step)
    requires Inv(w, s) && Enabled(w, s, step)
    ensures Inv(w, Apply(s, step))
  {
    match step
    case Begin(_, _, _, _) => SameDatabase(w, s, Apply(s, step));
    case Read(id, table) => ReadKeeps(w, s, id, table);
    case Finish(id, choice) => FinishKeeps(w, s, id, choice);
    case Abandon(_) => SameDatabase(w, s, Apply(s, step));
    case Commit(id, tables, toPurge) => CommitKeeps(w, s, id, tables, toPurge);
    case PurgeNext(id, tag) => PurgeNextKeeps(w, s, id, tag);
    case Restart =>
    case _ => DroppingKeeps(w, s, step);
  }
}
