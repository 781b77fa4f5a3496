/**
 Whole runs of CacheProtocol: what is stored and served in every reachable state, why the snapshot
 is taken before anything is read, and what handlers must be wired to their tables for.
 */
module CacheRuns {
  import opened CacheSpec
  import opened CacheProtocol

  ghost predicate Runs(w: Wiring, s: Sys, steps: seq<Step>, s': Sys)
    decreases |steps|
  {
    if steps == [] then s == s'
    else Enabled(w, s, steps[0]) && Runs(w, Apply(s, steps[0]), steps[1..], s')
  }

  ghost predicate Initial(s: Sys) {
    s.cache == EMPTY_CACHE && s.readers == map[] && s.writes == map[]
  }

  lemma {:induction false} RunKeeps(w: Wiring, s: Sys, steps: seq<Step>, s': Sys)
    requires Inv(w, s) && Runs(w, s, steps, s')
    ensures Inv(w, s')
    decreases |steps|
  {
    if steps != [] {
      StepKeeps(w, s, steps[0]);
      RunKeeps(w, Apply(s, steps[0]), steps[1..], s');
    }
  }

  /** No write that touched `t` still owes a purge. */
  ghost predicate Settled(s: Sys, t: Table) {
    forall id | id in s.writes && t in s.writes[id].tables :: s.writes[id].toPurge == {}
  }

  ghost predicate Stored(s: Sys, e: Entry<Body>) {
    || (exists k :: k in s.cache.responses && s.cache.responses[k] == e)
    || (exists k :: k in s.cache.memos && s.cache.memos[k] == e)
  }

  /**
   In every reachable state, whatever a stored response or memo saw of a table is current unless
   a committed write to that table has yet to purge one of the entry's own tags. So nothing
   stale is stored, and hence nothing stale served, about a table whose writers have purged.
   */
  lemma StoredIsCurrent(w: Wiring, s: Sys, steps: seq<Step>, s': Sys, e: Entry<Body>)
    requires Initial(s) && Runs(w, s, steps, s') && Stored(s', e)
    ensures forall read | read in e.value.seen :: FreshOrPending(w, s', read, e.tags)
    ensures forall read | read in e.value.seen && Settled(s', read.0) :: read.1 == Current(s', read.0)
  {
    RunKeeps(w, s, steps, s');
    assert EntryOk(w, s', e);
    forall read | read in e.value.seen && Settled(s', read.0) ensures read.1 == Current(s', read.0) {
      assert FreshOrPending(w, s', read, e.tags);
      var g :| g in e.tags && g in PurgedBy(w, read.0);
      assert !Pending(s', read.0, g);
    }
  }

  /**
   Why the snapshot matters: a handler that read a table before a write, and would store after
   the write has purged everything it owed, holds an old row that no later purge would remove.
   Its snapshot no longer holds, so the store is refused.
   */
  lemma LateStoreIsRefused(t: Table, g: Tag, key: Key)
    requires IsResponseKey(key)
    ensures var w: Wiring := map[t := {g}];
            var s0 := Sys(EMPTY_CACHE, map[], map[], map[]);
            var s1 := Apply(s0, Begin(0, false, key, [g]));
            var s2 := Apply(s1, Read(0, t));
            var s3 := Apply(s2, Commit(0, {t}, {g}));
            var s4 := Apply(s3, PurgeNext(0, g));
            && Runs(w, s0, [Begin(0, false, key, [g]), Read(0, t), Commit(0, {t}, {g}), PurgeNext(0, g)], s4)
            && Settled(s4, t)
            && (exists read | read in s4.readers[0].seen :: read.0 == t && read.1 != Current(s4, t))
            && !Holds(s4, s4.readers[0])
  {
    var w: Wiring := map[t := {g}];
    var steps := [Begin(0, false, key, [g]), Read(0, t), Commit(0, {t}, {g}), PurgeNext(0, g)];
    var s0 := Sys(EMPTY_CACHE, map[], map[], map[]);
    var s1 := Apply(s0, steps[0]);
    var s2 := Apply(s1, steps[1]);
    var s3 := Apply(s2, steps[2]);
    var s4 := Apply(s3, steps[3]);
    assert g in [g] && g in PurgedBy(w, t);
    assert Wired(w, s1.readers[0].tags, t);
    assert steps[1..][1..] == steps[2..] && steps[2..][1..] == steps[3..] && steps[3..][1..] == [];
    assert Runs(w, s3, steps[3..], s4);
    assert Runs(w, s2, steps[2..], s4);
    assert Runs(w, s1, steps[1..], s4);
    var r := s4.readers[0];
    assert (t, 0) in r.seen && Current(s4, t) == 1;
    SnapshotsAgree(r.versions, r.epoch, s4.cache.versions, s4.cache.epoch, r.tags);
    assert Count(r.versions, g) == 0 && Count(s4.cache.versions, g) == 1;
  }

  /** The reader, if it is still there, was begun before the last clear. */
  ghost predicate BegunBeforeClear(s: Sys, id: nat) {
    id in s.readers ==> s.readers[id].epoch < s.cache.epoch
  }

  lemma StaysBefore(s: Sys, step: Step, id: nat)
    requires BegunBeforeClear(s, id) && !(step.Begin? && step.id == id)
    ensures BegunBeforeClear(Apply(s, step), id)
  {
  }

  lemma NeverStores(s: Sys, id: nat)
    requires BegunBeforeClear(s, id) && id in s.readers
    ensures !Holds(s, s.readers[id]) && forall choice :: Apply(s, Finish(id, choice)).cache == s.cache
  {
    var r := s.readers[id];
    SnapshotsAgree(r.versions, r.epoch, s.cache.versions, s.cache.epoch, r.tags);
  }

  lemma {:induction false} StaysBeforeAll(w: Wiring, s: Sys, steps: seq<Step>, s': Sys, id: nat)
    requires Runs(w, s, steps, s') && BegunBeforeClear(s, id)
    requires forall step | step in steps && step.Begin? :: step.id != id
    ensures BegunBeforeClear(s', id)
    decreases |steps|
  {
    if steps != [] {
      StaysBefore(s, steps[0], id);
      StaysBeforeAll(w, Apply(s, steps[0]), steps[1..], s', id);
    }
  }

  /**
   A reader under way when the cache is cleared by hand never stores: its snapshot fails in every
   later state, and whenever it finishes it leaves the cache as it is.
   */
  lemma ClearRefusesReaders(w: Wiring, s0: Sys, before: seq<Step>, s: Sys, after: seq<Step>, s': Sys, id: nat)
    requires Initial(s0) && Runs(w, s0, before, s) && Runs(w, Apply(s, ClearByHand), after, s')
    requires id in s.readers && forall step | step in after && step.Begin? :: step.id != id
    ensures id in s'.readers ==>
              !Holds(s', s'.readers[id]) && forall choice :: Apply(s', Finish(id, choice)).cache == s'.cache
  {
    RunKeeps(w, s0, before, s);
    assert ReaderOk(w, s, s.readers[id]);
    StaysBeforeAll(w, Apply(s, ClearByHand), after, s', id);
    if id in s'.readers {
      NeverStores(s', id);
    }
  }

  /** The step purges a tag the reader's snapshot lists, clears the cache, or ends the reader. */
  ghost predicate Disturbs(step: Step, id: nat, tags: seq<Tag>) {
    match step
    case PurgeNext(_, tag) => tag in tags
    case PurgeByHand(tag) => tag in tags
    case ClearByHand => true
    case Finish(other, _) => other == id
    case Abandon(other) => other == id
    case Restart => true
    case _ => false
  }

  /** The reader is under way and no tag of its list has been purged since it was begun. */
  ghost predicate Undisturbed(s: Sys, id: nat, memo: bool, key: Key, tags: seq<Tag>) {
    && id in s.readers && s.readers[id].memo == memo && s.readers[id].key == key && s.readers[id].tags == tags
    && s.readers[id].epoch == s.cache.epoch
    && forall g | g in tags :: Count(s.readers[id].versions, g) == Count(s.cache.versions, g)
  }

  lemma StaysUndisturbed(w: Wiring, s: Sys, step: Step, id: nat, memo: bool, key: Key, tags: seq<Tag>)
    requires Undisturbed(s, id, memo, key, tags) && Enabled(w, s, step) && !Disturbs(step, id, tags)
    ensures Undisturbed(Apply(s, step), id, memo, key, tags)
  {
  }

  lemma {:induction false} StaysUndisturbedAll(w: Wiring, s: Sys, steps: seq<Step>, s': Sys, id: nat, memo: bool,
      key: Key, tags: seq<Tag>)
    requires Undisturbed(s, id, memo, key, tags) && Runs(w, s, steps, s')
    requires forall step | step in steps :: !Disturbs(step, id, tags)
    ensures Undisturbed(s', id, memo, key, tags)
    decreases |steps|
  {
    if steps != [] {
      StaysUndisturbed(w, s, steps[0], id, memo, key, tags);
      StaysUndisturbedAll(w, Apply(s, steps[0]), steps[1..], s', id, memo, key, tags);
    }
  }

  /**
   And no store is refused without need: whatever else went on since it was begun, a reader whose
   tags were not purged, in a cache that was not cleared, stores what it saw under its key and is
   done, unless lru-cache declines the entry.
   */
  lemma UndisturbedReaderStores(w: Wiring, s: Sys, id: nat, memo: bool, key: Key, tags: seq<Tag>, steps: seq<Step>,
      s': Sys, choice: LruChoice)
    requires Enabled(w, s, Begin(id, memo, key, tags)) && Runs(w, Apply(s, Begin(id, memo, key, tags)), steps, s')
    requires forall step | step in steps :: !Disturbs(step, id, tags)
    ensures id in s'.readers && id !in Apply(s', Finish(id, choice)).readers
    ensures var cache := Apply(s', Finish(id, choice)).cache;
            var store := if memo then cache.memos else cache.responses;
            !choice.refused ==> key in store && store[key] == Entry(Body(s'.readers[id].seen), tags)
  {
    StaysUndisturbedAll(w, Apply(s, Begin(id, memo, key, tags)), steps, s', id, memo, key, tags);
    var r := s'.readers[id];
    SnapshotsAgree(r.versions, r.epoch, s'.cache.versions, s'.cache.epoch, r.tags);
  }

  // ---- what the wiring is needed for ----------------------------------------------------

  const AT_START: Sys := Sys(EMPTY_CACHE, map[], map[], map[])

  const KEEP: LruChoice := LruChoice(false, false, {})

  /** The response under `key` saw the table before its last write, and the index lists its own tags only. */
  ghost predicate HoldsOld(s: Sys, t: Table, tags: seq<Tag>, key: Key) {
    && key in s.cache.responses && s.cache.responses[key] == Entry(Body({(t, 0)}), tags)
    && Current(s, t) == 1 && OwnTagsOnly(s, tags)
  }

  ghost predicate OwnTagsOnly(s: Sys, tags: seq<Tag>) {
    forall g, k | (g, k) in s.cache.index :: g in tags
  }

  /** A handler that reads a table its tags are not wired to, and then a write to that table. */
  function ReadThenWrite(w: Wiring, t: Table, tags: seq<Tag>, key: Key): Sys {
    var read := Apply(Apply(AT_START, Begin(0, false, key, tags)), Read(0, t));
    Apply(Apply(read, Finish(0, KEEP)), Commit(0, {t}, PurgedBy(w, t)))
  }

  lemma ReadThenWriteHoldsOld(w: Wiring, t: Table, tags: seq<Tag>, key: Key)
    ensures HoldsOld(ReadThenWrite(w, t, tags, key), t, tags, key)
    ensures ReadThenWrite(w, t, tags, key).writes == map[0 := Write({t}, PurgedBy(w, t))]
  {
    var read := Apply(Apply(AT_START, Begin(0, false, key, tags)), Read(0, t));
    assert read.readers[0].seen == {(t, 0)};
  }

  lemma OtherPurgeSpares(s: Sys, t: Table, tags: seq<Tag>, key: Key, g: Tag)
    requires HoldsOld(s, t, tags, key) && g !in tags && 0 in s.writes
    ensures HoldsOld(Apply(s, PurgeNext(0, g)), t, tags, key)
  {
    assert Indexed(s.cache.index, g) == {} by {
      forall k ensures k !in Indexed(s.cache.index, g) {
        assert (g, k) !in s.cache.index;
      }
    }
  }

  lemma {:induction false} PurgesSpare(w: Wiring, s: Sys, owed: set<Tag>, t: Table, tags: seq<Tag>, key: Key)
    returns (purges: seq<Step>, s': Sys)
    requires HoldsOld(s, t, tags, key) && s.writes == map[0 := Write({t}, owed)] && forall g | g in owed :: g !in tags
    ensures Runs(w, s, purges, s') && HoldsOld(s', t, tags, key) && Settled(s', t)
    decreases owed
  {
    if owed == {} {
      purges, s' := [], s;
    } else {
      var g :| g in owed;
      OtherPurgeSpares(s, t, tags, key, g);
      var rest;
      rest, s' := PurgesSpare(w, Apply(s, PurgeNext(0, g)), owed - {g}, t, tags, key);
      purges := [PurgeNext(0, g)] + rest;
      assert purges[1..] == rest;
    }
  }

  /**
   Why a handler may read only tables its tags are wired to. Whatever else is purged, a response
   that saw a table under other tags is still stored, and stale, when every purge is done.
   */
  lemma UnwiredGoesStale(w: Wiring, t: Table, tags: seq<Tag>, key: Key) returns (purges: seq<Step>, s: Sys)
    requires IsResponseKey(key) && !Wired(w, tags, t)
    ensures Runs(w, ReadThenWrite(w, t, tags, key), purges, s) && Settled(s, t)
    ensures key in s.cache.responses && s.cache.responses[key] == Entry(Body({(t, 0)}), tags) && Current(s, t) == 1
  {
    ReadThenWriteHoldsOld(w, t, tags, key);
    purges, s := PurgesSpare(w, ReadThenWrite(w, t, tags, key), PurgedBy(w, t), t, tags, key);
  }
}
