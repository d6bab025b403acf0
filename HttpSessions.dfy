/**
 * HazelcastHttpSession: the per-request view of one clustered session. It
 * keeps a local cache of attribute entries and decides, per operation, whether
 * the distributed map is touched now (write-through) or only when the request
 * ends (deferred write). Names in the transient set are meant never to reach
 * the map; getAttribute's remote read (HazelcastHttpSession.java:121) lets a
 * transient name through, which AsWrittenFetchLeaksTransient exhibits.
 */
module HttpSessions {
  import opened Wrappers
  import opened EntryProcessors
  import opened SessionService

  /**
   * One cached attribute. `value` None is Java's null; `dirty` marks a local
   * change the map has not seen; `removed` a local removal; `reload` a clean
   * entry to be fetched again; `transient` a name that is never sent.
   */
  datatype LocalCacheEntry = LocalCacheEntry(value: Option<Blob>, dirty: bool, removed: bool, reload: bool, transient: bool)

  /** The (transient) constructor: no value, all flags clear. */
  function NewEntry(transient: bool): LocalCacheEntry {
    LocalCacheEntry(None, false, false, false, transient)
  }

  /** The (transient, value) constructor: that value, all flags clear. */
  function NewEntryWithValue(transient: bool, value: Option<Blob>): LocalCacheEntry {
    LocalCacheEntry(value, false, false, false, transient)
  }

  type Cache = map<string, LocalCacheEntry>

  /**
   * The cache invariant: an entry is transient exactly when its name is in the
   * transient set, and only a clean entry is marked for reload.
   */
  ghost predicate WellFormed(cache: Cache, transients: set<string>) {
    forall k | k in cache :: cache[k].transient == (k in transients) && (cache[k].reload ==> !cache[k].dirty)
  }

  /** What getAttribute answers from an entry: null without an entry or for a removed one. */
  function CachedValue(e: Option<LocalCacheEntry>): (r: Option<Blob>)
    ensures r.Some? ==> e.Some? && !e.value.removed && e.value.value == r
  {
    if e.None? || e.value.removed then None else e.value.value
  }

  /** The entry for n, None without one (NULL_ENTRY is absence here). */
  function Entry(cache: Cache, n: string): Option<LocalCacheEntry> {
    if n in cache then Some(cache[n]) else None
  }

  /** The local part of setAttribute(n, v): the existing entry (or a new one) takes v, dirty, not removed, not reloading. */
  function SetEntry(cache: Cache, n: string, v: Blob, transient: bool): Cache {
    var e := if n in cache then cache[n] else NewEntry(transient);
    cache[n := e.(value := Some(v), dirty := true, removed := false, reload := false)]
  }

  /** The local part of removeAttribute(n): an existing entry is emptied and marked removed and dirty; none is created. */
  function RemovedEntry(cache: Cache, n: string): Cache {
    if n in cache then cache[n := cache[n].(value := None, removed := true, dirty := true, reload := false)] else cache
  }

  /** A successful write-through clears the entry's dirty flag. */
  function Cleaned(cache: Cache, n: string): Cache {
    if n in cache then cache[n := cache[n].(dirty := false)] else cache
  }

  /** getAttribute after a successful remote read, as the source writes it: the new entry is never transient. */
  function FetchedAsWritten(cache: Cache, n: string, v: Option<Blob>): Cache {
    cache[n := NewEntryWithValue(false, v)]
  }

  /** getAttribute after a successful remote read, keeping the name's transient status. */
  function Fetched(cache: Cache, n: string, transients: set<string>, v: Option<Blob>): Cache {
    cache[n := NewEntryWithValue(n in transients, v)]
  }

  /** The batch sessionDeferredWrite sends: every dirty non-transient entry, null for a removed one. */
  function Batch(cache: Cache): map<string, Option<Blob>> {
    map k | k in cache && cache[k].dirty && !cache[k].transient :: if cache[k].removed then None else cache[k].value
  }

  /** The cache after sessionDeferredWrite: the batched entries are clean, the others as they were. */
  function Flushed(cache: Cache): Cache {
    map k | k in cache :: if cache[k].dirty && !cache[k].transient then cache[k].(dirty := false) else cache[k]
  }

  /** updateReloadFlag: every clean entry is marked for reload and every dirty one left as it is. */
  function WithReload(cache: Cache): (r: Cache)
    ensures r.Keys == cache.Keys
    ensures forall k | k in cache :: r[k].reload == (cache[k].reload || !cache[k].dirty)
    ensures forall k | k in cache :: r[k].(reload := cache[k].reload) == cache[k]
  {
    map k | k in cache :: if cache[k].dirty then cache[k] else cache[k].(reload := true)
  }

  /** The names the cache alone can list: entries neither removed nor null. */
  function LocalNames(cache: Cache): set<string> {
    set k | k in cache && !cache[k].removed && cache[k].value.Some?
  }

  /** Whether some entry is dirty, transient entries included. */
  predicate Changed(cache: Cache) {
    exists k | k in cache :: cache[k].dirty
  }

  /** The cache buildLocalCache makes from a stored record: one clean entry per stored attribute. */
  function Built(rec: Record, transients: set<string>): Cache {
    map k | k in rec :: NewEntry(k in transients).(value := Some(rec[k]), dirty := false)
  }

  /** After setAttribute's local part the entry holds v, is dirty, not removed and not reloading; other names are untouched. */
  lemma SetEntryHolds(cache: Cache, n: string, v: Blob, transient: bool)
    ensures n in SetEntry(cache, n, v, transient)
    ensures SetEntry(cache, n, v, transient)[n].value == Some(v)
    ensures SetEntry(cache, n, v, transient)[n].dirty && !SetEntry(cache, n, v, transient)[n].removed && !SetEntry(cache, n, v, transient)[n].reload
    ensures forall k | k != n :: Entry(SetEntry(cache, n, v, transient), k) == Entry(cache, k)
  {
  }

  /** removeAttribute never creates an entry, and an existing one answers null afterwards. */
  lemma RemovedEntryHolds(cache: Cache, n: string)
    ensures RemovedEntry(cache, n).Keys == cache.Keys
    ensures CachedValue(Entry(RemovedEntry(cache, n), n)) == None
    ensures n in cache ==> RemovedEntry(cache, n)[n].removed && RemovedEntry(cache, n)[n].dirty && !RemovedEntry(cache, n)[n].reload
    ensures forall k | k != n :: Entry(RemovedEntry(cache, n), k) == Entry(cache, k)
  {
  }

  /** A set followed by a remove of the same name in one request leaves that name out of the listed names. */
  lemma SetThenRemoveHidesName(cache: Cache, n: string, v: Blob, transient: bool)
    ensures LocalNames(RemovedEntry(SetEntry(cache, n, v, transient), n)) == LocalNames(cache) - {n}
    ensures LocalNames(RemovedEntry(Cleaned(SetEntry(cache, n, v, transient), n), n)) == LocalNames(cache) - {n}
  {
    var c1 := RemovedEntry(SetEntry(cache, n, v, transient), n);
    assert forall k | k != n :: Entry(c1, k) == Entry(cache, k);
    var c2 := RemovedEntry(Cleaned(SetEntry(cache, n, v, transient), n), n);
    assert forall k | k != n :: Entry(c2, k) == Entry(cache, k);
  }

  /** Under the cache invariant no transient name is ever in the deferred batch. */
  lemma TransientNeverBatched(cache: Cache, transients: set<string>)
    requires WellFormed(cache, transients)
    ensures forall k | k in Batch(cache) :: k !in transients
  {
  }

  /** setAttribute keeps the cache invariant, with or without the write-through. */
  lemma SetKeepsWellFormed(cache: Cache, transients: set<string>, n: string, v: Blob)
    requires WellFormed(cache, transients)
    ensures WellFormed(SetEntry(cache, n, v, n in transients), transients)
    ensures WellFormed(Cleaned(SetEntry(cache, n, v, n in transients), n), transients)
  {
  }

  /** removeAttribute keeps the cache invariant, with or without the remote delete. */
  lemma RemoveKeepsWellFormed(cache: Cache, transients: set<string>, n: string)
    requires WellFormed(cache, transients)
    ensures WellFormed(RemovedEntry(cache, n), transients)
    ensures WellFormed(Cleaned(RemovedEntry(cache, n), n), transients)
  {
  }

  /** getAttribute, in its corrected form, keeps the cache invariant. */
  lemma FetchKeepsWellFormed(cache: Cache, transients: set<string>, n: string, v: Option<Blob>)
    requires WellFormed(cache, transients)
    ensures WellFormed(Fetched(cache, n, transients, v), transients)
  {
  }

  /**
   * The read as written agrees with the corrected one exactly on the names
   * outside the transient set: it keeps the invariant for those and breaks
   * it for every transient name.
   */
  lemma FetchedAsWrittenAgrees(cache: Cache, transients: set<string>, n: string, v: Option<Blob>)
    requires WellFormed(cache, transients)
    ensures FetchedAsWritten(cache, n, v) == Fetched(cache, n, transients, v) <==> n !in transients
    ensures WellFormed(FetchedAsWritten(cache, n, v), transients) <==> n !in transients
  {
    if n in transients {
      assert FetchedAsWritten(cache, n, v)[n] != Fetched(cache, n, transients, v)[n];
    } else {
      FetchKeepsWellFormed(cache, transients, n, v);
    }
  }

  /** sessionDeferredWrite and updateReloadFlag keep the cache invariant. */
  lemma FlushAndReloadKeepWellFormed(cache: Cache, transients: set<string>)
    requires WellFormed(cache, transients)
    ensures WellFormed(Flushed(cache), transients)
    ensures WellFormed(WithReload(cache), transients)
  {
  }

  /** Setting a name adds it to the batch, unless it is transient. */
  lemma BatchAfterSet(cache: Cache, n: string, v: Blob, transient: bool)
    requires n in cache ==> cache[n].transient == transient
    ensures Batch(SetEntry(cache, n, v, transient)) == if transient then Batch(cache) else Batch(cache) + map[n := Some(v)]
  {
    var c := SetEntry(cache, n, v, transient);
    var b := if transient then Batch(cache) else Batch(cache) + map[n := Some(v)];
    assert forall k | k != n :: Entry(c, k) == Entry(cache, k);
    assert forall k :: k in Batch(c) <==> k in b;
    assert forall k | k in b :: Batch(c)[k] == b[k];
  }

  /** Removing a cached non-transient name adds a null for it to the batch; otherwise the batch is unchanged. */
  lemma BatchAfterRemove(cache: Cache, n: string)
    ensures Batch(RemovedEntry(cache, n)) == if n in cache && !cache[n].transient then Batch(cache) + map[n := None] else Batch(cache)
  {
    var c := RemovedEntry(cache, n);
    var b := if n in cache && !cache[n].transient then Batch(cache) + map[n := None] else Batch(cache);
    assert forall k | k != n :: Entry(c, k) == Entry(cache, k);
    assert forall k :: k in Batch(c) <==> k in b;
    assert forall k | k in b :: Batch(c)[k] == b[k];
  }

  /** Replacing a clean or missing entry by a fetched one leaves the batch as it was. */
  lemma BatchAfterFetch(cache: Cache, n: string, transients: set<string>, v: Option<Blob>)
    requires n !in cache || !cache[n].dirty
    ensures Batch(Fetched(cache, n, transients, v)) == Batch(cache)
  {
    var c := Fetched(cache, n, transients, v);
    assert forall k | k != n :: Entry(c, k) == Entry(cache, k);
    assert forall k :: k in Batch(c) <==> k in Batch(cache);
  }

  /** Neither marking for reload nor flushing adds anything to send; after a flush nothing is left. */
  lemma BatchAfterReloadAndFlush(cache: Cache)
    ensures Batch(WithReload(cache)) == Batch(cache)
    ensures Batch(Flushed(cache)) == map[]
  {
    assert forall k :: k in Batch(WithReload(cache)) <==> k in Batch(cache);
    assert forall k :: k !in Batch(Flushed(cache));
  }

  /** A freshly built cache satisfies the invariant and has nothing to send. */
  lemma BuiltIsClean(rec: Record, transients: set<string>)
    ensures WellFormed(Built(rec, transients), transients)
    ensures Built(rec, transients).Keys == rec.Keys
    ensures Batch(Built(rec, transients)) == map[]
    ensures !Changed(Built(rec, transients))
  {
  }

  /**
   * The as-written getAttribute loses the transient flag: reading a transient
   * name that is not cached, then setting it in deferred mode, puts it in the
   * batch sent to the map.
   */
  lemma AsWrittenFetchLeaksTransient(v: Blob)
    ensures !WellFormed(FetchedAsWritten(map[], "t", None), {"t"})
    ensures "t" in Batch(SetEntry(FetchedAsWritten(map[], "t", None), "t", v, true))
  {
    var c := SetEntry(FetchedAsWritten(map[], "t", None), "t", v, true);
    assert c["t"] == LocalLeak(v);
  }

  /** The entry the as-written sequence leaves for the transient name: dirty and not transient. */
  function LocalLeak(v: Blob): LocalCacheEntry {
    LocalCacheEntry(Some(v), true, false, false, false)
  }

  /**
   * The deferred cache tracks the write-through record: the record the map
   * held when the cache was built (rec0), updated by the batch the cache would
   * send now, is the record write-through would have left (recNow).
   */
  ghost predicate Tracks(cache: Cache, transients: set<string>, rec0: Record, recNow: Record) {
    && WellFormed(cache, transients)
    && recNow.Keys <= cache.Keys
    && (forall k | k in recNow :: k !in transients)
    && ApplyUpdates(rec0, Batch(cache)) == recNow
  }

  lemma BuiltTracks(rec0: Record, transients: set<string>)
    requires forall k | k in rec0 :: k !in transients
    ensures Tracks(Built(rec0, transients), transients, rec0, rec0)
  {
    BuiltIsClean(rec0, transients);
    assert ApplyUpdates(rec0, map[]) == rec0;
  }

  /** setAttribute: deferred, the batch gains the value; write-through, the map takes it at once (transient names: neither). */
  lemma SetTracks(cache: Cache, transients: set<string>, rec0: Record, recNow: Record, n: string, v: Blob)
    requires Tracks(cache, transients, rec0, recNow)
    ensures Tracks(SetEntry(cache, n, v, n in transients), transients, rec0,
                   if n in transients then recNow else ApplyUpdates(recNow, map[n := Some(v)]))
  {
    SetKeepsWellFormed(cache, transients, n, v);
    BatchAfterSet(cache, n, v, n in transients);
    if n !in transients {
      UpdatesCompose(rec0, Batch(cache), map[n := Some(v)]);
    }
  }

  /** removeAttribute: deferred, the batch gains a null; write-through, the map deletes the name. */
  lemma RemoveTracks(cache: Cache, transients: set<string>, rec0: Record, recNow: Record, n: string)
    requires Tracks(cache, transients, rec0, recNow)
    ensures Tracks(RemovedEntry(cache, n), transients, rec0, ApplyUpdates(recNow, map[n := None]))
  {
    RemoveKeepsWellFormed(cache, transients, n);
    BatchAfterRemove(cache, n);
    if n in cache && !cache[n].transient {
      UpdatesCompose(rec0, Batch(cache), map[n := None]);
    } else {
      assert n !in recNow;
      assert ApplyUpdates(recNow, map[n := None]) == recNow;
    }
  }

  /**
   * getAttribute's remote read only happens for a missing entry or one marked
   * for reload, so the batch does not change. The corrected read keeps the
   * cache in step for every name; the read as written does so for the names
   * outside the transient set, and for a transient name it breaks the cache
   * invariant (see AsWrittenFetchLeaksTransient).
   */
  lemma FetchTracks(cache: Cache, transients: set<string>, rec0: Record, recNow: Record, n: string, v: Option<Blob>)
    requires Tracks(cache, transients, rec0, recNow)
    requires n !in cache || cache[n].reload
    ensures Tracks(Fetched(cache, n, transients, v), transients, rec0, recNow)
    ensures Tracks(FetchedAsWritten(cache, n, v), transients, rec0, recNow) <==> n !in transients
  {
    FetchKeepsWellFormed(cache, transients, n, v);
    BatchAfterFetch(cache, n, transients, v);
    FetchedAsWrittenAgrees(cache, transients, n, v);
  }

  /** Marking clean entries for reload changes no batch. */
  lemma ReloadTracks(cache: Cache, transients: set<string>, rec0: Record, recNow: Record)
    requires Tracks(cache, transients, rec0, recNow)
    ensures Tracks(WithReload(cache), transients, rec0, recNow)
  {
    FlushAndReloadKeepWellFormed(cache, transients);
    BatchAfterReloadAndFlush(cache);
  }

  /**
   * The deferred write at the end of the request brings the map to the
   * record write-through would have produced, and the flushed cache then
   * tracks that record with nothing left to send.
   */
  lemma FlushReaches(cache: Cache, transients: set<string>, rec0: Record, recNow: Record)
    requires Tracks(cache, transients, rec0, recNow)
    ensures Batch(Flushed(cache)) == map[]
    ensures Tracks(Flushed(cache), transients, recNow, recNow)
  {
    FlushAndReloadKeepWellFormed(cache, transients);
    BatchAfterReloadAndFlush(cache);
    assert ApplyUpdates(recNow, map[]) == recNow;
  }

  /**
   * The container's own session, of which only the id and isNew are used
   * here. The id is a variable: changeSessionId renames the session in place.
   */
  class ContainerSession {
    var id: string
    var isNew: bool

    constructor (id: string, isNew: bool)
      ensures this.id == id && this.isNew == isNew
    {
      this.id := id;
      this.isNew := isNew;
    }
  }

  class HazelcastHttpSession {
    const id: string
    const originalSession: ContainerSession
    const stickySession: bool
    const deferredWrite: bool
    const transientAttributes: set<string>
    /** The filter's ClusteredSessionService. */
    const svc: ClusteredSessionService
    var valid: bool
    var localCache: Cache
    /** True until a remote call succeeds: the map's idle timer still needs a touch. */
    var needNotify: bool
    var clusterWideNew: bool
    var invalidatedOriginalSessionId: Option<string>

    ghost predicate Valid()
      reads this
    {
      WellFormed(localCache, transientAttributes)
    }

    /**
     * Builds the local cache from the stored record: one clean entry per
     * stored attribute. When the read fails the cache stays empty and
     * needNotify stays set.
     */
    constructor (svc: ClusteredSessionService, id: string, originalSession: ContainerSession,
                 deferredWrite: bool, stickySession: bool, transientAttributes: set<string>, ok: bool)
      ensures Valid()
      ensures this.svc == svc && this.id == id && this.originalSession == originalSession
      ensures this.deferredWrite == deferredWrite && this.stickySession == stickySession
      ensures this.transientAttributes == transientAttributes
      ensures valid && !clusterWideNew && invalidatedOriginalSessionId == None
      ensures !IsNew()
      ensures needNotify == !(svc.hasInstance && ok)
      ensures localCache == (if svc.hasInstance && ok then Built(Lookup(svc.clusterMap, id).GetOr(map[]), transientAttributes) else map[])
    {
      var cache: Cache := map[];
      var notify := true;
      var fetched := svc.GetAttributes(id, ok);
      if fetched.Done? {
        notify := false;
        if fetched.value.Some? {
          var entrySet := fetched.value.value;
          var remaining := entrySet.Keys;
          while remaining != {}
            invariant remaining <= entrySet.Keys
            invariant forall k | k in entrySet :: (k in cache <==> k !in remaining)
            invariant forall k | k in cache :: k in entrySet && cache[k] == NewEntry(k in transientAttributes).(value := Some(entrySet[k]))
            decreases remaining
          {
            var attributeKey :| attributeKey in remaining;
            // The stored names are distinct, so no entry exists yet and a new one is made.
            var cacheEntry := NewEntry(attributeKey in transientAttributes);
            cache := cache[attributeKey := cacheEntry.(value := Some(entrySet[attributeKey]), dirty := false)];
            remaining := remaining - {attributeKey};
          }
          assert cache == Built(entrySet, transientAttributes);
        } else {
          assert Built(map[], transientAttributes) == map[];
        }
      }
      this.svc := svc;
      this.id := id;
      this.originalSession := originalSession;
      this.deferredWrite := deferredWrite;
      this.stickySession := stickySession;
      this.transientAttributes := transientAttributes;
      valid := true;
      localCache := cache;
      needNotify := notify;
      clusterWideNew := false;
      invalidatedOriginalSessionId := None;
    }

    /**
     * New only when the container session is new and this process created the
     * session in the cluster: a session read from the cluster is never new.
     */
    predicate IsNew()
      reads this, originalSession
      ensures IsNew() ==> clusterWideNew && originalSession.isNew
    {
      originalSession.isNew && clusterWideNew
    }

    method SetClusterWideNew(b: bool)
      modifies this
      ensures clusterWideNew == b
      ensures valid == old(valid) && localCache == old(localCache) && needNotify == old(needNotify)
      ensures invalidatedOriginalSessionId == old(invalidatedOriginalSessionId)
    {
      clusterWideNew := b;
    }

    /**
     * removeAttribute: marks an existing entry removed and, unless writes are
     * deferred, deletes the name in the map (transient names included); a
     * successful delete clears the entry's dirty flag.
     */
    method RemoveAttribute(name: string, ok: bool)
      modifies this, svc
      ensures old(Valid()) ==> Valid()
      ensures var wrote := !deferredWrite && old(svc.hasInstance) && ok;
        && localCache == (if wrote then Cleaned(RemovedEntry(old(localCache), name), name) else RemovedEntry(old(localCache), name))
        && svc.clusterMap == (if wrote then Updated(old(svc.clusterMap), id, map[name := None]) else old(svc.clusterMap))
        && needNotify == (if wrote then false else old(needNotify))
      ensures valid == old(valid) && clusterWideNew == old(clusterWideNew)
      ensures invalidatedOriginalSessionId == old(invalidatedOriginalSessionId)
      ensures svc.Connection() == old(svc.Connection()) && svc.orphanSessions == old(svc.orphanSessions)
    {
      if Valid() {
        RemoveKeepsWellFormed(localCache, transientAttributes, name);
      }
      localCache := RemovedEntry(localCache, name);
      if !deferredWrite {
        var done := svc.DeleteAttribute(id, name, ok);
        if done {
          needNotify := false;
          localCache := Cleaned(localCache, name);
        }
      }
    }

    /**
     * setAttribute: a null name is rejected before anything changes (the
     * result reports the NullPointerException); a null value is
     * removeAttribute; otherwise the entry takes the value and, when writes
     * are not deferred and the name is not transient, the map is written and
     * a successful write clears the dirty flag.
     */
    method SetAttribute(name: Option<string>, value: Option<Blob>, ok: bool) returns (nullName: bool)
      modifies this, svc
      ensures old(Valid()) ==> Valid()
      ensures nullName <==> name.None?
      ensures name.None? ==> localCache == old(localCache) && svc.clusterMap == old(svc.clusterMap) && needNotify == old(needNotify)
      ensures name.Some? && value.None? ==>
        var wrote := !deferredWrite && old(svc.hasInstance) && ok;
        && localCache == (if wrote then Cleaned(RemovedEntry(old(localCache), name.value), name.value) else RemovedEntry(old(localCache), name.value))
        && svc.clusterMap == (if wrote then Updated(old(svc.clusterMap), id, map[name.value := None]) else old(svc.clusterMap))
        && needNotify == (if wrote then false else old(needNotify))
      ensures name.Some? && value.Some? ==>
        var n := name.value;
        var wrote := !deferredWrite && n !in transientAttributes && old(svc.hasInstance) && ok;
        var local := SetEntry(old(localCache), n, value.value, n in transientAttributes);
        && localCache == (if wrote then Cleaned(local, n) else local)
        && svc.clusterMap == (if wrote then Updated(old(svc.clusterMap), id, map[n := value]) else old(svc.clusterMap))
        && needNotify == (if wrote then false else old(needNotify))
      ensures valid == old(valid) && clusterWideNew == old(clusterWideNew)
      ensures invalidatedOriginalSessionId == old(invalidatedOriginalSessionId)
      ensures svc.Connection() == old(svc.Connection()) && svc.orphanSessions == old(svc.orphanSessions)
    {
      if name.None? {
        return true;
      }
      nullName := false;
      var n := name.value;
      if value.None? {
        RemoveAttribute(n, ok);
        return;
      }
      var transientEntry := n in transientAttributes;
      if Valid() {
        SetKeepsWellFormed(localCache, transientAttributes, n, value.value);
      }
      localCache := SetEntry(localCache, n, value.value, transientEntry);
      if !deferredWrite && !transientEntry {
        var done := svc.SetAttribute(id, n, value, ok);
        if done {
          needNotify := false;
          localCache := Cleaned(localCache, n);
        }
      }
    }

    /**
     * getAttribute: goes to the map only when there is no entry or the entry
     * is marked for reload. A successful read replaces the entry with a clean,
     * non-transient one holding the stored value (so the cache invariant is
     * lost when the name is transient); a failed one answers from the old
     * entry, or null without one. A removed entry always answers null.
     */
    method GetAttribute(name: string, ok: bool) returns (value: Option<Blob>)
      modifies this
      ensures old(Valid()) && name !in transientAttributes ==> Valid()
      ensures var remote := name !in old(localCache) || old(localCache)[name].reload;
        old(Valid()) && name in transientAttributes && remote && svc.hasInstance && ok ==> !Valid()
      ensures var remote := name !in old(localCache) || old(localCache)[name].reload;
        var stored := GetAttributeProcess(GetAttributeEntryProcessor(Some(name)), Lookup(svc.clusterMap, id)).result;
        if remote && svc.hasInstance && ok then
          && localCache == FetchedAsWritten(old(localCache), name, stored)
          && value == stored
          && !needNotify
        else
          && localCache == old(localCache)
          && value == CachedValue(Entry(old(localCache), name))
          && needNotify == old(needNotify)
      ensures valid == old(valid) && clusterWideNew == old(clusterWideNew)
      ensures invalidatedOriginalSessionId == old(invalidatedOriginalSessionId)
    {
      var cacheEntry := Entry(localCache, name);
      if cacheEntry.None? || cacheEntry.value.reload {
        var fetched := svc.GetAttribute(id, name, ok);
        if fetched.Done? {
          needNotify := false;
          if Valid() {
            FetchedAsWrittenAgrees(localCache, transientAttributes, name, fetched.value);
          }
          localCache := FetchedAsWritten(localCache, name, fetched.value);
          cacheEntry := Entry(localCache, name);
        } else if cacheEntry.None? {
          return None;
        }
      }
      value := CachedValue(cacheEntry);
    }

    /** Whether some entry is dirty, transient entries included. */
    method SessionChanged() returns (changed: bool)
      ensures changed <==> Changed(localCache)
    {
      var remaining := localCache.Keys;
      while remaining != {}
        invariant remaining <= localCache.Keys
        invariant forall k | k in localCache && k !in remaining :: !localCache[k].dirty
        decreases remaining
      {
        var k :| k in remaining;
        if localCache[k].dirty {
          return true;
        }
        remaining := remaining - {k};
      }
      return false;
    }

    /** destroy: marks the session invalid and forwards (id, invalidate) to the service's deleteSession. */
    method Destroy(invalidate: bool, ok: bool)
      modifies this, svc
      ensures !valid
      ensures localCache == old(localCache) && needNotify == old(needNotify) && clusterWideNew == old(clusterWideNew)
      ensures invalidatedOriginalSessionId == old(invalidatedOriginalSessionId)
      ensures svc.Connection() == old(svc.Connection())
      ensures old(svc.hasInstance) && ok ==> svc.clusterMap == Deleted(old(svc.clusterMap), id, invalidate) && svc.orphanSessions == old(svc.orphanSessions)
      ensures !(old(svc.hasInstance) && ok) ==> svc.clusterMap == old(svc.clusterMap) && svc.orphanSessions == old(svc.orphanSessions) + [(id, invalidate)]
    {
      valid := false;
      var _ := svc.DeleteSession(id, invalidate, ok);
    }

    /**
     * The loop of sessionDeferredWrite: collects the batch and the cache with
     * the batched entries made clean.
     */
    method CollectBatch() returns (updates: map<string, Option<Blob>>, cache: Cache)
      ensures updates == Batch(localCache)
      ensures cache == Flushed(localCache)
    {
      updates := map[];
      cache := localCache;
      var remaining := localCache.Keys;
      while remaining != {}
        invariant remaining <= localCache.Keys
        invariant cache.Keys == localCache.Keys
        invariant forall k | k in cache :: cache[k] == if k in remaining then localCache[k] else Flushed(localCache)[k]
        invariant forall k | k in Batch(localCache) :: (k in updates <==> k !in remaining)
        invariant forall k | k in updates :: k in Batch(localCache) && updates[k] == Batch(localCache)[k]
        decreases remaining
      {
        var key :| key in remaining;
        var cacheEntry := cache[key];
        if cacheEntry.dirty && !cacheEntry.transient {
          if cacheEntry.removed {
            updates := updates[key := None];
          } else {
            updates := updates[key := cacheEntry.value];
          }
          cache := cache[key := cacheEntry.(dirty := false)];
        }
        remaining := remaining - {key};
      }
    }

    /**
     * sessionDeferredWrite: when something is dirty or the session is new,
     * sends every dirty non-transient entry in one update (null for a removed
     * one), clearing those dirty flags before the call whatever its outcome.
     */
    method SessionDeferredWrite(ok: bool)
      modifies this, svc
      ensures old(Valid()) ==> Valid()
      ensures !(Changed(old(localCache)) || old(IsNew())) ==>
        localCache == old(localCache) && svc.clusterMap == old(svc.clusterMap) && needNotify == old(needNotify)
      ensures Changed(old(localCache)) || old(IsNew()) ==>
        && localCache == Flushed(old(localCache))
        && svc.clusterMap == (if old(svc.hasInstance) && ok then Updated(old(svc.clusterMap), id, Batch(old(localCache))) else old(svc.clusterMap))
        && needNotify == (if old(svc.hasInstance) && ok then false else old(needNotify))
      ensures valid == old(valid) && clusterWideNew == old(clusterWideNew)
      ensures invalidatedOriginalSessionId == old(invalidatedOriginalSessionId)
      ensures svc.Connection() == old(svc.Connection()) && svc.orphanSessions == old(svc.orphanSessions)
    {
      var changed := SessionChanged();
      if !(changed || IsNew()) {
        return;
      }
      var updates, cache := CollectBatch();
      if Valid() {
        FlushAndReloadKeepWellFormed(localCache, transientAttributes);
      }
      localCache := cache;
      var done := svc.UpdateAttributes(id, updates, ok);
      if done {
        needNotify := false;
      }
    }

    /** The cached names that are neither removed nor null. */
    method CollectLocalNames() returns (keys: set<string>)
      ensures keys == LocalNames(localCache)
    {
      keys := {};
      var remaining := localCache.Keys;
      while remaining != {}
        invariant remaining <= localCache.Keys
        invariant forall k | k in localCache :: (k in keys <==> k !in remaining && !localCache[k].removed && localCache[k].value.Some?)
        invariant keys <= localCache.Keys
        decreases remaining
      {
        var k :| k in remaining;
        if !localCache[k].removed && localCache[k].value.Some? {
          keys := keys + {k};
        }
        remaining := remaining - {k};
      }
    }

    /**
     * selectKeys: with deferred writes, the cached names; otherwise the names
     * stored in the map (none when the session is not stored), falling back
     * to the cached names only when the remote call fails.
     */
    method SelectKeys(ok: bool) returns (keys: set<string>)
      modifies this
      ensures deferredWrite || !(svc.hasInstance && ok) ==> keys == LocalNames(localCache) && needNotify == old(needNotify)
      ensures !deferredWrite && svc.hasInstance && ok ==>
        keys == (if id in svc.clusterMap then svc.clusterMap[id].Keys else {}) && !needNotify
      ensures localCache == old(localCache) && valid == old(valid) && clusterWideNew == old(clusterWideNew)
      ensures invalidatedOriginalSessionId == old(invalidatedOriginalSessionId)
    {
      if !deferredWrite {
        var attributeNames := svc.GetAttributeNames(id, ok);
        if attributeNames.Failed? {
          keys := CollectLocalNames();
        } else {
          needNotify := false;
          keys := attributeNames.value.GetOr({});
        }
      } else {
        keys := CollectLocalNames();
      }
    }

    /** updateReloadFlag: marks every clean entry for reload. */
    method UpdateReloadFlag()
      modifies this
      ensures old(Valid()) ==> Valid()
      ensures localCache == WithReload(old(localCache))
      ensures valid == old(valid) && needNotify == old(needNotify) && clusterWideNew == old(clusterWideNew)
      ensures invalidatedOriginalSessionId == old(invalidatedOriginalSessionId)
    {
      var cache := localCache;
      var remaining := localCache.Keys;
      while remaining != {}
        invariant remaining <= localCache.Keys
        invariant cache.Keys == localCache.Keys
        invariant forall k | k in cache :: cache[k] == if k in remaining then localCache[k] else WithReload(localCache)[k]
        decreases remaining
      {
        var k :| k in remaining;
        if !cache[k].dirty {
          cache := cache[k := cache[k].(reload := true)];
        }
        remaining := remaining - {k};
      }
      assert cache == WithReload(localCache);
      if Valid() {
        FlushAndReloadKeepWellFormed(localCache, transientAttributes);
      }
      localCache := cache;
    }

    /** notifyCluster: touches the stored session to reset its idle time; success clears needNotify. */
    method NotifyCluster(ok: bool)
      modifies this
      ensures needNotify == (old(needNotify) && !(svc.hasInstance && ok))
      ensures localCache == old(localCache) && valid == old(valid) && clusterWideNew == old(clusterWideNew)
      ensures invalidatedOriginalSessionId == old(invalidatedOriginalSessionId)
    {
      var touched := svc.ContainsSession(id, ok);
      if touched.Done? {
        needNotify := false;
      }
    }
  }
}
