/**
 * ClusteredSessionService: the web module's gateway to the distributed
 * session map. Every remote call runs an entry processor on one key; a call
 * fails when there is no Hazelcast instance yet (the map reference is null)
 * or when the cluster cannot be reached, which the caller passes in as `ok`.
 * Failed session deletions wait in an orphan queue that a successful
 * reconnect drains.
 */
module SessionService {
  import opened Wrappers
  import opened EntryProcessors

  /** The distributed session map: session id to stored record. */
  type Store = map<string, Record>

  /** A queued deletion: the session id and its invalidate flag. */
  type Orphan = (string, bool)

  /** Minimum time between two reconnect attempts, in milliseconds. */
  const RETRY_MILLIS: int := 7000

  /** The value stored under id, None when absent. */
  function Lookup(store: Store, id: string): (r: Option<Record>)
    ensures r.Some? <==> id in store
    ensures r.Some? ==> r.value == store[id]
  {
    if id in store then Some(store[id]) else None
  }

  /** The map after a processor left `entry` under id: stored when present, removed when absent. */
  function WriteBack(store: Store, id: string, entry: Option<Record>): (r: Store)
    ensures Lookup(r, id) == entry
    ensures forall k | k != id :: Lookup(r, k) == Lookup(store, k)
  {
    if entry.Some? then store[id := entry.value] else store - {id}
  }

  /** A processor that writes back what it read leaves the map as it was. */
  lemma WriteBackSame(store: Store, id: string)
    ensures WriteBack(store, id, Lookup(store, id)) == store
  {
  }

  /** The map after one executeOnKey of a SessionUpdateEntryProcessor with this batch. */
  function Updated(store: Store, id: string, batch: map<string, Option<Blob>>): Store {
    store[id := ApplyUpdates(Lookup(store, id).GetOr(map[]), batch)]
  }

  /** The map after one executeOnKey of a DeleteSessionEntryProcessor. */
  function Deleted(store: Store, id: string, invalidate: bool): Store {
    WriteBack(store, id, DeleteProcess(NewDeleteProcessor(invalidate), Lookup(store, id)).1.entry)
  }

  /** A delete removes the session exactly when it invalidates, and touches no other session. */
  lemma DeletedEffect(store: Store, id: string, invalidate: bool)
    ensures id in Deleted(store, id, invalidate) <==> id in store && !invalidate
    ensures id in Deleted(store, id, invalidate) ==> Deleted(store, id, invalidate)[id] == store[id]
    ensures forall k | k != id :: Lookup(Deleted(store, id, invalidate), k) == Lookup(store, k)
  {
  }

  /**
   * clearOrphanSessionQueue on values: poll the queue head; a deletion that
   * succeeds (the next outcome, on a connected service) goes on to the next
   * head; one that fails is put back at the tail by deleteSession and the
   * drain stops. A missing outcome counts as a failure.
   */
  function Drain(store: Store, queue: seq<Orphan>, outcomes: seq<bool>, connected: bool): (Store, seq<Orphan>)
    decreases |queue|
  {
    if queue == [] then (store, queue)
    else if connected && |outcomes| > 0 && outcomes[0] then
      Drain(Deleted(store, queue[0].0, queue[0].1), queue[1..], outcomes[1..], connected)
    else (store, queue[1..] + [queue[0]])
  }

  /** The map after the deletions of qs, one after the other. */
  function DeletedAll(store: Store, qs: seq<Orphan>): Store
    decreases |qs|
  {
    if qs == [] then store else DeletedAll(Deleted(store, qs[0].0, qs[0].1), qs[1..])
  }

  /** The drain never creates a session: deletions only keep or remove records. */
  lemma {:induction false} DrainNeverCreates(store: Store, queue: seq<Orphan>, outcomes: seq<bool>, connected: bool, id: string)
    requires id !in store
    ensures id !in Drain(store, queue, outcomes, connected).0
    decreases |queue|
  {
    if queue != [] && connected && |outcomes| > 0 && outcomes[0] {
      DeletedEffect(store, queue[0].0, queue[0].1);
      DrainNeverCreates(Deleted(store, queue[0].0, queue[0].1), queue[1..], outcomes[1..], connected, id);
    }
  }

  /** When every deletion succeeds the queue empties and every invalidated session is gone from the map. */
  lemma {:induction false} DrainAllSucceed(store: Store, queue: seq<Orphan>, outcomes: seq<bool>)
    requires |outcomes| >= |queue|
    requires forall i | 0 <= i < |queue| :: outcomes[i]
    ensures Drain(store, queue, outcomes, true).1 == []
    ensures forall i | 0 <= i < |queue| && queue[i].1 :: queue[i].0 !in Drain(store, queue, outcomes, true).0
    ensures Drain(store, queue, outcomes, true).0 == DeletedAll(store, queue)
    decreases |queue|
  {
    if queue != [] {
      var s1 := Deleted(store, queue[0].0, queue[0].1);
      DeletedEffect(store, queue[0].0, queue[0].1);
      DrainAllSucceed(s1, queue[1..], outcomes[1..]);
      if queue[0].1 {
        DrainNeverCreates(s1, queue[1..], outcomes[1..], true, queue[0].0);
      }
      forall i | 0 <= i < |queue| && queue[i].1
        ensures queue[i].0 !in Drain(store, queue, outcomes, true).0
      {
        if i > 0 {
          assert queue[1..][i - 1] == queue[i];
        }
      }
    }
  }

  /**
   * The drain stops at the first failure: when the deletions before position
   * i succeed and the one at i fails (or has no outcome, or the service is not
   * connected), the entries before i are deleted from the map, and the queue
   * keeps the untried rest with the failed entry moved behind it.
   */
  lemma {:induction false} DrainKeepsPending(store: Store, queue: seq<Orphan>, outcomes: seq<bool>, connected: bool, i: nat)
    requires i < |queue|
    requires i <= |outcomes| && (i > 0 ==> connected)
    requires forall j | 0 <= j < i :: outcomes[j]
    requires !(connected && i < |outcomes| && outcomes[i])
    ensures Drain(store, queue, outcomes, connected).1 == queue[i + 1..] + [queue[i]]
    ensures Drain(store, queue, outcomes, connected).0 == DeletedAll(store, queue[..i])
    decreases i
  {
    if i > 0 {
      assert outcomes[0];
      var s1 := Deleted(store, queue[0].0, queue[0].1);
      forall j | 0 <= j < i - 1
        ensures outcomes[1..][j]
      {
        assert outcomes[j + 1];
      }
      DrainKeepsPending(s1, queue[1..], outcomes[1..], connected, i - 1);
      assert queue[1..][i - 1 + 1..] == queue[i + 1..];
      assert queue[..i][1..] == queue[1..][..i - 1];
    } else {
      assert queue[..0] == [];
    }
  }

  /** The drain touches only the sessions named in the queue. */
  lemma {:induction false} DrainTouchesOnlyQueued(store: Store, queue: seq<Orphan>, outcomes: seq<bool>, connected: bool, id: string)
    requires forall i | 0 <= i < |queue| :: queue[i].0 != id
    ensures Lookup(Drain(store, queue, outcomes, connected).0, id) == Lookup(store, id)
    decreases |queue|
  {
    if queue != [] && connected && |outcomes| > 0 && outcomes[0] {
      DeletedEffect(store, queue[0].0, queue[0].1);
      DrainTouchesOnlyQueued(Deleted(store, queue[0].0, queue[0].1), queue[1..], outcomes[1..], connected, id);
    }
  }

  /** The update processor updateAttributes builds: sized for the batch, then filled entry by entry. */
  method BatchOf(updates: map<string, Option<Blob>>) returns (sessionUpdate: SessionUpdateEntryProcessor)
    ensures fresh(sessionUpdate)
    ensures sessionUpdate.attributes == updates
  {
    sessionUpdate := new SessionUpdateEntryProcessor.WithCapacity(|updates|);
    var remaining := updates.Keys;
    while remaining != {}
      invariant remaining <= updates.Keys
      invariant forall k | k in updates :: (k in sessionUpdate.attributes <==> k !in remaining)
      invariant forall k | k in sessionUpdate.attributes :: k in updates && sessionUpdate.attributes[k] == updates[k]
      decreases remaining
    {
      var name :| name in remaining;
      sessionUpdate.Put(name, updates[name]);
      remaining := remaining - {name};
    }
  }

  class ClusteredSessionService {
    /** The content of the distributed session map. */
    var clusterMap: Store
    /** Whether a Hazelcast instance has been loaded (clusterMap and sss are non-null). */
    var hasInstance: bool
    /** Whether the loaded instance is still running (destroy shuts it down). */
    var instanceRunning: bool
    var failedConnection: bool
    var lastConnectionTry: int
    var orphanSessions: seq<Orphan>

    /** The connection fields, which no attribute or session call changes. */
    function Connection(): (bool, bool, bool, int)
      reads this
    {
      (hasInstance, instanceRunning, failedConnection, lastConnectionTry)
    }

    /**
     * Starts with failedConnection set and lastConnectionTry zero, then runs
     * ensureInstance once at `now`. The periodic re-run of ensureInstance is
     * the caller's to schedule.
     */
    constructor (cluster: Store, now: int, loadOk: bool, outcomes: seq<bool>)
      ensures lastConnectionTry == (if now > RETRY_MILLIS then now else 0)
      ensures hasInstance == (now > RETRY_MILLIS && loadOk)
      ensures failedConnection == !hasInstance
      ensures instanceRunning == hasInstance
      ensures clusterMap == cluster && orphanSessions == []
    {
      clusterMap := cluster;
      hasInstance := false;
      instanceRunning := false;
      failedConnection := true;
      lastConnectionTry := 0;
      orphanSessions := [];
      new;
      EnsureInstance(now, loadOk, outcomes);
    }

    method SetFailedConnection(failed: bool)
      modifies this
      ensures failedConnection == failed
      ensures clusterMap == old(clusterMap) && orphanSessions == old(orphanSessions)
      ensures hasInstance == old(hasInstance) && instanceRunning == old(instanceRunning)
      ensures lastConnectionTry == old(lastConnectionTry)
    {
      failedConnection := failed;
    }

    /**
     * At most one reconnect per RETRY_MILLIS while the connection is marked
     * failed: the attempt stamps the time, loads an instance (loadOk) and, on
     * success, clears the failure mark and drains the orphan queue. A failed
     * load leaves the mark set.
     */
    method EnsureInstance(now: int, loadOk: bool, outcomes: seq<bool>)
      modifies this
      ensures !(old(failedConnection) && now > old(lastConnectionTry) + RETRY_MILLIS) ==>
        && clusterMap == old(clusterMap) && orphanSessions == old(orphanSessions)
        && failedConnection == old(failedConnection) && lastConnectionTry == old(lastConnectionTry)
        && hasInstance == old(hasInstance) && instanceRunning == old(instanceRunning)
      ensures old(failedConnection) && now > old(lastConnectionTry) + RETRY_MILLIS ==>
        && lastConnectionTry == now
        && failedConnection == !loadOk
        && hasInstance == (old(hasInstance) || loadOk)
        && instanceRunning == (if loadOk then true else old(instanceRunning))
        && (loadOk ==> (clusterMap, orphanSessions) == Drain(old(clusterMap), old(orphanSessions), outcomes, true))
        && (!loadOk ==> clusterMap == old(clusterMap) && orphanSessions == old(orphanSessions))
    {
      if failedConnection && now > lastConnectionTry + RETRY_MILLIS {
        var loaded := ReconnectInstance(now, loadOk);
        if loaded {
          ClearOrphanSessionQueue(outcomes);
        } else {
          SetFailedConnection(true);
        }
      }
    }

    /** reconnectHZInstance: stamps the attempt, then either loads the instance or fails. */
    method ReconnectInstance(now: int, loadOk: bool) returns (loaded: bool)
      modifies this
      ensures loaded == loadOk
      ensures lastConnectionTry == now
      ensures loadOk ==> hasInstance && instanceRunning && !failedConnection
      ensures !loadOk ==> hasInstance == old(hasInstance) && instanceRunning == old(instanceRunning) && failedConnection == old(failedConnection)
      ensures clusterMap == old(clusterMap) && orphanSessions == old(orphanSessions)
    {
      lastConnectionTry := now;
      if !loadOk {
        return false;
      }
      hasInstance := true;
      instanceRunning := true;
      SetFailedConnection(false);
      loaded := true;
    }

    /**
     * Polls the orphan queue until it is empty or a deletion fails; the i-th
     * deletion attempted uses outcomes[i].
     */
    method ClearOrphanSessionQueue(outcomes: seq<bool>)
      modifies this
      ensures (clusterMap, orphanSessions) == Drain(old(clusterMap), old(orphanSessions), outcomes, hasInstance)
      ensures hasInstance == old(hasInstance) && instanceRunning == old(instanceRunning)
      ensures failedConnection == old(failedConnection) && lastConnectionTry == old(lastConnectionTry)
    {
      var i := 0;
      while orphanSessions != []
        invariant 0 <= i
        invariant hasInstance == old(hasInstance) && instanceRunning == old(instanceRunning)
        invariant failedConnection == old(failedConnection) && lastConnectionTry == old(lastConnectionTry)
        invariant Drain(old(clusterMap), old(orphanSessions), outcomes, hasInstance)
               == Drain(clusterMap, orphanSessions, if i <= |outcomes| then outcomes[i..] else [], hasInstance)
        decreases |orphanSessions|
      {
        var entry := orphanSessions[0];
        var rest := if i <= |outcomes| then outcomes[i..] else [];
        var ok := i < |outcomes| && outcomes[i];
        orphanSessions := orphanSessions[1..];
        var deleted := DeleteSession(entry.0, entry.1, ok);
        if !deleted {
          return;
        }
        assert rest[1..] == (if i + 1 <= |outcomes| then outcomes[i + 1..] else []);
        i := i + 1;
      }
    }

    /**
     * Runs the delete processor; on success TRUE, on failure the (id,
     * invalidate) pair is queued for the next reconnect and FALSE.
     */
    method DeleteSession(id: string, invalidate: bool, ok: bool) returns (done: bool)
      modifies this
      ensures done == (hasInstance && ok)
      ensures done ==> clusterMap == Deleted(old(clusterMap), id, invalidate) && orphanSessions == old(orphanSessions)
      ensures !done ==> clusterMap == old(clusterMap) && orphanSessions == old(orphanSessions) + [(id, invalidate)]
      ensures hasInstance == old(hasInstance) && instanceRunning == old(instanceRunning)
      ensures failedConnection == old(failedConnection) && lastConnectionTry == old(lastConnectionTry)
    {
      if hasInstance && ok {
        var applied := DeleteProcess(NewDeleteProcessor(invalidate), Lookup(clusterMap, id)).1;
        clusterMap := WriteBack(clusterMap, id, applied.entry);
        done := true;
      } else {
        orphanSessions := orphanSessions + [(id, invalidate)];
        done := false;
      }
    }

    /** getAttributes: the stored attributes, copied entry by entry; null when the session is not stored. */
    method GetAttributes(id: string, ok: bool) returns (r: Outcome<Option<Record>>)
      ensures r.Done? <==> hasInstance && ok
      ensures r.Done? ==> r.value == Lookup(clusterMap, id)
    {
      if !(hasInstance && ok) {
        return Failed;
      }
      var sessionState := GetSessionStateProcess(Lookup(clusterMap, id)).result;
      if sessionState.None? {
        return Done(None);
      }
      var dataAttributes := sessionState.value;
      var attributes: Record := map[];
      var remaining := dataAttributes.Keys;
      while remaining != {}
        invariant remaining <= dataAttributes.Keys
        invariant forall k | k in dataAttributes :: (k in attributes <==> k !in remaining)
        invariant forall k | k in attributes :: k in dataAttributes && attributes[k] == dataAttributes[k]
        decreases remaining
      {
        var key :| key in remaining;
        attributes := attributes[key := dataAttributes[key]];
        remaining := remaining - {key};
      }
      assert attributes == dataAttributes;
      r := Done(Some(attributes));
    }

    /** getAttribute: the stored value of one attribute, null when the session or the name is not stored. */
    method GetAttribute(id: string, name: string, ok: bool) returns (r: Outcome<Option<Blob>>)
      ensures r.Done? <==> hasInstance && ok
      ensures r.Done? ==> (r.value.Some? <==> id in clusterMap && name in clusterMap[id])
      ensures r.Done? && r.value.Some? ==> r.value.value == clusterMap[id][name]
    {
      if !(hasInstance && ok) {
        return Failed;
      }
      r := Done(GetAttributeProcess(GetAttributeEntryProcessor(Some(name)), Lookup(clusterMap, id)).result);
    }

    /** getAttributeNames: the stored names, null when the session is not stored. */
    method GetAttributeNames(id: string, ok: bool) returns (r: Outcome<Option<set<string>>>)
      ensures r.Done? <==> hasInstance && ok
      ensures r.Done? ==> (r.value.Some? <==> id in clusterMap)
      ensures r.Done? && r.value.Some? ==> r.value.value == clusterMap[id].Keys
    {
      if !(hasInstance && ok) {
        return Failed;
      }
      r := Done(GetAttributeNamesProcess(Lookup(clusterMap, id)).result);
    }

    /** containsSession: whether the map holds the session. */
    method ContainsSession(id: string, ok: bool) returns (r: Outcome<bool>)
      ensures r.Done? <==> hasInstance && ok
      ensures r.Done? ==> (r.value <==> id in clusterMap)
    {
      if !(hasInstance && ok) {
        return Failed;
      }
      r := Done(id in clusterMap);
    }

    /** setAttribute: one single-entry update; a null value deletes the name. The record is created if absent. */
    method SetAttribute(id: string, name: string, value: Option<Blob>, ok: bool) returns (done: bool)
      modifies this
      ensures done == (hasInstance && ok)
      ensures done ==> clusterMap == Updated(old(clusterMap), id, map[name := value])
      ensures !done ==> clusterMap == old(clusterMap)
      ensures orphanSessions == old(orphanSessions) && hasInstance == old(hasInstance) && instanceRunning == old(instanceRunning)
      ensures failedConnection == old(failedConnection) && lastConnectionTry == old(lastConnectionTry)
    {
      if !(hasInstance && ok) {
        return false;
      }
      var processor := new SessionUpdateEntryProcessor.Single(name, value);
      var applied := processor.Process(Lookup(clusterMap, id));
      clusterMap := WriteBack(clusterMap, id, applied.entry);
      done := true;
    }

    /** deleteAttribute: setAttribute with a null value. */
    method DeleteAttribute(id: string, name: string, ok: bool) returns (done: bool)
      modifies this
      ensures done == (hasInstance && ok)
      ensures done ==> id in clusterMap && name !in clusterMap[id]
      ensures done ==> clusterMap == Updated(old(clusterMap), id, map[name := None])
      ensures !done ==> clusterMap == old(clusterMap)
      ensures orphanSessions == old(orphanSessions) && hasInstance == old(hasInstance) && instanceRunning == old(instanceRunning)
      ensures failedConnection == old(failedConnection) && lastConnectionTry == old(lastConnectionTry)
    {
      done := SetAttribute(id, name, None, ok);
    }

    /** updateAttributes: all updates in one processor, so they reach the record in one atomic step. */
    method UpdateAttributes(id: string, updates: map<string, Option<Blob>>, ok: bool) returns (done: bool)
      modifies this
      ensures done == (hasInstance && ok)
      ensures done ==> clusterMap == Updated(old(clusterMap), id, updates)
      ensures !done ==> clusterMap == old(clusterMap)
      ensures orphanSessions == old(orphanSessions) && hasInstance == old(hasInstance) && instanceRunning == old(instanceRunning)
      ensures failedConnection == old(failedConnection) && lastConnectionTry == old(lastConnectionTry)
    {
      if !hasInstance {
        return false;
      }
      var sessionUpdate := BatchOf(updates);
      if !ok {
        return false;
      }
      var applied := sessionUpdate.Process(Lookup(clusterMap, id));
      clusterMap := WriteBack(clusterMap, id, applied.entry);
      done := true;
    }

    /** destroy: shuts the instance down when one was loaded. */
    method Destroy()
      modifies this
      ensures instanceRunning == (old(instanceRunning) && !hasInstance)
      ensures clusterMap == old(clusterMap) && orphanSessions == old(orphanSessions) && hasInstance == old(hasInstance)
      ensures failedConnection == old(failedConnection) && lastConnectionTry == old(lastConnectionTry)
    {
      if hasInstance {
        instanceRunning := false;
      }
    }
  }

  /** Setting then deleting an attribute leaves the session stored without that name. */
  lemma SetThenDelete(store: Store, id: string, name: string, value: Blob)
    ensures Updated(Updated(store, id, map[name := Some(value)]), id, map[name := None])
         == Updated(store, id, map[name := None])
  {
    UpdatesCompose(Lookup(store, id).GetOr(map[]), map[name := Some(value)], map[name := None]);
    assert map[name := Some(value)] + map[name := None] == map[name := None];
  }
}
