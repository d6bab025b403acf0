# hazelcast-wm session clustering, modelled in Dafny

hazelcast-wm is a servlet filter. It keeps HTTP sessions in a Hazelcast
distributed map so that any node of a web cluster can serve any request of a
session. This project models the sequential core of that filter:

- **HazelcastHttpSession** (`HttpSessions`). The per-session local attribute
  cache is a map from name to `LocalCacheEntry` (value, dirty, removed,
  reload, transient). Attribute operations either write through to the map
  at once or, in deferred mode, collect one update batch at the end of the
  request. Transient names are meant never to reach the map; the remote read
  in getAttribute (HazelcastHttpSession.java:121) lets one through, as
  "## Findings" shows.
- **The entry processors** (`EntryProcessors`). These are the per-key
  functions the map applies atomically: update a batch, delete or keep a
  session, read one attribute, read the whole state, read the names.
- **SessionState and its wire format** (`SessionStates`, `Wire`). The
  stored record is an attribute map. It is written as a count followed by
  (name, data) pairs and read back by upserting into the current map.
- **ClusteredSessionService** (`SessionService`). The gateway to the
  distributed map:
  - every remote call fails when no instance is loaded, or when the cluster
    cannot be reached;
  - a failed session deletion joins a FIFO orphan queue;
  - reconnection is gated to one attempt per 7000 ms;
  - a successful reconnect drains the queue until the first failure.
- **WebFilter and its request wrapper** (`WebFilters`). These cover:
  - the two session directories (container session id to Hazelcast id, and
    Hazelcast id to session), with creation, destruction and id rotation;
  - the id generated from a UUID;
  - the session-id lookup from cookies or a request parameter;
  - the cookie-path rule;
  - the end-of-request deferred write.
- **WebFilterConfig** (`FilterConfig`, with `Strings`). Parameter precedence,
  defaults, integer parsing, transient-set tokenizing, the conflicting-
  parameter checks and the choice of configuration location.
- **WebDataSerializerHook** (`SerializerHook`). The class ids and the
  factory that maps an id back to its class.

How the model treats the outside world:

- **Remote failure.** The distributed map is `map<string, map<string, Blob>>`,
  where a `Blob` is an opaque serialized value. Whether a remote call reaches
  the cluster is an explicit `ok: bool` parameter. A call also fails when no
  Hazelcast instance is loaded (`hasInstance` false), which in the source is
  a NullPointerException on the null map reference. Failed calls return
  `Failed` or leave a state the contract names.
- **Time and randomness.** The clock (`now`), the UUID behind a new session
  id and the instance loader's success (`loadOk`) are parameters.
- **Deferred write is proved to track write-through.** `HttpSessions.Tracks`
  relates the deferred cache to the record the map would hold under
  write-through. The end-of-request batch brings the map to exactly that
  record. Every cache operation preserves the relation, with one exception:
  the remote read as written (line 121) breaks it for a transient name,
  while the corrected read keeps it for every name.

Three places where the model follows the code and not the prose description:

- **Session-id lookup.** A matching cookie whose value is null falls back to
  the request parameter, as the code does. The fallback is not limited to the
  case where no such cookie exists.
- **readFromCookie.** It does not return a sticky session it found, but it
  keeps that session in the wrapper's field.
- **changeSessionId.** Afterwards the wrapper still holds the old, destroyed
  session.

## Model

| member | source | states |
|---|---|---|
| SerializerHook.Create | src/main/java/com/hazelcast/web/WebDataSerializerHook.java:74-83 | the factory yields a class exactly for ids 1..6, null otherwise |
| SerializerHook.CreateInvertsClassId | src/main/java/com/hazelcast/web/WebDataSerializerHook.java:74-83 | creating from any class's getClassId gives back that class |
| SerializerHook.ClassIdInvertsCreate | src/main/java/com/hazelcast/web/WebDataSerializerHook.java:65-72 | an id the factory accepts is the class id of what it creates |
| SerializerHook.ClassIdsDistinct | src/main/java/com/hazelcast/web/WebDataSerializerHook.java:42-62 | the six class ids are pairwise distinct |
| Wire.EncodePairs | src/main/java/com/hazelcast/web/SessionState.java:55-61 | the pair encoding writes exactly two tokens per attribute |
| Wire.EncodePairsAppend | src/main/java/com/hazelcast/web/SessionState.java:57-60 | encoding one more name appends exactly its (name, data) pair |
| Wire.DistinctCount | src/main/java/com/hazelcast/web/SessionState.java:56 | an enumeration without repeats has as many elements as its set |
| Wire.EnumerationLength | src/main/java/com/hazelcast/web/SessionState.java:56 | the count written equals the number of attributes enumerated |
| Wire.ReadEncodedPairs | src/main/java/com/hazelcast/web/entryprocessor/SessionUpdateEntryProcessor.java:99-106 | reading back encoded pairs adds exactly those pairs and leaves the rest of the stream |
| Wire.RestrictCons | src/main/java/com/hazelcast/web/entryprocessor/SessionUpdateEntryProcessor.java:99-106 | putting the first pair and then the rest gives the same map as putting the whole key list |
| Wire.RoundTrip | src/main/java/com/hazelcast/web/entryprocessor/SessionUpdateEntryProcessor.java:90-106 | decoding an encoded attribute map reproduces the map and leaves the rest of the stream |
| Wire.ReadMap | src/main/java/com/hazelcast/web/entryprocessor/SessionUpdateEntryProcessor.java:99-102 | a negative count is an error once read: the map cannot be sized |
| SessionStates.Lift | src/main/java/com/hazelcast/web/SessionState.java:34 | a stored map seen as an update map has the same keys and every value present |
| SessionStates.SessionState.constructor | src/main/java/com/hazelcast/web/SessionState.java:34 | a new state has no attributes |
| SessionStates.SessionState.SetAttribute | src/main/java/com/hazelcast/web/SessionState.java:50-52 | upserts one key and keeps every other key and value |
| SessionStates.SessionState.Set | src/main/java/com/hazelcast/web/SessionState.java:71-73 | put-all: keys of m take m's values, others keep theirs |
| SessionStates.SessionState.WriteData | src/main/java/com/hazelcast/web/SessionState.java:55-61 | the output is the count then one pair per attribute, in some enumeration of the keys |
| SessionStates.SessionState.ReadData | src/main/java/com/hazelcast/web/SessionState.java:64-69 | the attributes become the upsert of the decoded pairs into the old map |
| SessionStates.ReadStateEncoded | src/main/java/com/hazelcast/web/SessionState.java:64-69 | reading encoded pairs into an accumulator adds exactly the encoded pairs |
| SessionStates.ReadDataUpserts | src/main/java/com/hazelcast/web/SessionState.java:64-69 | readData does not clear: the result is the old map updated by the written map |
| SessionStates.PickedCons | src/main/java/com/hazelcast/web/SessionState.java:64-69 | reading the first pair and then the rest gives the same map as reading the whole key list |
| SessionStates.PickedAll | src/main/java/com/hazelcast/web/SessionState.java:56-60 | the pairs written for an enumeration of every key rebuild the whole map |
| SessionStates.StateRoundTrip | src/main/java/com/hazelcast/web/SessionState.java:55-69 | readData on a fresh state after writeData reproduces the attribute map |
| SessionStates.Transfer | src/main/java/com/hazelcast/web/SessionState.java:55-69 | a state written and read into a fresh object arrives with the same attributes |
| EntryProcessors.UpdateRules | src/main/java/com/hazelcast/web/entryprocessor/SessionUpdateEntryProcessor.java:76-84 | a null value removes the name, a value upserts it, and names outside the batch keep their values |
| EntryProcessors.UpdatesCompose | src/main/java/com/hazelcast/web/entryprocessor/SessionUpdateEntryProcessor.java:76-84 | applying two batches in turn equals applying their union, later batch winning |
| EntryProcessors.SessionUpdateEntryProcessor.WithCapacity | src/main/java/com/hazelcast/web/entryprocessor/SessionUpdateEntryProcessor.java:43-45 | the sized constructor starts with an empty batch |
| EntryProcessors.SessionUpdateEntryProcessor.Single | src/main/java/com/hazelcast/web/entryprocessor/SessionUpdateEntryProcessor.java:47-50 | the single-key constructor yields a batch of exactly that one entry |
| EntryProcessors.SessionUpdateEntryProcessor.constructor | src/main/java/com/hazelcast/web/entryprocessor/SessionUpdateEntryProcessor.java:52-54 | the no-argument constructor yields an empty batch |
| EntryProcessors.SessionUpdateEntryProcessor.Put | src/main/java/com/hazelcast/web/ClusteredSessionService.java:291 | adding to the batch upserts that one name |
| EntryProcessors.SessionUpdateEntryProcessor.Process | src/main/java/com/hazelcast/web/entryprocessor/SessionUpdateEntryProcessor.java:71-87 | the record (an empty one when absent) is updated by the batch and always written back, with TRUE |
| EntryProcessors.SessionUpdateEntryProcessor.WriteData | src/main/java/com/hazelcast/web/entryprocessor/SessionUpdateEntryProcessor.java:90-96 | the output is the count then one pair per batch entry |
| EntryProcessors.SessionUpdateEntryProcessor.ReadData | src/main/java/com/hazelcast/web/entryprocessor/SessionUpdateEntryProcessor.java:99-106 | the batch becomes the decoded map; input not starting with a count, or a negative count (the map cannot be sized), is rejected with the batch unchanged |
| EntryProcessors.TransferUpdate | src/main/java/com/hazelcast/web/entryprocessor/SessionUpdateEntryProcessor.java:90-106 | a processor sent to another member arrives with the same batch |
| EntryProcessors.UpdateCreatesRecord | src/main/java/com/hazelcast/web/entryprocessor/SessionUpdateEntryProcessor.java:72-75 | on an absent record the update creates one holding the non-null entries; an empty batch creates an empty record |
| EntryProcessors.DeleteProcess | src/main/java/com/hazelcast/web/entryprocessor/DeleteSessionEntryProcessor.java:57-70 | FALSE and nothing created for an absent record; TRUE otherwise; the record is removed exactly when invalidating |
| EntryProcessors.DeleteTwice | src/main/java/com/hazelcast/web/entryprocessor/DeleteSessionEntryProcessor.java:57-70 | an invalidating delete applied twice answers TRUE then FALSE and the key stays absent |
| EntryProcessors.DeleteRoundTrip | src/main/java/com/hazelcast/web/entryprocessor/DeleteSessionEntryProcessor.java:73-81 | only the invalidate flag is serialized and it round-trips; `removed` arrives false |
| EntryProcessors.GetAttributeProcess | src/main/java/com/hazelcast/web/entryprocessor/GetAttributeEntryProcessor.java:57-64 | the record is unchanged; the result is the stored value, null for an absent record or name |
| EntryProcessors.GetAttributeRoundTrip | src/main/java/com/hazelcast/web/entryprocessor/GetAttributeEntryProcessor.java:67-75 | the attribute name round-trips through writeUTF / readUTF |
| EntryProcessors.GetSessionStateIsRead | src/main/java/com/hazelcast/web/entryprocessor/GetSessionStateEntryProcessor.java:49-65 | the record is unchanged, the result is that record (null when absent), and nothing is serialized |
| SessionService.Lookup | src/main/java/com/hazelcast/web/ClusteredSessionService.java:173-189 | a read finds a record exactly when the session is in the map |
| SessionService.WriteBack | src/main/java/com/hazelcast/web/ClusteredSessionService.java:159-166 | an entry processor's write-back changes only its own key |
| SessionService.WriteBackSame | src/main/java/com/hazelcast/web/entryprocessor/GetAttributeEntryProcessor.java:62 | writing back what was read leaves the map unchanged |
| SessionService.DeletedEffect | src/main/java/com/hazelcast/web/ClusteredSessionService.java:264-267 | a delete removes the session exactly when invalidating and touches no other session |
| SessionService.DrainNeverCreates | src/main/java/com/hazelcast/web/ClusteredSessionService.java:141-151 | draining the orphan queue never creates a session |
| SessionService.DrainAllSucceed | src/main/java/com/hazelcast/web/ClusteredSessionService.java:141-151 | when every retry succeeds the queue ends empty, the map is the result of all the queued deletions in order, and every invalidated session is gone |
| SessionService.DeletedAll | src/main/java/com/hazelcast/web/ClusteredSessionService.java:141-151 | the map after the queued deletions, one after the other (the reference for the drain lemmas) |
| SessionService.DrainKeepsPending | src/main/java/com/hazelcast/web/ClusteredSessionService.java:141-151 | when the retries before position i succeed and the one at i fails, the entries before i are deleted from the map and the queue is the untried rest followed by the failed entry |
| SessionService.DrainTouchesOnlyQueued | src/main/java/com/hazelcast/web/ClusteredSessionService.java:141-151 | sessions not in the queue are untouched by the drain |
| SessionService.SetThenDelete | src/main/java/com/hazelcast/web/ClusteredSessionService.java:209-224 | deleteAttribute after setAttribute of the same name is deleteAttribute alone |
| SessionService.ClusteredSessionService.constructor | src/main/java/com/hazelcast/web/ClusteredSessionService.java:85-110 | failedConnection starts true, so the first ensureInstance attempts to load |
| SessionService.ClusteredSessionService.SetFailedConnection | src/main/java/com/hazelcast/web/ClusteredSessionService.java:94-96 | sets the flag and nothing else |
| SessionService.ClusteredSessionService.EnsureInstance | src/main/java/com/hazelcast/web/ClusteredSessionService.java:112-129 | attempts only when failedConnection and now > lastConnectionTry + 7000; a failed attempt sets failedConnection again |
| SessionService.ClusteredSessionService.ReconnectInstance | src/main/java/com/hazelcast/web/ClusteredSessionService.java:131-139 | records the try time first and clears failedConnection only on success |
| SessionService.ClusteredSessionService.ClearOrphanSessionQueue | src/main/java/com/hazelcast/web/ClusteredSessionService.java:141-151 | the map and queue become the drain of the old ones |
| SessionService.ClusteredSessionService.DeleteSession | src/main/java/com/hazelcast/web/ClusteredSessionService.java:254-262 | succeeds iff the call does; on failure exactly (id, invalidate) joins the tail of the queue |
| SessionService.ClusteredSessionService.GetAttributes | src/main/java/com/hazelcast/web/ClusteredSessionService.java:173-189 | null iff the record is absent, otherwise the stored record |
| SessionService.ClusteredSessionService.GetAttribute | src/main/java/com/hazelcast/web/ClusteredSessionService.java:198-201 | the stored value of the name, null when absent |
| SessionService.ClusteredSessionService.GetAttributeNames | src/main/java/com/hazelcast/web/ClusteredSessionService.java:275-277 | the stored names, null when the record is absent |
| SessionService.ClusteredSessionService.ContainsSession | src/main/java/com/hazelcast/web/ClusteredSessionService.java:232-234 | true iff the map has the session |
| SessionService.ClusteredSessionService.SetAttribute | src/main/java/com/hazelcast/web/ClusteredSessionService.java:220-224 | one single-entry update, applied iff the call succeeds |
| SessionService.ClusteredSessionService.DeleteAttribute | src/main/java/com/hazelcast/web/ClusteredSessionService.java:209-211 | a single-entry update with null, which leaves the name absent |
| SessionService.ClusteredSessionService.UpdateAttributes | src/main/java/com/hazelcast/web/ClusteredSessionService.java:285-294 | the whole batch in one update call |
| SessionService.BatchOf | src/main/java/com/hazelcast/web/ClusteredSessionService.java:287-292 | the batch processor carries exactly the given updates, one put per entry |
| SessionService.ClusteredSessionService.Destroy | src/main/java/com/hazelcast/web/ClusteredSessionService.java:299-309 | shuts a loaded instance down and changes nothing else |
| HttpSessions.CachedValue | src/main/java/com/hazelcast/web/HazelcastHttpSession.java:128-136 | a removed entry or a missing one yields null |
| HttpSessions.WithReload | src/main/java/com/hazelcast/web/HazelcastHttpSession.java:360-366 | every clean entry gets reload and dirty entries are unchanged |
| HttpSessions.SetEntryHolds | src/main/java/com/hazelcast/web/HazelcastHttpSession.java:87-110 | after a set the entry holds the value, dirty, not removed and not reloading; other entries unchanged |
| HttpSessions.RemovedEntryHolds | src/main/java/com/hazelcast/web/HazelcastHttpSession.java:197-216 | an existing entry becomes null, removed and dirty; no entry is created |
| HttpSessions.SetThenRemoveHidesName | src/main/java/com/hazelcast/web/HazelcastHttpSession.java:317-342 | a set then a remove in one request lists no name for it |
| HttpSessions.TransientNeverBatched | src/main/java/com/hazelcast/web/HazelcastHttpSession.java:286-315 | in a well-formed cache no transient name is ever in the batch |
| HttpSessions.SetKeepsWellFormed | src/main/java/com/hazelcast/web/HazelcastHttpSession.java:79-111 | setAttribute keeps the cache invariant |
| HttpSessions.RemoveKeepsWellFormed | src/main/java/com/hazelcast/web/HazelcastHttpSession.java:197-216 | removeAttribute keeps the cache invariant |
| HttpSessions.FetchKeepsWellFormed | src/main/java/com/hazelcast/web/HazelcastHttpSession.java:113-137 | the corrected remote read keeps the cache invariant |
| HttpSessions.FetchedAsWrittenAgrees | src/main/java/com/hazelcast/web/HazelcastHttpSession.java:121 | the read as written equals the corrected read, and keeps the cache invariant, exactly when the name is not transient |
| HttpSessions.FlushAndReloadKeepWellFormed | src/main/java/com/hazelcast/web/HazelcastHttpSession.java:286-315 | flushing and reload marking keep the cache invariant |
| HttpSessions.BatchAfterSet | src/main/java/com/hazelcast/web/HazelcastHttpSession.java:87-110 | a set adds the value to the batch unless the name is transient |
| HttpSessions.BatchAfterRemove | src/main/java/com/hazelcast/web/HazelcastHttpSession.java:197-216 | a remove of a cached non-transient name adds null to the batch |
| HttpSessions.BatchAfterFetch | src/main/java/com/hazelcast/web/HazelcastHttpSession.java:113-137 | a remote read of a clean or missing entry changes no batch |
| HttpSessions.BatchAfterReloadAndFlush | src/main/java/com/hazelcast/web/HazelcastHttpSession.java:286-366 | reload marking keeps the batch and a flush empties it |
| HttpSessions.BuiltIsClean | src/main/java/com/hazelcast/web/HazelcastHttpSession.java:260-284 | the cache built from a record has its names, nothing dirty and nothing to send |
| HttpSessions.AsWrittenFetchLeaksTransient | src/main/java/com/hazelcast/web/HazelcastHttpSession.java:121 | the as-written read entry is not transient, so a later set sends the transient name |
| HttpSessions.BuiltTracks | src/main/java/com/hazelcast/web/HazelcastHttpSession.java:260-284 | a freshly built cache tracks its record |
| HttpSessions.SetTracks | src/main/java/com/hazelcast/web/HazelcastHttpSession.java:79-111 | a set keeps deferred mode in step with write-through |
| HttpSessions.RemoveTracks | src/main/java/com/hazelcast/web/HazelcastHttpSession.java:197-216 | a remove keeps deferred mode in step with write-through |
| HttpSessions.FetchTracks | src/main/java/com/hazelcast/web/HazelcastHttpSession.java:113-137 | the corrected remote read keeps deferred mode in step with write-through for every name; the read as written does so exactly when the name is not transient |
| HttpSessions.ReloadTracks | src/main/java/com/hazelcast/web/HazelcastHttpSession.java:360-366 | reload marking keeps deferred mode in step with write-through |
| HttpSessions.FlushReaches | src/main/java/com/hazelcast/web/HazelcastHttpSession.java:286-315 | after the deferred batch nothing is left to send, and the flushed cache tracks the write-through record as its new base |
| HttpSessions.ContainerSession.constructor | src/main/java/com/hazelcast/web/WebFilter.java:328-336 | a container session has its id and new flag |
| HttpSessions.HazelcastHttpSession.constructor | src/main/java/com/hazelcast/web/HazelcastHttpSession.java:58-69 | a new session is valid, not cluster-wide new, and caches the stored record (empty on failure, needing notify) |
| HttpSessions.HazelcastHttpSession.SetClusterWideNew | src/main/java/com/hazelcast/web/HazelcastHttpSession.java:344-346 | sets only that flag |
| HttpSessions.HazelcastHttpSession.IsNew | src/main/java/com/hazelcast/web/HazelcastHttpSession.java:189-191 | new only when the container session is new and this process created the session in the cluster; a session built from the cluster is never new |
| HttpSessions.HazelcastHttpSession.RemoveAttribute | src/main/java/com/hazelcast/web/HazelcastHttpSession.java:197-216 | marks the entry removed; writes through (transient names too) only in non-deferred mode, clearing dirty on success |
| HttpSessions.HazelcastHttpSession.SetAttribute | src/main/java/com/hazelcast/web/HazelcastHttpSession.java:79-111 | a null name changes nothing; a null value is removeAttribute; otherwise writes through only non-deferred and non-transient |
| HttpSessions.HazelcastHttpSession.GetAttribute | src/main/java/com/hazelcast/web/HazelcastHttpSession.java:113-137 | goes remote iff no entry or reload; a successful read stores a clean non-transient entry, so the cache invariant survives exactly for non-transient names; on failure answers from the old entry |
| HttpSessions.HazelcastHttpSession.SessionChanged | src/main/java/com/hazelcast/web/HazelcastHttpSession.java:226-233 | true iff some entry is dirty, transient ones included |
| HttpSessions.HazelcastHttpSession.Destroy | src/main/java/com/hazelcast/web/HazelcastHttpSession.java:251-254 | the session is invalid and the delete of (id, invalidate) is sent or queued |
| HttpSessions.HazelcastHttpSession.CollectBatch | src/main/java/com/hazelcast/web/HazelcastHttpSession.java:288-304 | the loop builds exactly the batch and the flushed cache |
| HttpSessions.HazelcastHttpSession.SessionDeferredWrite | src/main/java/com/hazelcast/web/HazelcastHttpSession.java:286-315 | nothing unless changed or new; otherwise sends exactly the batch and clears its dirty flags first |
| HttpSessions.HazelcastHttpSession.CollectLocalNames | src/main/java/com/hazelcast/web/HazelcastHttpSession.java:335-339 | the loop lists exactly the names not removed and not null |
| HttpSessions.HazelcastHttpSession.SelectKeys | src/main/java/com/hazelcast/web/HazelcastHttpSession.java:317-342 | local names in deferred mode or on failure, else the stored names |
| HttpSessions.HazelcastHttpSession.UpdateReloadFlag | src/main/java/com/hazelcast/web/HazelcastHttpSession.java:360-366 | the cache becomes its reload-marked form |
| HttpSessions.HazelcastHttpSession.NotifyCluster | src/main/java/com/hazelcast/web/HazelcastHttpSession.java:372-380 | needNotify stays set only while the call fails |
| Strings.UpperChar | src/main/java/com/hazelcast/web/WebFilter.java:146-150 | ASCII lower-case letters are upper-cased and all else kept |
| Strings.EqualsIgnoreCaseEquivalence | src/main/java/com/hazelcast/web/WebFilter.java:475 | case-insensitive name comparison is an equivalence |
| Strings.TrimStart | src/main/java/com/hazelcast/web/WebFilterConfig.java:231 | drops exactly the leading characters at or below space |
| Strings.TrimEnd | src/main/java/com/hazelcast/web/WebFilterConfig.java:231 | drops exactly the trailing characters at or below space |
| Strings.TrimStartSuffix | src/main/java/com/hazelcast/web/WebFilterConfig.java:231 | what is left after dropping the leading characters is a suffix of the input |
| Strings.TrimEndPrefix | src/main/java/com/hazelcast/web/WebFilterConfig.java:231 | what is left after dropping the trailing characters is a prefix of the input |
| Strings.Trim | src/main/java/com/hazelcast/web/WebFilterConfig.java:231 | a trimmed string starts and ends with a printable character |
| Strings.BlankIffTrimEmpty | src/main/java/com/hazelcast/web/WebFilterConfig.java:193 | a value is blank iff it trims to empty |
| Strings.TrimIdempotent | src/main/java/com/hazelcast/web/WebFilterConfig.java:231 | trimming twice is trimming once |
| FilterConfig.GetValue | src/main/java/com/hazelcast/web/WebFilterConfig.java:253-259 | a key present in the properties overrides the init-param |
| FilterConfig.GetString | src/main/java/com/hazelcast/web/WebFilterConfig.java:213-220 | blank gives the default, otherwise the value |
| FilterConfig.ShowNat | src/main/java/com/hazelcast/web/WebFilterConfig.java:200-211 | a number prints as a non-empty digit string |
| FilterConfig.ShowNatValue | src/main/java/com/hazelcast/web/WebFilterConfig.java:200-211 | reading the printed digits gives the number back |
| FilterConfig.ParseIntRoundTrip | src/main/java/com/hazelcast/web/WebFilterConfig.java:200-211 | Integer.parseInt accepts a printed int exactly when it is in 32-bit range |
| FilterConfig.ParseIntRejects | src/main/java/com/hazelcast/web/WebFilterConfig.java:200-211 | empty, lone signs, letters and surrounding blanks are rejected |
| FilterConfig.GetInt | src/main/java/com/hazelcast/web/WebFilterConfig.java:200-211 | blank gives the default, a number its value, anything else InvalidConfiguration |
| FilterConfig.RunLength | src/main/java/com/hazelcast/web/WebFilterConfig.java:228-230 | a token runs up to the next comma |
| FilterConfig.Tokens | src/main/java/com/hazelcast/web/WebFilterConfig.java:228-230 | splitting on ',' gives non-empty, comma-free tokens |
| FilterConfig.TokenSetCons | src/main/java/com/hazelcast/web/WebFilterConfig.java:229-232 | the set gains each token trimmed |
| FilterConfig.TokenSetMember | src/main/java/com/hazelcast/web/WebFilterConfig.java:229-232 | every member of the set is some token, trimmed |
| FilterConfig.TokenSetPair | src/main/java/com/hazelcast/web/WebFilterConfig.java:229-232 | two tokens give the set of the two trimmed tokens |
| FilterConfig.SplitTrimmed | src/main/java/com/hazelcast/web/WebFilterConfig.java:227-233 | the loop builds exactly the set of trimmed tokens |
| FilterConfig.TakeRun | src/main/java/com/hazelcast/web/WebFilterConfig.java:228-230 | one scanned run is the head token of the split |
| FilterConfig.GetStringSet | src/main/java/com/hazelcast/web/WebFilterConfig.java:222-235 | blank gives the empty set, otherwise the trimmed comma-separated tokens |
| FilterConfig.TransientTokensClean | src/main/java/com/hazelcast/web/WebFilterConfig.java:222-235 | no transient name contains a comma or starts or ends blank |
| FilterConfig.TrimKeepsOut | src/main/java/com/hazelcast/web/WebFilterConfig.java:231 | trimming never introduces a character |
| FilterConfig.TransientExample | src/main/java/com/hazelcast/web/WebFilterConfig.java:222-235 | " a ,, b" gives the set {a, b} |
| FilterConfig.ParametersExist | src/main/java/com/hazelcast/web/WebFilterConfig.java:316-325 | lists exactly the given names that are set |
| FilterConfig.JoinNames | src/main/java/com/hazelcast/web/WebFilterConfig.java:284-289 | the loop joins the names with ", " |
| FilterConfig.ValidateRejectsExactlyConflicts | src/main/java/com/hazelcast/web/WebFilterConfig.java:272-314 | rejected iff instance-name meets another location or TTL, client mode meets TTL or config-location, or peer mode meets client-config-location |
| FilterConfig.InstanceNameMessageListsOffenders | src/main/java/com/hazelcast/web/WebFilterConfig.java:273-292 | with instance-name set and any of the three conflicting parameters set, validation fails with a message naming exactly the set ones |
| FilterConfig.ConfigUrl | src/main/java/com/hazelcast/web/WebFilterConfig.java:237-251 | a location resolves iff it exists, else InvalidConfiguration |
| FilterConfig.ValidateAndGetConfigUrl | src/main/java/com/hazelcast/web/WebFilterConfig.java:261-270 | only config-location in peer mode or client-config-location in client mode is resolved; otherwise null |
| FilterConfig.Create | src/main/java/com/hazelcast/web/WebFilterConfig.java:82-129 | validation, TTL parse and location errors in source order; once validation and the TTL pass, it succeeds exactly when the location resolves, and then returns the settings built from the parameters |
| FilterConfig.DefaultsWhenNothingIsSet | src/main/java/com/hazelcast/web/WebFilterConfig.java:83-110 | with no parameters: sticky and shutdown on, TTL 1800, cookie "hazelcast.sessionId", the rest off |
| FilterConfig.BlankMeansDefault | src/main/java/com/hazelcast/web/WebFilterConfig.java:191-235 | a blank value means the default for every typed getter |
| WebFilters.GenerateSessionId | src/main/java/com/hazelcast/web/WebFilter.java:140-154 | the loop builds "HZ" and the UUID without hyphens, upper-cased |
| WebFilters.StrippedShape | src/main/java/com/hazelcast/web/WebFilter.java:144-151 | stripping removes exactly the hyphens and leaves no lower-case letter |
| WebFilters.SessionIdShape | src/main/java/com/hazelcast/web/WebFilter.java:140-154 | the id starts "HZ", has no '-' or lower-case letter, and has length 2 plus the non-hyphen count |
| WebFilters.StrippedAppend | src/main/java/com/hazelcast/web/WebFilter.java:144-151 | stripping works character by character |
| WebFilters.StrippedIdempotent | src/main/java/com/hazelcast/web/WebFilter.java:144-151 | stripping a stripped id changes nothing |
| WebFilters.FirstMatch | src/main/java/com/hazelcast/web/WebFilter.java:472-478 | the index of the first cookie whose name matches ignoring case, none if there is none |
| WebFilters.FirstCookieWins | src/main/java/com/hazelcast/web/WebFilter.java:467-488 | the first matching cookie's value is the id |
| WebFilters.ParameterOnlyAsFallback | src/main/java/com/hazelcast/web/WebFilter.java:483-485 | the parameter is used only with request parameters on and no cookie value |
| WebFilters.FirstMatchIs | src/main/java/com/hazelcast/web/WebFilter.java:472-478 | the first match is found at its index |
| WebFilters.FirstMatchNone | src/main/java/com/hazelcast/web/WebFilter.java:472-478 | no matching name means no match |
| WebFilters.CookiePath | src/main/java/com/hazelcast/web/WebFilter.java:259-270 | configured path if non-blank, else the context path, and never empty ("/") |
| WebFilters.SessionCookieFor | src/main/java/com/hazelcast/web/WebFilter.java:254-289 | the cookie carries the configured name, the session id and a non-empty path |
| WebFilters.AfterDelete | src/main/java/com/hazelcast/web/ClusteredSessionService.java:254-262 | a reached delete keeps the queue; a failed one leaves the map and queues (id, invalidate) |
| WebFilters.WebFilter.constructor | src/main/java/com/hazelcast/web/WebFilter.java:110-124 | both directories start empty |
| WebFilters.WebFilter.UpdateSessionMaps | src/main/java/com/hazelcast/web/WebFilter.java:216-226 | sets exactly the two directory entries |
| WebFilters.WebFilter.DestroySession | src/main/java/com/hazelcast/web/WebFilter.java:236-243 | removes exactly the two keys and destroys the session with the given flag |
| WebFilters.WebFilter.Invalidate | src/main/java/com/hazelcast/web/HazelcastHttpSession.java:180-187 | an invalidated session leaves both directories, is deleted from the map and records its container id |
| WebFilters.WebFilter.DestroyOriginalSession | src/main/java/com/hazelcast/web/WebFilter.java:126-134 | removes the container mapping; destroys (not invalidating) only a mapped, registered session |
| WebFilters.WebFilter.GetSessionWithId | src/main/java/com/hazelcast/web/WebFilter.java:245-252 | never returns an invalid session; an invalid one found is destroyed with invalidate |
| WebFilters.WebFilter.SessionExistsInTheCluster | src/main/java/com/hazelcast/web/WebFilter.java:171-177 | true iff an id is given and the map contains it |
| WebFilters.WebFilter.CreateHazelcastHttpSession | src/main/java/com/hazelcast/web/WebFilter.java:211-214 | the new session takes the id, container session and configured modes |
| WebFilters.WebFilter.AddSessionCookie | src/main/java/com/hazelcast/web/WebFilter.java:254-289 | exactly one session cookie is added to the response |
| WebFilters.WebFilter.CreateNewSession | src/main/java/com/hazelcast/web/WebFilter.java:179-201 | none iff not creating and the id is not in the cluster; reuses an id the cluster has, else a fresh one; cluster-wide new only without a supplied id |
| WebFilters.WebFilter.WriteDeferred | src/main/java/com/hazelcast/web/WebFilter.java:300-306 | the deferred write runs only for a present, valid session in deferred mode |
| WebFilters.WebFilter.DoFilter | src/main/java/com/hazelcast/web/WebFilter.java:292-307 | the session seen at the end of the request is the wrapper's and is valid |
| WebFilters.WebFilter.Destroy | src/main/java/com/hazelcast/web/WebFilter.java:310-316 | clears both directories and shuts the service down iff configured |
| WebFilters.HazelcastRequestWrapper.constructor | src/main/java/com/hazelcast/web/WebFilter.java:322-326 | a wrapper starts with no Hazelcast session and no added cookie |
| WebFilters.HazelcastRequestWrapper.GetOriginalSession | src/main/java/com/hazelcast/web/WebFilter.java:328-336 | the existing container session, or a new one only when asked to create |
| WebFilters.HazelcastRequestWrapper.FindHazelcastSessionIdFromRequest | src/main/java/com/hazelcast/web/WebFilter.java:467-488 | the loop finds the first matching cookie's value, else the permitted parameter |
| WebFilters.HazelcastRequestWrapper.ReadFromCookie | src/main/java/com/hazelcast/web/WebFilter.java:454-464 | a valid session under the request's id is kept; only a non-sticky one is returned, marked for reload |
| WebFilters.HazelcastRequestWrapper.ReadSessionFromLocal | src/main/java/com/hazelcast/web/WebFilter.java:410-452 | keeps a valid held session; otherwise the request's id overrides the mapped one; an invalid one is dropped |
| WebFilters.HazelcastRequestWrapper.ReadFromMapping | src/main/java/com/hazelcast/web/WebFilter.java:421-438 | with an id from the request or the mapping it looks the session up, refreshes the reload flag of a non-sticky one and returns; otherwise nothing changes |
| WebFilters.HazelcastRequestWrapper.GetSession | src/main/java/com/hazelcast/web/WebFilter.java:368-375 | the result is the wrapper's session, valid, and present whenever creating on an uncommitted response |
| WebFilters.HazelcastRequestWrapper.ChangeSessionId | src/main/java/com/hazelcast/web/WebFilter.java:383-408 | drops the old mappings, destroys the old session with invalidate and registers a cluster-wide new session under a fresh id |
| WebFilters.WebFilter.UnfileAndInvalidate | src/main/java/com/hazelcast/web/WebFilter.java:394-395 | the session leaves the local map, is no longer valid, and its cluster entry is deleted with invalidate |
| WebFilters.HazelcastRequestWrapper.RegisterRenamed | src/main/java/com/hazelcast/web/WebFilter.java:398-405 | renames the container session and registers the new session under the generated id |

## Left out

- Threading and timers: the scheduled executor that re-runs ensureInstance, the
  daemon thread factory and the `synchronized` blocks are not modelled; the
  caller passes `now` and the operations run one at a time.
- HazelcastInstanceLoader.java is not part of this model; loading an instance
  is a `loadOk` flag.
- Serialization internals (toData / toObject, IOUtil, writeUTF byte layouts,
  the factory id) are abstract: a value is an opaque `Blob`, and the stream is a
  sequence of tokens.
- SessionStates.SessionState.ReadData: a null data item in the stream is
  treated as malformed input, because a stored attribute map holds no nulls.
- Remote failures are one `ok` flag per call on the session and service, but
  one flag shared by all remote calls of a request-level WebFilter or wrapper
  operation; a request where one call reaches the cluster and the next does
  not is not modelled.
- The remote store's idle TTL, containsKey's and getAsync's timing, and the
  internals of GetAttributeNamesEntryProcessor (not part of this model) are
  left out; names are read as "the stored names, or null when absent".
- Servlet plumbing: the request dispatcher override, the wrapper-unwrapping
  loop, `chain.doFilter` (the application itself), Cookie object construction,
  the HttpOnly NoSuchMethodError fallback, the container's
  `originalSession.invalidate()` calls, the comparison with
  invalidatedOriginalSessionId, SessionListener and the reflection in Utils.java
  (whether the container has changeSessionId is a parameter).
- WebFilters.SessionCookieFor: no max-age, because WebFilter calls
  `config.getCookieMaxAge()`, which this version's WebFilterConfig.java does not
  define.
- FilterConfig.ConfigUrl: servlet-context and class-path resource lookup are a
  map from location to URL.
- FilterConfig.Params: java.util.Properties defaults are not modelled; a key
  mapped to a non-String value reads as null.
- Strings.EqualsIgnoreCase, Strings.UpperChar and FilterConfig.ParseInt cover
  ASCII only: no Unicode case mapping and no non-ASCII digits.
- WebFilters.GenerateSessionId: the randomness of the UUID is not modelled; the
  UUID string is a parameter.
- Logging and the `LOGGER.isFinestEnabled` branches.

## Findings

| source | as written | input that shows it | evidently intended | confidence | as-written member | corrected member |
|---|---|---|---|---|---|---|
| src/main/java/com/hazelcast/web/HazelcastHttpSession.java:121 | getAttribute replaces the entry by `new LocalCacheEntry(false, value)`, so a transient name read from the cluster gets a non-transient entry | deferred write, transient name "t" not cached: getAttribute("t"), then setAttribute("t", v), then sessionDeferredWrite sends "t" | a transient name is never sent to the cluster | medium, not executed | HttpSessions.AsWrittenFetchLeaksTransient | HttpSessions.FetchKeepsWellFormed |

`HttpSessions.HazelcastHttpSession.GetAttribute` models line 121 as written,
and its contract says the cache invariant is lost for a transient name. The
corrected read, `HttpSessions.Fetched`, is what `FetchKeepsWellFormed` and
`FetchTracks` prove the intended property of.
