# webscale, modelled in Dafny

This project models the core of the webscale libraries. It has three groups.

- **Cache** (`webscale-cache`). The local cache is an insertion-ordered key/entry map. Its garbage collector has a TTL pass and a memory-pressure pass. A distributed cache keeps one peer per remote server and exchanges PUT and EVICT messages with them. A peer queues the messages it sends and reconnects with back-pressure.
- **Collections** (`webscale-collection`, `webscale-collection-express-api`).
  - A collection is a node in a tree of collections. It has primary fields, parent fields and a JSON schema.
  - A key/value connection turns id fields into a storage path.
  - The in-memory connection stores items in nested folders and reports CREATED, UPDATED and DELETED events.
  - The collection factory resolves options and registers collections with their children.
  - The Express binding derives endpoint paths, swagger parameters, operation ids and the streamed JSON list response.
- **Core utilities** (`webscale-core`): the levelled logger with its handlers, the configuration loader and `deepMerge`.

How JavaScript is represented:

- JavaScript values are a datatype: `undefined`, `null`, booleans, integers, strings and objects.
- A JavaScript `Map` is a sequence of pairs in insertion order.
- An item of a collection is a `map<string, string>`.
- Objects whose fields the source updates in place are classes: `LocalCache`, `Peer`, `DistributedCache`, `InMemoryConnection`, `Collection`, `CollectionFactory`, `Logger`, the logger's static state, and `Config`.
- Loops of the source are `while` loops proved against specification functions. The properties the source promises are lemmas about those functions.

What the environment supplies is a parameter:

- The clock is an explicit `now`.
- `encodeURIComponent`, `JSON.stringify` and the compiled Ajv validator are function-typed parameters.
- The outcome of a socket or server bind is an argument.
- The datasource of a collection is the `InMemoryConnection` passed to it.

The code is modelled as written, including these defects. Each is stated as a lemma.

- In `garbageCollect` the debounce test is inverted: `now <= lastGC + gcMinSweep` runs the sweep. The TTL test deletes entries whose `time + timeout >= now`, so it deletes exactly the entries that have not yet expired.
- In the pressure pass, `newestKey` is never assigned, so the swap branch is dead. The first entries are evicted.
- A removed server without a peer gives `findIndex` = -1, and `splice(-1, 1)` then drops the last peer.
- The peer queue's `mergeMap` never completes its first send, so at most the first message is ever written.
- In the in-memory connection, `deleteFolder` is only called with one segment, so empty folders are never pruned.
- `getEndpointPath`, and the item path built from it, put no "/" between a name and its field parameters: `:f` follows `/name` directly.
- In `deepMerge` the object branch does not return, so merging two objects gives `undefined` and nested sections are lost.
- `getFromObject` splits on the literal two-character string `\.`. A dotted property is therefore never split into segments.

## Model

| member | source | states |
|---|---|---|
| Strings.Split | webscale-core/src/config/config.ts:85 | `split` with a non-empty separator always yields at least one piece |
| Strings.JoinSplit | webscale-core/src/config/config.ts:85 | splitting and joining with the same separator gives back the string |
| Strings.SplitWithoutSeparator | webscale-core/src/config/config.ts:85 | a string without the separator splits into itself alone |
| Strings.SplitJoin | webscale-collection-express-api/src/factory/express-collection.factory.ts:329-337 | joining pieces free of a one-character separator and splitting again returns the pieces |
| Strings.SplitAfterPiece | webscale-collection-express-api/src/factory/express-collection.factory.ts:329-337 | a separator-free first piece splits off first |
| Strings.OccursInJoin | webscale-collection-express-api/src/factory/express-collection.factory.ts:329-337 | every joined piece occurs in the joined string |
| Strings.ToLower | webscale-collection/src/collection.ts:342 | lower-casing keeps the length and maps each character |
| Strings.LowerIdempotent | webscale-collection/src/collection.ts:342 | lower-casing twice is lower-casing once |
| JsValues.TruthyObjectIsObj | webscale-core/src/utils/object.utils.ts:16 | a value is truthy with typeof "object" exactly when it is an object |
| ObjectUtils.MergedMap | webscale-core/src/utils/object.utils.ts:16-25 | a property map that follows the per-property rules of the object branch is the merged map |
| ObjectUtils.MergeProps | webscale-core/src/utils/object.utils.ts:16-25 | the property loop of `deepMerge`: for every property of the second object, a truthy value is copied in when the first object has no truthy value there, two truthy values are merged recursively, and every other property keeps the first object's value |
| ObjectUtils.DeepMerge | webscale-core/src/utils/object.utils.ts:12-29 | different types or non-objects yield `o2` and leave `o1`; two objects update `o1` in place and yield `undefined`; a truthy property of a null target is a TypeError |
| Config.GetFromObject | webscale-core/src/config/config.ts:84-94 | the lookup walks the segments of the property split on `\.`, stopping at a falsy value |
| Config.WalkAppend | webscale-core/src/config/config.ts:86-93 | walking two segment lists in turn is walking their concatenation |
| Config.NoBackslashIsOneKey | webscale-core/src/config/config.ts:84-94 | a property without a backslash is a single key and never descends into nested objects |
| Config.DottedPathMissesNestedValue | webscale-core/src/config/config.ts:85 | `server.port` does not reach a nested `port` value |
| Config.MergeAllSnoc | webscale-core/src/config/config.ts:55-66 | merging one more source is one more `deepMerge` step on the accumulated result |
| Config.MergeAllIsObject | webscale-core/src/config/config.ts:55-66 | the merged configuration is always an object |
| Config.LastSourceWins | webscale-core/src/config/config.ts:55-66 | a truthy non-object property of the last source wins over earlier sources |
| Config.NestedSectionIsLost | webscale-core/src/config/config.ts:55-66 | a section that two sources both define as an object becomes `undefined` |
| Config.Registry.constructor | webscale-core/src/config/config.ts:17-22 | no configuration instance exists at first |
| Config.Registry.Get | webscale-core/src/config/config.ts:17-22 | static `get` fails with "Config is not initialized" without an instance and otherwise delegates to it |
| Config.Config.constructor | webscale-core/src/config/config.ts:28-31 | the new configuration becomes the static instance, with no source loaded yet |
| Config.Config.Get | webscale-core/src/config/config.ts:39-45 | a falsy lookup gives the default, or `undefined` when there is none |
| Config.Config.Load | webscale-core/src/config/config.ts:51-76 | load runs once: a loaded source is kept; otherwise all sources are merged in list order into a fresh object |
| Logging.Rank | webscale-core/src/logger/logger.ts:11-19 | each level has a rank from 1 to 7 |
| Logging.RankOrdersLevels | webscale-core/src/logger/logger.ts:11-19 | `silly`..`off` are strictly ordered; two levels pass each other only when they are equal |
| Logging.ThresholdExtremes | webscale-core/src/logger/logger.ts:338-340 | every level passes the `silly` threshold; only `off` passes the `off` threshold; `off` passes every threshold |
| Logging.FindByName | webscale-core/src/logger/logger.ts:79-90 | the handler found is the first registered one with that name, and none means no handler has it |
| Logging.LoggerRegistry.constructor | webscale-core/src/logger/logger.ts:160-177 | the global level is INFO, there are no loggers, and one console handler is registered and another in use |
| Logging.LoggerRegistry.Create | webscale-core/src/logger/logger.ts:37-44 | a known namespace returns its logger; a new one makes and registers a logger for that namespace |
| Logging.LoggerRegistry.CreateDefault | webscale-core/src/logger/logger.ts:37-44 | with no argument the logger of the default namespace is returned |
| Logging.LoggerRegistry.RegisterHandler | webscale-core/src/logger/logger.ts:70-72 | the handler is appended to the registered handlers, and nothing else changes |
| Logging.LoggerRegistry.UseHandler | webscale-core/src/logger/logger.ts:79-90 | a known handler is appended to the global handlers; an unknown one throws "Unknown log handler" and appends nothing |
| Logging.LoggerRegistry.Configure | webscale-core/src/logger/logger.ts:50-64 | the level is set and the stored properties get the emptied handler list; the requested global handlers are never walked, so the global handlers in use stay as they were; the namespaces are configured in order, the first one with an unknown handler (`FailedAt`) ends the call with that error, and the loggers become `StatesAfter` of the namespaces reached |
| Logging.LoggerRegistry.ConfigureAll | webscale-core/src/logger/logger.ts:59-63 | the loop over the namespaces: the first failing namespace ends it with "Unknown log handler", and the loggers become `StatesAfter` of the namespaces reached; the level and stored properties are untouched |
| Logging.LoggerRegistry.ConfigureNext | webscale-core/src/logger/logger.ts:60-62 | one more namespace: it fails exactly when `FailedAt` of the longer prefix names it, and the loggers become `StatesAfter` of the longer prefix |
| Logging.LoggerRegistry.ConfigureNamespace | webscale-core/src/logger/logger.ts:61 | `Logger.create(namespace).configure(...)`: the namespace's logger gets the requested level (or keeps its own) and its old handlers followed by those of the references before the first unknown one; the call fails exactly when some reference is unknown; every other logger keeps its level and handlers, and the global level, handlers and default properties are untouched |
| Logging.Logger.constructor | webscale-core/src/logger/logger.ts:194-195 | a new logger has no own level and no own handlers |
| Logging.Logger.Level | webscale-core/src/logger/logger.ts:238-240 | the level is the logger's own level, otherwise the global one |
| Logging.Logger.Handlers | webscale-core/src/logger/logger.ts:242-244 | the handlers are the global handlers followed by the logger's own |
| Logging.Logger.ShouldLog | webscale-core/src/logger/logger.ts:338-340 | a level passes exactly when its rank is at least the rank of the effective level |
| Logging.Logger.SetLevel | webscale-core/src/logger/logger.ts:230-232 | the own level is set and the handlers are unchanged |
| Logging.Logger.UseHandler | webscale-core/src/logger/logger.ts:213-224 | a known handler is appended to the own handlers; an unknown one throws and appends nothing |
| Logging.Logger.Configure | webscale-core/src/logger/logger.ts:197-206 | a given level is set, then the handlers are used in order; the call fails exactly when some reference is unknown (`FirstUnknown`), and the own handlers become the old ones followed by those of the references before the first unknown one |
| Logging.Resolve | webscale-core/src/logger/logger.ts:213-218 | a handler object is itself; a name finds a registered handler of that name, and none exactly when no registered handler has it |
| Logging.ResolveAllMeaning | webscale-core/src/logger/logger.ts:201-205 | at most one handler per reference, each registered or given directly; when every reference resolves, one handler per reference, in order |
| Logging.FirstUnknown | webscale-core/src/logger/logger.ts:201-205 | the index of the first unknown reference lies within the list |
| Logging.FirstUnknownMeaning | webscale-core/src/logger/logger.ts:197-206 | the first unknown reference is unknown and every one before it resolves; there is none exactly when every reference resolves |
| Logging.FailedAtMeaning | webscale-core/src/logger/logger.ts:59-63 | the failing namespace has an unknown reference and every namespace before it has none; there is none exactly when no namespace has one |
| Logging.StatesAfterKeys | webscale-core/src/logger/logger.ts:37-44 | after configuring namespaces, a logger exists exactly for the names that had one before or were configured |
| Logging.StatesAfterOthers | webscale-core/src/logger/logger.ts:59-63 | a logger of a namespace not configured keeps its level and handlers |
| Logging.StatesAfterVisited | webscale-core/src/logger/logger.ts:59-63 | with distinct names, each configured namespace's logger is its previous state configured by that namespace's options |
| Logging.Logger.Log | webscale-core/src/logger/logger.ts:270-295 | a passing level makes one call per handler, in order, on the method named by the level, passing the logger, the message and the optional parameters unchanged; `off` throws "Unknown loglevel"; a level that does not pass does nothing |
| Logging.ResolveAllSnoc | webscale-core/src/logger/logger.ts:197-206 | resolving one more handler reference appends its handler |
| Logging.OffAlwaysThrows | webscale-core/src/logger/logger.ts:270-295 | logging at `off` always passes the threshold, then throws without reaching a handler |
| LocalCaching.WithDefaults | webscale-cache/src/local-cache.ts:12-20 | an unset or zero option becomes 60000, 5000, 10000 or 0.9 |
| LocalCaching.TtlPass | webscale-cache/src/local-cache.ts:63-68 | the TTL pass never grows the storage |
| LocalCaching.TtlPassKeeps | webscale-cache/src/local-cache.ts:63-68 | the TTL pass keeps, in order, exactly the entries the inverted test does not select |
| LocalCaching.TtlPassUnique | webscale-cache/src/local-cache.ts:63-68 | the TTL pass keeps the storage free of duplicate keys |
| LocalCaching.NoTimeoutSurvivesTtl | webscale-cache/src/local-cache.ts:64 | an entry without a timeout survives the TTL pass |
| LocalCaching.VictimCount | webscale-cache/src/local-cache.ts:73-96 | the pressure pass selects the excess over the threshold rounded up, at most the whole storage |
| LocalCaching.SelectVictims | webscale-cache/src/local-cache.ts:73-96 | the victims are the first entries; the swap branch never fires because `newestKey` stays undefined |
| LocalCaching.PressureBound | webscale-cache/src/local-cache.ts:69-101 | after the pressure pass the size is at most the threshold, and exactly the rounded-up excess was removed |
| LocalCaching.SweepOnlyDeletes | webscale-cache/src/local-cache.ts:59-103 | a sweep only deletes: every entry left was in storage, unchanged, with no duplicate keys |
| LocalCaching.DebounceIsInverted | webscale-cache/src/local-cache.ts:60-62 | the first sweep runs; after a sweep at `t`, any request later than `t + gcMinSweep` is skipped and keeps `lastGC`, so no later sweep ever runs |
| LocalCaching.DropEntry | webscale-cache/src/local-cache.ts:97-100 | deleting the key of an entry drops exactly that entry |
| LocalCaching.LocalCache.constructor | webscale-cache/src/local-cache.ts:12-20 | the settings are the defaults applied to the options; the storage is empty and no sweep has run |
| LocalCaching.LocalCache.Evict | webscale-cache/src/local-cache.ts:22-26 | the key is removed, if present, and nothing else changes |
| LocalCaching.LocalCache.Get | webscale-cache/src/local-cache.ts:28-32 | a value is found exactly when the key is stored, and it is that entry's value |
| LocalCaching.LocalCache.GetRaw | webscale-cache/src/local-cache.ts:34-37 | an entry is found exactly when the key is stored, and it is the stored entry |
| LocalCaching.LocalCache.GarbageCollect | webscale-cache/src/local-cache.ts:59-103 | storage and `lastGC` become the collected state: debounce, then the TTL pass, then the pressure pass |
| LocalCaching.LocalCache.TtlSweep | webscale-cache/src/local-cache.ts:63-68 | deleting while iterating leaves exactly the TTL pass of the old storage |
| LocalCaching.TtlDeletes | webscale-cache/src/local-cache.ts:63-68 | the TTL loop over the storage, deleting while it iterates, leaves exactly the TTL pass of the snapshot: in their order, the entries the source's expiry test does not select (it selects an entry with a timeout whose `time + timeout >= now`, an inverted test) |
| LocalCaching.LocalCache.PressureSweep | webscale-cache/src/local-cache.ts:97-100 | deleting the victims one by one leaves exactly the pressure pass of the old storage |
| LocalCaching.LocalCache.Put | webscale-cache/src/local-cache.ts:39-57 | storage, `lastGC` and the answer follow the put outcome: a pre-sweep when full, a rejection when still full, otherwise an entry stamped `now` |
| LocalCaching.PutOutcomeMeaning | webscale-cache/src/local-cache.ts:39-57 | a put is rejected and stores nothing new, or it resolves to the value, maps the key to an entry stamped `now` and keeps every other surviving key |
| CacheMessages.PutMessage | webscale-cache/src/peer.ts:65-76 | the PUT message carries type, time, key and value, with `timeout` only when the evict timeout is truthy |
| CacheMessages.EvictMessage | webscale-cache/src/peer.ts:56-63 | the EVICT message carries exactly type, time and key |
| CacheMessages.Validate | webscale-cache/src/distributed-cache.ts:67-81 | a message is accepted exactly when its type, key, time, value and timeout pass the handler's checks |
| CacheMessages.PutRoundTrip | webscale-cache/src/distributed-cache.ts:67-81 | a PUT built by a peer is accepted exactly when its key is non-empty, the clock is positive and the value is defined, and it decodes to what was sent |
| CacheMessages.EvictRoundTrip | webscale-cache/src/distributed-cache.ts:67-81 | an EVICT built by a peer is accepted exactly when its key is non-empty and the clock is positive |
| Peers.Peer.constructor | webscale-cache/src/peer.ts:18-25 | a new peer is disconnected, not closed, with counter 0, one connect call and nothing queued |
| Peers.Peer.Close | webscale-cache/src/peer.ts:35-46 | the peer is closed for good, and its connection, queue and written messages are unchanged (the socket is not modelled) |
| Peers.Peer.EnsureConnectedThenWrite | webscale-cache/src/peer.ts:109-117 | a connected peer writes at once; otherwise the message waits for the resume callback, which replaces any earlier one |
| Peers.Peer.Enqueue | webscale-cache/src/peer.ts:48-54 | the message is appended to the queue; with no send active it is sent (written at once when connected, else waiting for the resume callback); otherwise it is buffered behind the active one and nothing else changes; the peer's connection, its closed flag, its back-pressure and its connect, socket-end and reconnect counters stay |
| Peers.Peer.Put | webscale-cache/src/peer.ts:65-76 | the PUT message is appended to the queue; with a send active nothing else changes; otherwise it becomes the active send and is written at once exactly when the peer is connected, or else waits for the resume callback; the peer's connection, its closed flag, its back-pressure and its connect, socket-end and reconnect counters stay |
| Peers.Peer.Evict | webscale-cache/src/peer.ts:56-63 | the EVICT message is appended to the queue; with a send active nothing else changes; otherwise it becomes the active send and is written at once exactly when the peer is connected, or else waits for the resume callback; the peer's connection, its closed flag, its back-pressure and its connect, socket-end and reconnect counters stay |
| Peers.Peer.ConnectCallback | webscale-cache/src/peer.ts:81-91 | a closed peer ends the socket; otherwise it is connected, the counter drops by one and the waiting write runs |
| Peers.Peer.SocketClosed | webscale-cache/src/peer.ts:96-106 | the peer is disconnected; unless it is closed, the counter grows and a reconnect is scheduled after `100 * counter` ms |
| Peers.Peer.ReconnectTimer | webscale-cache/src/peer.ts:78-107 | the timer calls `connect()` once more, and nothing else changes, the resume callback included |
| Peers.FirstConnect | webscale-cache/src/peer.ts:81-91 | the first connect of a fresh peer leaves the counter at -1 |
| Peers.QueueStalls | webscale-cache/src/peer.ts:20-22 | without a connection, however many messages are queued none is written |
| Peers.OnlyFirstIsWritten | webscale-cache/src/peer.ts:20-22 | once connected, only the first message is written and every later one stays buffered |
| DistributedCaching.FindIndex | webscale-cache/src/distributed-cache.ts:27 | the index of the first peer for that server, or -1 when none is |
| DistributedCaching.SplicePartitions | webscale-cache/src/distributed-cache.ts:28 | splicing removes exactly one peer when there is one, and keeps the others in order |
| DistributedCaching.SpliceDistinct | webscale-cache/src/distributed-cache.ts:28 | splicing a repetition-free list keeps it repetition-free, without the removed peer |
| DistributedCaching.UnknownServerDropsLast | webscale-cache/src/distributed-cache.ts:27-29 | removing an unknown server drops the last peer |
| DistributedCaching.KnownServerDropsFirstMatch | webscale-cache/src/distributed-cache.ts:27-29 | removing a known server drops the first peer with its name |
| DistributedCaching.RemoveServersPartitions | webscale-cache/src/distributed-cache.ts:26-30 | removal loses no peer and invents none: the remaining and removed peers together are the peers before |
| DistributedCaching.EveryRemovalTakesAPeer | webscale-cache/src/distributed-cache.ts:26-30 | while peers remain, every removed server takes one peer, whatever its name |
| DistributedCaching.ConnectedCount | webscale-cache/src/distributed-cache.ts:158-160 | the count is exactly the number of connected peers (the size of the set of their indices); it is zero exactly when none is connected and full exactly when all are |
| DistributedCaching.StaleMessagesIgnored | webscale-cache/src/distributed-cache.ts:98-116 | a message not newer than the stored entry changes nothing, and an EVICT for an absent key changes nothing |
| DistributedCaching.AcceptedEvictRemoves | webscale-cache/src/distributed-cache.ts:110-116 | an accepted EVICT removes that key and keeps the others |
| DistributedCaching.Received | webscale-cache/src/distributed-cache.ts:98-116 | a message that fails its test (`receivePut`'s or `receiveEvict`'s) changes nothing; an EVICT never changes the GC mark; an accepted EVICT removes its key and keeps all the others |
| DistributedCaching.AcceptedPutRestamped | webscale-cache/src/distributed-cache.ts:98-104 | an accepted PUT stores the message's value stamped with the receiver's clock `now` and leaves the GC mark alone, so the same message delivered again is accepted again exactly when `now` is behind the message's time (the `existingEntry.time < message.time` guard) |
| DistributedCaching.NewPeers | webscale-cache/src/distributed-cache.ts:25 | one fresh, distinct peer per created server, in order |
| DistributedCaching.DistributedCache.constructor | webscale-cache/src/distributed-cache.ts:19-33 | a fresh default local cache and one new peer per server, with no server open |
| DistributedCaching.DistributedCache.OnChange | webscale-cache/src/distributed-cache.ts:24-31 | new peers are appended for created servers, then the removal loop takes and closes one peer per removed server; a closed peer that was there before keeps its connection flag, its queue and what it wrote, and a closed new peer is disconnected with nothing queued or written |
| DistributedCaching.DistributedCache.RemovePeers | webscale-cache/src/distributed-cache.ts:26-30 | the peers become those the removal loop leaves, and the removed ones are closed, each keeping its connection flag, its queue and what it wrote |
| DistributedCaching.SpliceServers | webscale-cache/src/distributed-cache.ts:26-29 | the loop of splices leaves the peers and takes out the peers that the removal specification names |
| DistributedCaching.CloseAll | webscale-cache/src/distributed-cache.ts:29 | every peer taken out is closed, and its connection, queue and written messages are unchanged |
| DistributedCaching.RemoveServersDistinct | webscale-cache/src/distributed-cache.ts:26-30 | from repetition-free peers, the remaining and the removed peers are each repetition-free, come from the peers before, and share none |
| DistributedCaching.RemoveServersStep | webscale-cache/src/distributed-cache.ts:27-28 | one more removed server splices out the peer `findIndex` finds among the remaining ones and, when there is one, adds it to the removed peers |
| DistributedCaching.FirstMatchFound | webscale-cache/src/distributed-cache.ts:27 | `findIndex` gives the first position whose peer has the server name |
| DistributedCaching.DistributedCache.Open | webscale-cache/src/distributed-cache.ts:39-55 | an open server rejects; a bind error rejects with that error; otherwise the server is set |
| DistributedCaching.DistributedCache.Close | webscale-cache/src/distributed-cache.ts:118-129 | without a server it is a TypeError and no peer is closed; otherwise every peer is closed and keeps its connection, written messages and reconnect delays |
| DistributedCaching.DistributedCache.AcceptConnection | webscale-cache/src/distributed-cache.ts:61-63 | an incoming socket adds one to the incoming count, and nothing else changes |
| DistributedCaching.DistributedCache.ConnectionEnded | webscale-cache/src/distributed-cache.ts:89-91 | an ended socket subtracts one from the incoming count |
| DistributedCaching.DistributedCache.OutgoingPeers | webscale-cache/src/distributed-cache.ts:158-160 | exactly the number of connected peers, the size of the set of their indices |
| DistributedCaching.DistributedCache.HandleMessage | webscale-cache/src/distributed-cache.ts:64-88 | an invalid message is dropped; a valid one is received as a PUT or an EVICT |
| DistributedCaching.DistributedCache.ReceivePut | webscale-cache/src/distributed-cache.ts:98-104 | the local state becomes the received state of the PUT |
| DistributedCaching.DistributedCache.ReceiveEvict | webscale-cache/src/distributed-cache.ts:110-116 | the local state becomes the received state of the EVICT |
| DistributedCaching.DistributedCache.Put | webscale-cache/src/distributed-cache.ts:147-156 | the local put runs first, and only a resolved put sends the PUT to every peer (`Sent`): an idle connected peer writes it at once, an idle disconnected one keeps it waiting, a busy one buffers it; no peer's connection, closed flag or counters change; a rejected put leaves every peer unchanged |
| DistributedCaching.DistributedCache.SendPut | webscale-cache/src/distributed-cache.ts:150-152 | every peer has exactly one PUT message for the key, value and timeout, stamped `now`, appended to its queue (`Sent`): an idle connected peer writes it at once, an idle disconnected one keeps it waiting, a busy one buffers it; no peer's connection, closed flag or counters change |
| DistributedCaching.DistributedCache.Evict | webscale-cache/src/distributed-cache.ts:131-137 | the key leaves the local cache and every peer gets the EVICT (`Sent`): an idle connected peer writes it at once, an idle disconnected one keeps it waiting, a busy one buffers it; no peer's connection, closed flag or counters change |
| DistributedCaching.DistributedCache.SendEvict | webscale-cache/src/distributed-cache.ts:133-135 | every peer has exactly one EVICT message for the key, stamped `now`, appended to its queue (`Sent`): an idle connected peer writes it at once, an idle disconnected one keeps it waiting, a busy one buffers it; no peer's connection, closed flag or counters change |
| DistributedCaching.DistributedCache.Get | webscale-cache/src/distributed-cache.ts:139-141 | the local value, found exactly when the key is stored |
| DistributedCaching.DistributedCache.GetRaw | webscale-cache/src/distributed-cache.ts:143-145 | the local entry, found exactly when the key is stored |
| KeyValue.MissingFields | webscale-collection/src/datasource/key-value.connection.ts:75-89 | the fields with a falsy value, in order, and no others |
| KeyValue.MissingFieldsAppend | webscale-collection/src/datasource/key-value.connection.ts:97-111 | the missing fields of concatenated lists are those of each part, in order |
| KeyValue.Encoded | webscale-collection/src/datasource/key-value.connection.ts:75-89 | one encoded segment per field, in order |
| KeyValue.FieldPath | webscale-collection/src/datasource/key-value.connection.ts:75-89 | the path fails exactly when some field is missing, listing all of them; otherwise it is the encoded values, one per field |
| KeyValue.CollectionPathMeaning | webscale-collection/src/datasource/key-value.connection.ts:75-89 | the path fails exactly when some parent id field is missing, with the error listing the missing ones; otherwise it is the encoded parent values, one per parent field |
| KeyValue.ItemPathMeaning | webscale-collection/src/datasource/key-value.connection.ts:97-111 | the path fails exactly when a parent or primary id field is missing; otherwise it is the encoded parent values followed by the encoded primary values |
| KeyValue.CollectionPathIsPrefix | webscale-collection/src/datasource/key-value.connection.ts:97-111 | an item path exists only where its collection path does, and extends it by one segment per primary field |
| KeyValue.TwoMissingFields | webscale-collection/src/datasource/key-value.connection.ts:97-111 | with both fields missing, the error names them in field order |
| Datasource.Passes | webscale-collection/src/datasource/connection.ts:55-70 | no search passes every event; with a search, an event with `before` is judged by `before` alone, and an event with neither `before` nor `after` is rejected |
| Datasource.WatchByFilter | webscale-collection/src/datasource/connection.ts:53-74 | the filtered stream is no longer than the stream; its contents, counts and order are the lemmas below |
| Datasource.WatchByFilterContents | webscale-collection/src/datasource/connection.ts:53-74 | every event shown belongs to the collection and passes the filter, and every such event of the stream is shown |
| Datasource.WatchByFilterCounts | webscale-collection/src/datasource/connection.ts:53-74 | each passing event is shown as many times as the stream holds it, and no other event is shown |
| Datasource.WatchByFilterCons | webscale-collection/src/datasource/connection.ts:53-74 | the first event of the stream is judged first |
| Datasource.WatchByFilterAppend | webscale-collection/src/datasource/connection.ts:53-74 | the filter keeps the order of the stream: on two streams one after the other it shows what it shows of the first, then what it shows of the second |
| Datasource.WatchByFilterSnoc | webscale-collection/src/datasource/connection.ts:53-74 | one more event is shown after everything shown before, exactly when it passes |
| Datasource.WatchByFilterPrefixes | webscale-collection/src/datasource/connection.ts:53-74 | what was shown at any earlier point is a prefix of what is shown now |
| Datasource.BeforeDecides | webscale-collection/src/datasource/connection.ts:56-61 | when `before` is present, the event is judged by `before` alone |
| Datasource.EmptySearch | webscale-collection/src/datasource/connection.ts:53-74 | the empty search passes exactly the events that have `before` or `after` |
| Datasource.StaleBeforeRejects | webscale-collection/src/datasource/connection.ts:56-61 | a `before` that disagrees rejects the event even when `after` agrees |
| InMemoryTree.FromPathAppend | webscale-collection/src/datasource/in-memory.connection.ts:138-149 | walking `p + q` is walking `p`, then `q` from where it ended |
| InMemoryTree.FromPathStep | webscale-collection/src/datasource/in-memory.connection.ts:138-149 | a walk from a folder takes its first segment first |
| InMemoryTree.PrefixStep | webscale-collection/src/datasource/in-memory.connection.ts:25-34 | a walk along a prefix goes through its first segment |
| InMemoryTree.SaveInEmpty | webscale-collection/src/datasource/in-memory.connection.ts:25-38 | folders created on the way held nothing before |
| InMemoryTree.ConflictUnchanged | webscale-collection/src/datasource/in-memory.connection.ts:25-34 | a save that meets an item changes nothing |
| InMemoryTree.ConflictIffLeafOnPrefix | webscale-collection/src/datasource/in-memory.connection.ts:25-34 | a save conflicts exactly when an item lies on the way to the basename |
| InMemoryTree.SaveInFolder | webscale-collection/src/datasource/in-memory.connection.ts:18-38 | a save without conflict sets the basename in the folder at the prefix and reports what it held |
| InMemoryTree.LookupLast | webscale-collection/src/datasource/in-memory.connection.ts:49-58 | what a walk to `prefix + [b]` finds is what `b` holds in the folder at `prefix` |
| InMemoryTree.ReachableNotBlocked | webscale-collection/src/datasource/in-memory.connection.ts:138-149 | a walk that reaches something meets no item on the way |
| InMemoryTree.ReplaceAtLookup | webscale-collection/src/datasource/in-memory.connection.ts:81-107 | after a folder is replaced, walks through it see the new children and every other walk is unchanged |
| InMemoryTree.RemoveFromFolder | webscale-collection/src/datasource/in-memory.connection.ts:81-107 | deleting `b` keeps the folder in place without `b` |
| InMemoryTree.RemoveKeepsOtherItems | webscale-collection/src/datasource/in-memory.connection.ts:81-107 | deleting an item leaves every other walk finding the same item |
| InMemoryTree.DeleteLeaf | webscale-collection/src/datasource/in-memory.connection.ts:81-107 | the folder stays without the item, empty exactly when no key is left, and every other item stays |
| InMemory.KeysAtFolder | webscale-collection/src/datasource/in-memory.connection.ts:60-79 | the keys found are those of the folder at the path; a missing folder has none |
| InMemory.ItemAtLast | webscale-collection/src/datasource/in-memory.connection.ts:49-58 | the item at `prefix + [b]` is what `b` holds in the folder at `prefix` |
| InMemory.SaveMeaning | webscale-collection/src/datasource/in-memory.connection.ts:18-47 | a save conflicts exactly when an item lies on the way, and then changes nothing; otherwise `get` finds the item and the event is CREATED or UPDATED with the old item |
| InMemory.SaveConflict | webscale-collection/src/datasource/in-memory.connection.ts:25-34 | a save conflicts exactly when an item already sits on one of the folder segments of the path, and a conflicting save leaves the store unchanged |
| InMemory.SaveStored | webscale-collection/src/datasource/in-memory.connection.ts:35-38 | after a successful tree update the path holds the saved item, and the value reported as previous is what the path held before |
| InMemory.SaveTwice | webscale-collection/src/datasource/in-memory.connection.ts:18-47 | saving twice at a path reports UPDATED with the first item, and `get` returns the second |
| InMemory.SaveAppendsKey | webscale-collection/src/datasource/in-memory.connection.ts:18-47 | a successful save adds the basename at the end of the parent's keys when it is new |
| InMemory.ChildrenInSaveOrder | webscale-collection/src/datasource/in-memory.connection.ts:60-79 | two new children of a new folder are listed in save order |
| InMemory.SecondChild | webscale-collection/src/datasource/in-memory.connection.ts:60-79 | saving a second, different key into a folder that holds one key lists the keys in the order they were saved |
| InMemory.DeleteRemovesItem | webscale-collection/src/datasource/in-memory.connection.ts:81-107 | a delete removes the item, keeps its parent folder even when empty, and changes nothing else |
| InMemory.DeleteEventId | webscale-collection/src/datasource/in-memory.connection.ts:90-100 | the DELETED event names the parent path exactly when the parent folder is left empty |
| InMemory.PruneTree | webscale-collection/src/datasource/in-memory.connection.ts:109-126 | the deletion walk computes the pruned tree |
| InMemory.UpToEmpty | webscale-collection/src/datasource/key-value.connection.ts:31-58 | the keys before the first empty key, where `getAll` stops |
| InMemory.ResumeStep | webscale-collection/src/datasource/in-memory.connection.ts:25-34 | one step down the walk of a save |
| InMemory.ResumeConflict | webscale-collection/src/datasource/in-memory.connection.ts:29-31 | a walk that meets an item stops with a conflict, leaving the tree as it was |
| InMemory.ResumeEnd | webscale-collection/src/datasource/in-memory.connection.ts:35-38 | at the end of the prefix the basename is set |
| InMemory.SaveInTree | webscale-collection/src/datasource/in-memory.connection.ts:25-38 | the loop computes the specified save on the tree |
| InMemory.InMemoryConnection.constructor | webscale-collection/src/datasource/in-memory.connection.ts:13-16 | a new connection has no collections and no events |
| InMemory.InMemoryConnection.GetFromPath | webscale-collection/src/datasource/in-memory.connection.ts:138-149 | the node the path leads to, if any |
| InMemory.InMemoryConnection.GetParentFromPath | webscale-collection/src/datasource/in-memory.connection.ts:128-136 | the folder at the path without its last segment |
| InMemory.InMemoryConnection.SaveForPath | webscale-collection/src/datasource/in-memory.connection.ts:18-47 | the store, the events and the answer become the specified save state |
| InMemory.InMemoryConnection.GetForPath | webscale-collection/src/datasource/in-memory.connection.ts:49-58 | the item stored at the path, if any |
| InMemory.InMemoryConnection.GetKeys | webscale-collection/src/datasource/in-memory.connection.ts:60-79 | the keys of the folder at the path |
| InMemory.InMemoryConnection.DeleteFolder | webscale-collection/src/datasource/in-memory.connection.ts:109-126 | the collection's tree becomes its pruned tree |
| InMemory.InMemoryConnection.DeleteForPath | webscale-collection/src/datasource/in-memory.connection.ts:81-107 | the store, the events and the answer become the specified delete state |
| InMemory.InMemoryConnection.Save | webscale-collection/src/datasource/key-value.connection.ts:14-20 | a missing field is the error of the item path and reaches no store; otherwise the item is saved at its path |
| InMemory.InMemoryConnection.Get | webscale-collection/src/datasource/key-value.connection.ts:22-29 | the item at the path of the search, or the item path's error |
| InMemory.InMemoryConnection.Delete | webscale-collection/src/datasource/key-value.connection.ts:60-67 | the deletion at the path of the search, or the item path's error |
| InMemory.InMemoryConnection.GetAll | webscale-collection/src/datasource/key-value.connection.ts:31-58 | what `get` finds under each key of the collection folder, in order, up to the first empty key |
| InMemory.InMemoryConnection.ItemsUpToEmpty | webscale-collection/src/datasource/key-value.connection.ts:38-53 | the `next()` chain of `getAll`: one item per key up to the first empty key, each the item stored at the folder path plus that key |
| InMemory.InMemoryConnection.Watch | webscale-collection/src/datasource/in-memory.connection.ts:155-157 | every event shown is a recorded event of the collection that passes the filter, and every such event is shown, as many times as it was recorded; what was shown at any earlier point is a prefix of what is shown now |
| Collections.RequireFields | webscale-collection/src/collection.ts:283-292 | each id field not yet required is appended once, keeping the earlier list |
| Collections.DescribeFields | webscale-collection/src/collection.ts:295-307 | each id property becomes a string titled by its field; the other properties are untouched |
| Collections.PrepareSchema | webscale-collection/src/collection.ts:274-308 | the prepared schema drops `$async`, sets the header keywords, requires every id field and describes each one |
| Collections.IdsOf | webscale-collection/src/collection.ts:359-365 | one entry per id field, holding the filter's value |
| Collections.NameParts | webscale-collection/src/collection.ts:372-374 | one part per primary field, with `undefined` rendered as "" |
| Collections.FindChild | webscale-collection/src/collection.ts:342 | the first child with the name, and none exactly when no child has it |
| Collections.UnknownIncludes | webscale-collection/src/collection.ts:345 | the includes that no child matches once lower-cased, in order |
| Collections.MatchedIncludes | webscale-collection/src/collection.ts:349 | the child matched by each include, in order |
| Collections.FetchItemMeaning | webscale-collection/src/collection.ts:145-161 | an item is returned only when it is stored at its path and matches the query |
| Collections.Restrict | webscale-collection/src/collection.ts:325 | the parent filter holds the query's values of the parent's id fields, and only those |
| Collections.CheckParent | webscale-collection/src/collection.ts:323-329 | one parent check: `getItem` on the parent with its id fields |
| Collections.CheckChain | webscale-collection/src/collection.ts:322-330 | the ancestors are checked from the root down and the first failure is returned; the result is the root-first outcome of the ancestors' checks |
| Collections.RootFirstMeaning | webscale-collection/src/collection.ts:322-330 | the check passes exactly when nothing fails; otherwise it reports the failure nearest the end of the chain |
| Collections.RootFirstStep | webscale-collection/src/collection.ts:322-330 | one step of the check from the far end |
| Collections.ParentFailures | webscale-collection/src/collection.ts:322-330 | the outcome of each parent check, nearest parent first |
| Collections.ParentsCheckRootFirst | webscale-collection/src/collection.ts:315-331 | the check passes exactly when no parent is missing; otherwise it reports the missing parent nearest the root |
| Collections.SaveItemThenGet | webscale-collection/src/collection.ts:178-193 | a successful save returns the item, reports it as `after` with the stored item as `before`, and `getItem` then finds it |
| Collections.SaveItemFailsEarly | webscale-collection/src/collection.ts:178-193 | a save that fails on a missing parent, an invalid item or a missing key field changes nothing |
| Collections.DeleteItemMeaning | webscale-collection/src/collection.ts:201-224 | delete answers true exactly when an item is stored at the query's path; it then reports DELETED and the item is gone; otherwise nothing changes |
| Collections.Collection.constructor | webscale-collection/src/collection.ts:21-58 | the collection keeps its fields, its schema is prepared for its id fields (`{}` when missing) and its validator is `compile` of that schema, it has no children or events yet, and it is appended to its parent's children while the parent's events stay |
| Collections.Collection.IdFieldsOrder | webscale-collection/src/collection.ts:230-232 | the id fields are the parent's primary fields, in order, followed by the collection's own |
| Collections.Collection.KeyIdFields | webscale-collection/src/collection.ts:230-232 | what a connection reads of the collection: its name, and its id fields split into the parent's and its own |
| Collections.Collection.GetNameSplits | webscale-collection/src/collection.ts:372-374 | with one primary field the name is that field's value ("" when it is missing); when no value holds "-", splitting the name at "-" gives back one value per primary field |
| Collections.Collection.Filter | webscale-collection/src/collection.ts:239-247 | no query passes every item; otherwise an item passes exactly when each query field is present in it with the same value |
| Collections.Collection.GetIds | webscale-collection/src/collection.ts:359-365 | one entry per parent or primary field, holding the filter's value |
| Collections.Collection.IncludeCollections | webscale-collection/src/collection.ts:337-352 | no includes gives none; otherwise the matched children, or a BadRequestError listing each unknown include |
| Collections.Collection.GetItem | webscale-collection/src/collection.ts:122-170 | no search is a BadRequestError; an unknown include is an error; otherwise the item is read and kept only when it matches the query |
| Collections.Collection.ParentChained | webscale-collection/src/collection.ts:318-321 | the parent of a chained collection is chained, and its ancestors follow it |
| Collections.Collection.ParentChain | webscale-collection/src/collection.ts:316-321 | the loop collects the ancestors, nearest first |
| Collections.Collection.CheckParentsExists | webscale-collection/src/collection.ts:315-331 | the result is the root-first check of the parent chain |
| Collections.Collection.SaveItem | webscale-collection/src/collection.ts:178-193 | the store, the events and the answer become the specified save state; the children are unchanged, and the schema is fixed at construction |
| Collections.Collection.DeleteItem | webscale-collection/src/collection.ts:201-224 | the store, the events and the answer become the specified delete state; the children are unchanged, and the schema is fixed at construction |
| CollectionFactories.NotEmpty | webscale-collection/src/factory/collection.factory.ts:127-136 | undefined, null and "" fall back to a truthy default or fail; an accepted value is non-empty |
| CollectionFactories.ResolveParent | webscale-collection/src/factory/collection.factory.ts:50-58 | only a non-empty parent name is looked up; an unknown one is an error; an instance is dropped |
| CollectionFactories.ResolveDefaults | webscale-collection/src/factory/collection.factory.ts:59-64 | version defaults to "v1"; the base path is the option's, else the factory's, else "/api"; the errors come in the order they are checked |
| CollectionFactories.ParentResolution | webscale-collection/src/factory/collection.factory.ts:50-58 | a parent given by name must be registered; one given as an instance is not used |
| CollectionFactories.CollectionFactory.constructor | webscale-collection/src/factory/collection.factory.ts:14 | a new factory has no collections |
| CollectionFactories.CollectionFactory.GetCollection | webscale-collection/src/factory/collection.factory.ts:104-106 | the collection registered under the name, found exactly when there is one |
| CollectionFactories.CollectionFactory.GetCollections | webscale-collection/src/factory/collection.factory.ts:112-118 | the registered collections in registration order |
| CollectionFactories.CollectionFactory.Collection | webscale-collection/src/factory/collection.factory.ts:45-97 | an existing name returns its collection; no options fails reading `options.parent`; otherwise the collection is created as `CollectionWith` states; in every case the collections registered before keep their events (their schemas are constants), and no collection but the parent has its children changed |
| CollectionFactories.CollectionFactory.CollectionWith | webscale-collection/src/factory/collection.factory.ts:45-97 | with options the collection is built from the resolved setup and registered, then its children are created in order; on success every child is registered; on a child's error some child is not registered before the call and every child before it is registered; the new collection's schema is prepared from `options.schema` (`{}` when there is none) for its id fields, its validator is `compile` of that schema, and it has no events; the collections registered before keep their events (their schemas are constants) |
| CollectionFactories.CollectionFactory.CreateNew | webscale-collection/src/factory/collection.factory.ts:66-94 | a new name is registered, then its children are created; earlier registrations are kept; on success every child is registered; on error the children before the failing one are registered, and the failing one was not registered before and either failed to resolve with that error or was registered by its own creation; the new collection's schema is prepared from `options.schema` (`{}` when there is none) for its id fields, its validator is `compile` of that schema, and it has no events; the collections registered before keep their events (their schemas are constants) |
| CollectionFactories.CollectionFactory.Register | webscale-collection/src/factory/collection.factory.ts:66-87 | a fresh collection built from the setup is registered under its name and appended to the order and to its parent's children; its schema is prepared from `options.schema` (`{}` when there is none), its validator is `compile` of that schema, and it has no events or children; the collections registered before keep their events (their schemas are constants) |
| CollectionFactories.Build | webscale-collection/src/factory/collection.factory.ts:66-77 | the new collection gets the resolved name, singular name, version, base path, readonly flag and parent; its primary field is the singular name plus "Id"; its parent fields are the parent's id fields; it stays a well-formed chain; its schema is prepared from `options.schema` (`{}` when there is none) and compiled into its validator; it has no events or children; it is appended to its parent's children, and the parent's events are unchanged |
| CollectionFactories.CollectionFactory.CreateChildren | webscale-collection/src/factory/collection.factory.ts:90-94 | each child is created in order, and the first error stops the loop; the children before it are registered, and the failing one either failed to resolve with that error (and stays unregistered) or was registered before a descendant failed; without an error every child is registered; the collections registered before keep their events (their schemas are constants) |
| CollectionFactories.CollectionFactory.CreateChild | webscale-collection/src/factory/collection.factory.ts:91-93 | one turn of the loop, `collection(child.name, child.options)` for the i-th child: earlier registrations are kept; the collections registered before keep their events (their schemas are constants); the child ends up registered, or it failed as `ChildFailed` describes |
| ExpressRoutes.FieldParams | webscale-collection-express-api/src/factory/express-collection.factory.ts:329-337 | one parameter per primary field: `:f` for express and `{f}` for swagger |
| ExpressRoutes.FieldPathSegments | webscale-collection-express-api/src/factory/express-collection.factory.ts:329-337 | the field path splits back into one parameter per field when no field holds "/" |
| ExpressRoutes.EndpointPath | webscale-collection-express-api/src/factory/express-collection.factory.ts:313-327 | the loop computes the specified path: base path, version, each ancestor from the root, then the name |
| ExpressRoutes.WriteParents | webscale-collection-express-api/src/factory/express-collection.factory.ts:321-324 | walking the chain from its far end appends, for each ancestor from the root down, "/" and its name and its field path to the start |
| ExpressRoutes.ChildUnderParentItem | webscale-collection-express-api/src/factory/express-collection.factory.ts:313-327 | a child's endpoint is its parent's item path followed by "/" and the child's name |
| ExpressRoutes.ItemPathMissesSlash | webscale-collection-express-api/src/factory/express-collection.factory.ts:19 | with one primary field `f`, the item path is the endpoint path followed by `:f`, with no "/" |
| ExpressRoutes.EndpointParams | webscale-collection-express-api/src/factory/express-collection.factory.ts:303-311 | one required path parameter per primary field, in order |
| ExpressRoutes.EndpointAllParams | webscale-collection-express-api/src/factory/express-collection.factory.ts:293-301 | the ancestors' parameters, nearest parent first |
| ExpressRoutes.AncestorParamsInPath | webscale-collection-express-api/src/factory/express-collection.factory.ts:120 | every ancestor parameter has its template in the ancestors' path |
| ExpressRoutes.ItemParamsInPath | webscale-collection-express-api/src/factory/express-collection.factory.ts:118-121 | every swagger item parameter has its `{name}` template in the item path, one per field along the chain |
| ExpressRoutes.OperationId | webscale-collection-express-api/src/factory/express-collection.factory.ts:127 | the prefix, then the name with its first character upper-cased |
| ExpressRoutes.OperationIdRecoversName | webscale-collection-express-api/src/factory/express-collection.factory.ts:127 | the name comes back from the id unless its first character was already upper case |
| ExpressRoutes.Operations | webscale-collection-express-api/src/factory/express-collection.factory.ts:122-273 | two operations when readonly and five otherwise; the list and get operations are always there, with ids `list` + the capitalised name and `get` + the capitalised singular name; a writable collection also has post on the list route and put and delete on the item route, each with its id; an operation other than get means the collection is writable |
| ExpressRoutes.OperationsDistinct | webscale-collection-express-api/src/factory/express-collection.factory.ts:122-273 | no two operations share an id or a route and verb |
| ExpressRoutes.Lines | webscale-collection-express-api/src/factory/express-collection.factory.ts:347 | one line per item, its JSON then a newline, with no commas |
| ExpressRoutes.JsonResponse | webscale-collection-express-api/src/factory/express-collection.factory.ts:339-359 | the header and "[\n" are written once, before the first item or at completion; then the lines; completion writes "]" and ends; an error is forwarded |
| ExpressRoutes.LinesJoin | webscale-collection-express-api/src/factory/express-collection.factory.ts:347-356 | the lines followed by "]" are the JSON texts and "]" joined by newlines |
| ExpressRoutes.CompletedBodyLines | webscale-collection-express-api/src/factory/express-collection.factory.ts:339-359 | a completed body splits on newlines into "[", one JSON text per item, and "]" |
| OrderedMap.Get | webscale-cache/src/local-cache.ts:28-32 | the value of the key's entry, found exactly when the key is present |
| OrderedMap.Set | webscale-cache/src/local-cache.ts:47-54 | the key maps to the value, other keys keep theirs, and a new key is appended |
| OrderedMap.Remove | webscale-cache/src/local-cache.ts:22-26 | the key is gone and the other keys keep their values and order |
| OrderedMap.RemoveUnique | webscale-cache/src/local-cache.ts:22-26 | deleting a present key drops exactly its entry |

## Left out

- Sockets, the TCP server, timers (`setInterval`, `setTimeout`) and the clock are not executed. Each event is a method call, and time is the `now` argument.
- The rxjs observables and their asynchronous interleaving are not modelled. An observable is the sequence of what it emits. `getAll` and `watch` return sequences.
- Ajv is not modelled. The compiled schema is a function parameter, and validation error details are not kept.
- In `createExpressRoutes` only the paths are modelled (`EndpointPath`, `ItemPathMissesSlash`). The Express handlers, middleware, `apiServer` and `findPackageJson` are left out.
- Of the swagger document only operation ids, verbs, routes and path parameters are modelled. Its remaining text is not.
- `Collection.getAll` and `Collection.watch` are not modelled as collection members. The underlying `InMemoryConnection.GetAll` and `Watch` are.
- The cascade delete of children, subscribed in the collection constructor, is left out because it is asynchronous.
- Collections.Collection.GetItem: the children's include results are not attached to the item.
- `Collection.connection(context)` and datasource options are replaced by passing the connection.
- The static shortcut log methods on `Logger` are not modelled. They call `Logger.create()` and then the instance method.
- Logging.Logger.UseHandler: the handler's own `configure` call is not modelled.
- Logging.LoggerRegistry.UseHandler: the `options` argument and the handler's `configure(options)` call (webscale-core/src/logger/logger.ts:86-88) are not modelled; handlers are names with no configuration.
- KeyValue: the `logger.debug` lines of the key-value connection's save, get, getAll and delete (webscale-collection/src/datasource/key-value.connection.ts:17, 26, 48, 64) are not modelled; they only write diagnostics.
- CollectionFactories.CollectionFactory.Collection: does not state that the new collection is its parent's next child, nor that the other collections' children only grow while the children are created. Register and Build state the append to the parent's children at construction. Carrying it past the children loop would need every registered collection's children in the loop invariant, which this model does not state.
- CollectionFactories.CollectionFactory.CollectionWith: the same gap as `Collection`: no statement about the parent's children or the growth of other collections' children.
- CollectionFactories.CollectionFactory.CreateNew: the same gap as `Collection`: no statement about the parent's children or the growth of other collections' children.
- CollectionFactories.CollectionFactory.CreateChildren: states that the registered collections keep their events, but not that their children only grow.
- CollectionFactories.CollectionFactory.CreateChild: states that the registered collections keep their events, but not that their children only grow.
- Logging.Logger.Log: what the handler methods do with the message and the optional parameters is not modelled; the calls record them as JavaScript values.
- `decorate`, `deepFreeze` and the property sources' file reading are left out. A property source is given as its loaded value.
- JavaScript numbers are integers, except the pressure ratio. NaN, Infinity and fractions are not modelled.
- Upper and lower case are mapped for ASCII only.
- `for…in` order is insertion order. JavaScript's ordering of integer-like keys is not modelled.
- Dictionary objects are modelled as maps with no inherited prototype keys. So `Logger.create("constructor")` on the `{}` of loggers, `getCollection("toString")` on the factory's `{}`, and a collection named `get` in the in-memory store (indexed by bracket) behave as for any fresh name, where the source would find the inherited member.
- JsValues.Prop: inherited properties (a string's `length`, say) are not found; only own keys of an object are.
- ObjectUtils.DeepMerge: objects are values, so `merged` is `o1` after the call but another reference to a nested object of `o1` (one shared with a source, say) does not see the update the source makes in place.
- `Object.defineProperty` of the collection on the factory (webscale-collection/src/factory/collection.factory.ts:88) is not modelled; the collection is reached through `GetCollection`.
- DistributedCaching.DistributedCache.RemovePeers: the splices for all removed servers are done first and the removed peers are then closed in the same order. Splicing reads only the peers' constant server names and closing changes only the closed peer, so the final state is the source's.
- Collections.Collection.SaveItem: requires at least one primary field, as every collection the factory builds has.
- InMemory.InMemoryConnection.Save: requires at least one primary field for the same reason, and InMemory.InMemoryConnection.SaveForPath requires a non-empty path; with an empty path the source stores the item under the key `undefined` (webscale-collection/src/datasource/in-memory.connection.ts:23), which the model does not cover.
- Collections.PrepareSchema: the caller's schema object is modified in place in the source. The model returns the prepared schema instead.
- ExpressRoutes.JsonResponse: the Express `Response` object is a returned record of header, status, chunks and end.
- Peers.Peer.Close: the promise that resolves on the socket's `close` event is not modelled.
- `DistributedCache.getIncommingPeers` is the `IncomingPeers` function, without a contract of its own. `AcceptConnection` and `ConnectionEnded` state its value.

Where the documentation and the code disagree, the model follows the code:

- The TTL and debounce comparisons are inverted.
- A nested configuration section does not survive a merge.
- Dotted config properties are not split.
- Item paths lack a "/".
