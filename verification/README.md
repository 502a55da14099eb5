# Facelift replication and data binding, modelled and proved in Dafny

Facelift keeps several copies of one truth in step: bound properties follow their triggers, a
registry of D-Bus objects is replicated in every process, proxies hold copies of a service's
properties, and list models are read through a cache. The project models these mechanisms as they
are coded and proves what the copies owe to the original.

Each mechanism has an object (`class`) whose methods follow the code and are proved against
functions on values; the results about whole runs are lemmas about those functions.

| file | what it models |
|---|---|
| `PropertyBinding.dfy` | property bindings: synchronous, depth-first re-evaluation |
| `ObjectRegistry.dfy`, `RegistryTraces.dfy`, `RegistryRuns.dfy`, `Decimal.dfy` | the object registry: master, replicas, wrapping versions, sequences of requests, and runs over a bad and a good bus |
| `PropertyReplication.dfy`, `ReplicationRuns.dfy`, `SignalTime.dfy` | property snapshots and deltas between a service adapter and its proxies |
| `RecentlyUsed.dfy` | the most-recently-used cache |
| `RemoteModel.dfy`, `RemoteModelEnds.dfy`, `RemoteModelRuns.dfy`, `RemoteModelReads.dfy`, `SynchronousRuns.dfy`, `Placeholders.dfy` | list models over IPC: request windows, cache, events and replies in flight |
| `ModelChain.dfy` | chains of bound list models |
| `WireCodec.dfy`, `WireStreams.dfy` | the type-directed codec |
| `ListenerRegistry.dfy` | the keyed registry with listeners |
| `UnityPacking.dfy` | the incremental unity-file packer |
| `Sequences.dfy`, `Wrappers.dfy` | shared facts about sequences; optional results and the range of int |

History variables (`position`, `before`, `at`, `view`, `told`) record what happened for the
statements; no step depends on them.

What the proofs found out about the code:

- The ready flag of a service can stay wrong in a client for ever: its previous copy starts at
  false and is not set when the signals are connected, so that the change from ready to not ready
  is sent as "unchanged" (`ReadyFlagStaysStale`; the exact condition is
  `SignalRepairsExactlyWhenChanged`). The same holds for interface object paths (`UnseededStaysStale`).
- A snapshot taken between a property's change and its signal leads the client away from the value
  last sent: one that goes through the inbox always does (`AsyncSnapshotFollowsExactlyWhen`), a
  blocking one exactly when no queued message carries the property
  (`BlockingSnapshotFollowsExactlyWhen`).
- A blocking snapshot overtakes queued signals; the client still ends up with the right values, but
  raises these signals with newer values than the sender had, unless the oldest one carries the
  property or was sent at its present value (`ConsistentExactlyWhenPunctual`,
  `OvertakingBreaksSignalTime`). A client that has no snapshot yet raises signals too, in general
  with values that are not the sender's (`EarlySignalRaised`); the exact condition is the same, with
  the client's value (`QueueRaisedExactlyWhen`).
- A blocking snapshot brings the present size of a list model ahead of the events on their way,
  which are then counted a second time (`SnapshotCountsTwice`). The size stays wrong until a reset,
  unless a reset is on its way or the events leave the length as it was (`SynchronousAgreement`).
- A registry replica takes a signal exactly when the change is a whole number of version cycles
  away from its own position (`SignalAccepted`); a lost signal therefore stops it, and after a cycle
  of registrations it ends up with a map the master never had (`StaleByACycle`).
- An event that moves a row which was answered with a default item to a place that was not requested
  by a view as well, and any insertion, makes the proxy forget it: replies that arrive later fill the cache without notifying the row
  (`EventForgets`, `ForgottenStays`; runs from the start in `InsertionForgetsPlaceholders` and
  `RemovalForgetsPlaceholders`). Nothing is forgotten in runs in which no such row is there when an
  event is handled (`NoForgottenPlaceholder`).
- In `modelData()` the condition for prefetching previous items asks for the next index
  (src/ipc/ipc-common/IPCProxyModelProperty.h:157), against its comment. The model follows the
  code: the previous index is left out exactly when the row and the next index are cached
  (`PreviousIndexPrefetched`).

## Model

| member | source | states |
|---|---|---|
| `PropertyBinding.PropertySystem.SetValue` | src/model/TProperty.h:123-130 | propagation ends; every bound property has its getter's value, no property with a change signal is dirty, no notification repeated a value, and all values are those of one evaluation in rank order, despite intermediate ones |
| `PropertyBinding.PropertySystem.Bind` | src/model/TProperty.h:94-121 | the same for binding a property and adding its triggers, for every acyclic graph |
| `PropertyBinding.PropertySystem.BindGetter` | src/model/TProperty.h:113-121 | the property is evaluated at once, and only bound properties above it change |
| `PropertyBinding.PropertySystem.AddTrigger` | src/model/TProperty.h:94-101 | the re-evaluation slot is appended to the trigger's signal |
| `PropertyBinding.PropertySystem.BreakBinding` | src/model/TProperty.h:185-191 | the getter and exactly this property's connections are gone |
| `PropertyBinding.PropertySystem.Reevaluate` | src/model/TProperty.h:196-201 | restores consistency of a property and everything it triggers, leaving only the callers' pending ones |
| `PropertyBinding.PropertySystem.TriggerValueChanged` | src/model/PropertyBase.cpp:67-79 | a dirty property is cleaned before it notifies, a clean one does not notify; afterwards only the callers' pending properties may be inconsistent |
| `PropertyBinding.PropertySystem.Emit` | src/model/PropertyBase.cpp:67-79 | running the slots in order, depth first, settles every property they reach |
| `PropertyBinding.ConsistentIsEvaluate` | src/model/TProperty.h:113-130 | consistent values are those of one evaluation in rank order from the unbound properties |
| `PropertyBinding.SettledUnique` | src/model/TProperty.h:113-130 | the unbound values determine all values, whatever the order of slots |
| `ObjectRegistry.VersionInRange` | src/ipc/dbus/DBusObjectRegistry.cpp:111-118 | versions stay in 1..INT_MAX-1 over any number of changes |
| `ObjectRegistry.VersionsCoincide` | src/ipc/dbus/DBusObjectRegistry.cpp:111-118 | two versions coincide exactly when a multiple of 2^31-2 changes lies between them |
| `ObjectRegistry.MasterImpl.RegisterObject` | src/ipc/dbus/DBusObjectRegistry.cpp:178-198 | rejects empty and present paths, else adds the object, advances the version and emits objectAdded, as `RequestEffect` and `ObjectsAreOwned` say of sequences of requests |
| `ObjectRegistry.MasterImpl.UnregisterObject` | src/ipc/dbus/DBusObjectRegistry.cpp:200-214 | removes the object only for its own service, advances the version and emits objectRemoved |
| `RegistryTraces.ObjectsAreOwned` | src/ipc/dbus/DBusObjectRegistry.cpp:178-214 | after any sequence of requests a path is mapped to exactly the service that found it free with nonempty names and has not unregistered it since |
| `RegistryTraces.RequestEffect` | src/ipc/dbus/DBusObjectRegistry.cpp:178-214 | a registration succeeds exactly for a free path and nonempty names, an unregistration exactly for the owner; each success is announced with its path, service and the next version, a failure changes nothing |
| `RegistryTraces.EmittedIsHistory` | src/ipc/dbus/DBusObjectRegistry.cpp:178-214 | the signals emitted, replayed in order, lead to the master's map and version |
| `ObjectRegistry.MasterImpl.SnapshotOfObjects` | src/ipc/dbus/DBusObjectRegistry.cpp:216-221 | the map with the version under the reserved key |
| `ObjectRegistry.RegistryReplica.Update` | src/ipc/dbus/DBusObjectRegistry.cpp:99-109 | a snapshot is taken only by a replica without valid objects |
| `ObjectRegistry.RegistryReplica.OnObjectAdded` | src/ipc/dbus/DBusObjectRegistry.cpp:138-149 | accepts the next version only; counts the "already contains" branch |
| `ObjectRegistry.RegistryReplica.OnObjectRemoved` | src/ipc/dbus/DBusObjectRegistry.cpp:151-159 | accepts the next version only; counts the "does not exist" branch |
| `ObjectRegistry.ComplainsExactly` | src/ipc/dbus/DBusObjectRegistry.cpp:138-159 | an error branch is taken exactly by an accepted signal that does not fit the map, which stays as it is; otherwise the very change is made |
| `Decimal.NumberRoundTrip` | src/ipc/dbus/DBusObjectRegistry.cpp:216-221 | a version printed as a text is read back |
| `ObjectRegistry.SnapshotRoundTrip` | src/ipc/dbus/DBusObjectRegistry.cpp:99-109 | a replica without objects recovers map and version from a snapshot, exactly when no object has the reserved key |
| `ObjectRegistry.SnapshotTaken` | src/ipc/dbus/DBusObjectRegistry.cpp:99-109 | a snapshot of any age puts such a replica at its position and leaves any other alone |
| `ObjectRegistry.SignalAccepted` | src/ipc/dbus/DBusObjectRegistry.cpp:138-159 | a replica accepts a signal exactly when it is a whole number of cycles away; the next one takes it to the next map without complaint |
| `ObjectRegistry.StaleByACycle` | src/ipc/dbus/DBusObjectRegistry.cpp:138-159 | in a history of registrations longer than a cycle, a replica a whole cycle behind takes a later signal and then holds a map the master never had |
| `ObjectRegistry.RegistrationsLegal` | src/ipc/dbus/DBusObjectRegistry.cpp:178-198 | such histories of any length exist |
| `ObjectRegistry.SafetyNeedsTheHypothesis` | src/ipc/dbus/DBusObjectRegistry.cpp:138-159 | a replica that misses one cycle of registrations and takes the next is at no state of the master |
| `RegistryRuns.StepIsSafe` | src/ipc/dbus/DBusObjectRegistry.cpp:99-159 | every event on a bus that loses, duplicates and reorders keeps each replica at the master's map of its position |
| `RegistryRuns.RegistrySafety` | src/ipc/dbus/DBusObjectRegistry.cpp:99-159 | after any run a valid replica holds the master's map of its version, and no error branch was taken |
| `RegistryRuns.QueuedSignalsAreStale` | src/ipc/dbus/DBusObjectRegistry.cpp:120-136 | the signals a blocking snapshot overtakes change nothing afterwards |
| `RegistryRuns.StepConverges` | src/ipc/dbus/DBusObjectRegistry.cpp:52-74 | draining any inbox of a replica with a snapshot yields the master's state, step by step |
| `RegistryRuns.RegistryConvergence` | src/ipc/dbus/DBusObjectRegistry.cpp:52-74 | after any run without loss, a replica with a snapshot and an empty inbox has the master's map and version |
| `PropertyReplication.DecodeEncode` | src/ipc/dbus/DBusIPCProxy.h:91-102 | a snapshot replaces all values, a delta exactly those that differ from the last ones sent; the signal behind is left unread |
| `PropertyReplication.DecodeNothing` | src/ipc/dbus/DBusIPCProxy.h:91-102 | from an empty payload a snapshot reads zeros, and a delta leaves all values |
| `PropertyReplication.SignalPayloadRead` | src/ipc/dbus/IPCDBusServiceAdapterBase.h:160-169 | a message reads as the values that changed, followed by the identifier and all arguments of the signal in order |
| `PropertyReplication.ServiceAdapter.ConnectSignals` | codegen/facelift/templates/IPCServiceAdapter.template.cpp:150-181 | the handlers of all models are connected and the previous copies of ordinary properties, and no others, are set; then the change signals of all properties but ready lead to sendSignal(), interfaces are followed, and the service's own signals are connected |
| `PropertyReplication.ServiceAdapter.SerializeOptionalValue` | src/ipc/dbus/IPCDBusServiceAdapterBase.h:178-192 | a flag, the value if it changed, and the previous copy updated with it; of a model the size, in snapshots only |
| `PropertyReplication.ServiceAdapter.SerializePropertyValues` | codegen/facelift/templates/IPCServiceAdapter.template.cpp:183-205 | the whole payload, for ordinary, interface and model properties and the ready flag; a delta brings the previous copies up to date, a snapshot leaves them alone |
| `PropertyReplication.ServiceAdapter.HandleGetAllProperties` | src/ipc/dbus/IPCDBusServiceAdapterBase.cpp:98-107 | the first request connects the signals; every request is answered with a snapshot |
| `PropertyReplication.ServiceAdapter.SendSignal` | src/ipc/dbus/IPCDBusServiceAdapterBase.h:160-169 | changed values go ahead of the signal and all its arguments in one message, see `SignalPayloadRead`; nothing happens while another message is being made |
| `PropertyReplication.ServiceAdapter.OnPropertyChanged` | codegen/facelift/templates/IPCServiceAdapter.template.cpp:172-174 | a change signal is sent exactly after the signals are connected |
| `PropertyReplication.ProxyAdapter.DeserializeOptionalValue` | src/ipc/dbus/DBusIPCProxy.h:91-102 | reads the flag, and the value if there is one; also from a payload that ends early |
| `PropertyReplication.ProxyAdapter.DeserializePropertyValues` | codegen/facelift/templates/IPCProxyAdapter.template.cpp:58-97 | reads all values, and only then announces exactly: ordinary properties and ready that a snapshot changed, interfaces that were carried, models with a snapshot |
| `PropertyReplication.SnapshotAnnounces` | codegen/facelift/templates/IPCProxyAdapter.template.cpp:58-97 | a view that re-reads exactly the announced properties after a snapshot shows the server's values; of ordinary properties and the ready flag exactly the changed ones are announced |
| `PropertyReplication.DeltaAnnounces` | codegen/facelift/templates/IPCProxyAdapter.template.cpp:58-97 | ahead of a signal exactly the interface properties that differ from the value last sent are announced |
| `PropertyReplication.ProxyAdapter.OnSignalTriggered` | src/ipc/dbus/DBusIPCProxyBinder.cpp:77-82 | the signal behind the values is emitted after them, with its identifier and arguments |
| `ReplicationRuns.StepReplicates` | src/ipc/dbus/IPCDBusServiceAdapterBase.cpp:62-67 | every step keeps: draining a client's inbox yields the value last sent |
| `ReplicationRuns.PropertyReplicated` | src/ipc/dbus/DBusIPCProxyBinder.cpp:77-110 | after any run, with announced snapshots in order or overtaking, a drained client has the value last sent, and the server's value once that is announced |
| `ReplicationRuns.PromptIsAnnounced` | codegen/facelift/templates/IPCServiceAdapter.template.cpp:150-175 | for an ordinary property whose changes are each followed at once by a signal, every snapshot of every run is announced |
| `ReplicationRuns.OrdinaryPropertyReplicated` | src/ipc/dbus/DBusIPCProxyBinder.cpp:77-110 | in all those runs, whatever snapshots are taken, a drained client has the server's value, unless the run ends between a change and its signal |
| `ReplicationRuns.AsyncSnapshotFollowsExactlyWhen` | src/ipc/dbus/IPCDBusServiceAdapterBase.h:178-192 | a reply through the inbox leads to the value last sent exactly when the property has no unannounced change |
| `ReplicationRuns.BlockingSnapshotFollowsExactlyWhen` | src/ipc/dbus/DBusIPCProxyBinder.cpp:91-106 | a blocking reply does exactly then, or when a message it overtakes carries the property |
| `ReplicationRuns.SignalRepairsExactlyWhenChanged` | src/ipc/dbus/IPCDBusServiceAdapterBase.h:178-192 | a signal brings a client up to date exactly when the property differs from its previous copy, or it was up to date |
| `ReplicationRuns.ReadyReachesClients` | src/ipc/dbus/IPCDBusServiceAdapterBase.cpp:69-73 | a ready flag that becomes true reaches every client by a delta |
| `ReplicationRuns.ModelSizeBySnapshotsOnly` | codegen/facelift/templates/IPCServiceAdapter.template.cpp:196-199 | the size of a model comes with snapshots and with nothing else |
| `ReplicationRuns.UnseededStaysStale` | codegen/facelift/templates/IPCServiceAdapter.template.cpp:150-162 | the same run for the ready flag and for interface paths, with any values |
| `ReplicationRuns.ReadyFlagStaysStale` | src/ipc/dbus/IPCDBusServiceAdapterBase.cpp:69-73 | a run in which a client keeps seeing a service as ready that is not |
| `SignalTime.SignalTimeConsistency` | codegen/facelift/templates/IPCProxyAdapter.template.cpp:58-128 | whenever a client that has its snapshot raises a notification, it is the one sent, with its arguments, and its property has the server's value of the sending time, in every run whose snapshots are announced and whose blocking ones are punctual |
| `SignalTime.ConsistentExactlyWhenPunctual` | src/ipc/dbus/DBusIPCProxyBinder.cpp:91-110 | after any such run, the signals a blocking snapshot overtakes are raised with the values they were sent with if and only if it is punctual: the oldest one carries the property or was sent at its present value |
| `SignalTime.OldestDecides` | src/ipc/dbus/IPCDBusServiceAdapterBase.h:178-192 | for a value put ahead of a queue, the oldest message decides about all |
| `SignalTime.InStepRaises` | src/ipc/dbus/DBusIPCProxyBinder.cpp:77-82 | delivering a queue raises every signal in step exactly when the queue is in step |
| `SignalTime.QueueRaisedExactlyWhen` | src/ipc/dbus/DBusIPCProxyBinder.cpp:77-82 | in these runs any client, with or without a snapshot, raises all that is queued as it was sent if and only if the oldest message carries the property or was sent at the client's value |
| `SignalTime.EarlySignalRaised` | src/ipc/dbus/DBusIPCProxyBinder.cpp:113-136 | a run from the start, without blocking snapshots, in which a client that has none raises a signal with a value that is not the sender's |
| `SignalTime.OvertakingBreaksSignalTime` | src/ipc/dbus/DBusIPCProxyBinder.cpp:91-110 | a run from the start in which a second client's first snapshot makes a queued signal come with a newer value |
| `RecentlyUsed.ReplayIsFrontOfRecency` | src/common/FaceliftUtils.h:158-214 | the bounded cache is the front of the unbounded recency list |
| `RecentlyUsed.PresentExactlyWhenRecent` | src/common/FaceliftUtils.h:158-214 | after any trace a key is present exactly when fewer than the size other keys were used since, with the value last inserted |
| `RecentlyUsed.MostRecentlyUsedCache.Exists` | src/common/FaceliftUtils.h:166-169 | whether the key has an entry |
| `RecentlyUsed.MostRecentlyUsedCache.Get` | src/common/FaceliftUtils.h:171-176 | the key's value; its entry moves to the front, list and map stay in bijection |
| `RecentlyUsed.MostRecentlyUsedCache.Insert` | src/common/FaceliftUtils.h:178-195 | the entry is in front, an older one of the key is gone, the least recent ones are evicted down to the size |
| `RecentlyUsed.MostRecentlyUsedCache.Remove` | src/common/FaceliftUtils.h:197-202 | exactly the key's entry is gone |
| `RemoteModel.WindowSound` | src/ipc/ipc-common/IPCProxyModelProperty.h:167-206 | both scans end; a range sent is in the list, has at most 25 items and free endpoints, and contains the asked index if that is free |
| `RemoteModel.WindowExact` | src/ipc/ipc-common/IPCProxyModelProperty.h:167-206 | the range sent is exactly from the first free index in reach to the last free one among the 24 that follow, and nothing is sent exactly if there is none |
| `RemoteModel.BusyAfterModelData` | src/ipc/ipc-common/IPCProxyModelProperty.h:117-162 | after an asynchronous read the row is cached or requested |
| `RemoteModel.PreviousIndexPrefetched` | src/ipc/ipc-common/IPCProxyModelProperty.h:149-159 | the previous index is cached or requested after a read exactly when it was before, or the row or the next index is not cached |
| `RemoteModel.NextIndexPrefetched` | src/ipc/ipc-common/IPCProxyModelProperty.h:149-153 | the row 12 further on is cached or requested after a read |
| `RemoteModel.BusyAfterEvent` | src/ipc/ipc-common/IPCProxyModelProperty.h:66-115 | insertions and resets forget requests and items, removals and moves only the items |
| `RemoteModel.ServeExact` | src/ipc/ipc-common/IPCAdapterModelPropertyHandler.h:105-123 | a reply has exactly the rows asked for that the server has, and their items |
| `RemoteModelEnds.ProxyModelProperty.HandleSignal` | src/ipc/ipc-common/IPCProxyModelProperty.h:47-108 | each event's effect on size, cache and request lists; insertion and reset clear the lists, removal and move only the cache |
| `RemoteModelEnds.ProxyModelProperty.GetModelData` | src/ipc/ipc-common/IPCProxyModelProperty.h:117-162 | the row's own item or a default (`AsyncReadAnswers`), the requests sent and remembered |
| `RemoteModelEnds.ProxyModelProperty.RequestItemsAsync` | src/ipc/ipc-common/IPCProxyModelProperty.h:167-206 | the two loops compute the request window |
| `RemoteModelEnds.ProxyModelProperty.OnReply` | src/ipc/ipc-common/IPCProxyModelProperty.h:184-200 | new items enter the cache and stay there (`ReplyCaches`), rows waiting for them are notified, the rows are no longer requested |
| `RemoteModelEnds.ModelPropertyHandler.Perform` | src/ipc/ipc-common/IPCAdapterModelPropertyHandler.h:47-103 | a begin and end pair becomes one event, from which the shape of the new list follows from the old one |
| `RemoteModelEnds.ModelPropertyHandler.HandleModelRequest` | src/ipc/ipc-common/IPCAdapterModelPropertyHandler.h:105-123 | the requested range clamped to the list, and its items |
| `RemoteModelRuns.MessageKeepsAgreement` | src/ipc/ipc-common/IPCProxyModelProperty.h:47-115 | every event and reply takes a proxy that agrees with the list before it to one that agrees with the list after it |
| `RemoteModelRuns.CacheAgreement` | src/ipc/ipc-common/IPCProxyModelProperty.h:47-200 | at every point of every asynchronous run, size and every cached item are those of the server's list at the message last handled |
| `RemoteModelReads.ReplyCaches` | src/ipc/ipc-common/IPCProxyModelProperty.h:184-200 | a reply that fits into the cache leaves all its items there |
| `RemoteModelReads.ReplyKeeps` | src/ipc/ipc-common/IPCProxyModelProperty.h:184-200 | an entry that is recent enough survives a reply |
| `RemoteModelReads.ChangeCaches` | src/ipc/ipc-common/IPCProxyModelProperty.h:53-64 | an event about changed items leaves them in the cache, and recent entries too |
| `RemoteModelReads.BlockingReadCaches` | src/ipc/ipc-common/IPCProxyModelProperty.h:120-141 | a blocking read caches the server's item of every row up to 12 away that was not cached |
| `RemoteModelReads.AsyncReads` | src/ipc/ipc-common/IPCProxyModelProperty.h:117-162 | in every run an asynchronous read answers with the row's own item of the list last seen, exactly for the rows in the cache, and with a default item otherwise |
| `RemoteModelReads.ReadAfterMessage` | src/ipc/ipc-common/IPCProxyModelProperty.h:47-200 | in every run, after a reply or an event about changed items, a read of a row it brought answers with that item |
| `RemoteModelReads.ReadTouches` | src/ipc/ipc-common/IPCProxyModelProperty.h:161 | a read makes the row the most recently used one and loses nothing |
| `RemoteModelRuns.SyncWindowSound` | src/ipc/ipc-common/IPCProxyModelProperty.h:122-130 | the trimmed blocking window contains the row and at most 25 items |
| `RemoteModelRuns.SyncWindowExact` | src/ipc/ipc-common/IPCProxyModelProperty.h:122-130 | the window begins and ends at rows that are not cached and contains all of those up to 12 away |
| `RemoteModelRuns.SynchronousReadIsDirect` | src/ipc/ipc-common/IPCProxyModelProperty.h:117-162 | with nothing in flight a synchronous read returns the server's item for every row |
| `SynchronousRuns.SynchronousAgreement` | src/ipc/ipc-common/IPCProxyModelProperty.h:47-206 | from before the first snapshot, in every run that mixes blocking snapshots and reads with asynchronous ones, edits, events and replies in flight: once the inbox is handled every cached item is the server's; and the size is, with reads giving the server's items, if and only if at the last snapshot a reset was on its way or the events on their way left the length as it was, or there was a reset since |
| `SynchronousRuns.SizeAfterStream` | src/ipc/ipc-common/IPCProxyModelProperty.h:47-108 | events keep the difference between the size and the list's length, unless there is a reset |
| `SynchronousRuns.SnapshotCountsTwice` | src/ipc/dbus/DBusIPCProxyBinder.cpp:91-110 | a run from the start in which a queued insertion is counted twice |
| `SynchronousRuns.StepSettles` | src/ipc/ipc-common/IPCProxyModelProperty.h:47-206 | every step keeps: what is cached ahead of the inbox, and what the inbox brings, becomes the server's item; and what it makes of the error in the size |
| `Placeholders.ReplyRefreshes` | src/ipc/ipc-common/IPCProxyModelProperty.h:184-200 | a reply notifies exactly the waiting rows it covers |
| `Placeholders.RefreshedExactlyWhenRemembered` | src/ipc/ipc-common/IPCProxyModelProperty.h:184-200 | a reply refreshes a row shown by default and not cached exactly when it brings the row and the row is in the list of those requested locally |
| `Placeholders.PlaceholdersAfterReply` | src/ipc/ipc-common/IPCProxyModelProperty.h:191-197 | of the rows requested locally exactly those a reply brings are taken from the list, unless they were cached |
| `Placeholders.ReadTold` | src/ipc/ipc-common/IPCProxyModelProperty.h:142-162 | a row is shown by default after a read exactly if that is what the read answered |
| `Placeholders.NoForgottenPlaceholder` | src/ipc/ipc-common/IPCProxyModelProperty.h:142-203 | in runs with all edits, in which no event moves a row still shown by default and no insertion is handled while there is one: each row shown by default is covered by an outstanding request or reply while no event changing the number of rows is on its way; none is left when nothing is outstanding |
| `Placeholders.RowsFollowItems` | src/model/ModelListModelBase.cpp:68-99 | rows of a view move as the items of the list do |
| `Placeholders.EventForgets` | src/ipc/ipc-common/IPCProxyModelProperty.h:66-106 | an event makes the proxy forget a row shown by default exactly when it is an insertion, or the row's new place is not in the list of those requested locally |
| `Placeholders.ForgottenStays` | src/ipc/ipc-common/IPCProxyModelProperty.h:142-203 | in every run a forgotten row is shown by default until it is asked for again or changed |
| `Placeholders.InsertionForgetsPlaceholders` | src/ipc/ipc-common/IPCProxyModelProperty.h:66-74 | a run from the start that ends with the row cached, nothing outstanding and the view still showing a default item |
| `Placeholders.RemovalForgetsPlaceholders` | src/ipc/ipc-common/IPCProxyModelProperty.h:76-84 | the same with a removal |
| `ModelChain.EmitReachesAll` | src/model/ModelBase.cpp:59-73 | every signal, also of moves and changed data, reaches every model of the chain once; after a reset all have the emitter's size |
| `ModelChain.EmitFrom` | src/model/ModelBase.cpp:35-57 | the models' slots carry a signal down the chain |
| `ModelChain.EditKeepsRest` | src/model/ModelBase.cpp:35-87 | a begin and end pair leaves all sizes equal and the pending size -1; each model emits both signals in order, and elementCountChanged exactly when the size is new |
| `ModelChain.DuringEdit` | src/model/ModelBase.cpp:35-55 | between them all have the old size, an insertion or removal has the new one pending, and during a reset no element may be asked for |
| `ModelChain.BindKeepsRest` | src/model/ModelProperty.h:60-72 | binding the first model of any chain to the last of another joins them at the size of the front one; models behind emit elementCountChanged once exactly if the sizes differ, those in front nothing |
| `ModelChain.BindIsReplacement` | src/model/ModelProperty.h:60-78 | for the bound chain, binding is a replacement of its list |
| `ModelChain.BindTo` | src/model/ModelProperty.h:60-78 | bind() as it runs: a reset of the bound model that runs down its chain |
| `ModelChain.ChainAgrees` | src/model/ModelProperty.h:60-86 | after any run of edits and bindings of chains, at either end and in any order, sizes agree and elementAt() of all models gives the first model's element |
| `WireCodec.RoundTrip` | src/ipc/ipc-common/IPCTypeHandler.h:126-254 | for every value of every nested type, reading what was written gives the value back and leaves exactly what follows |
| `WireCodec.FieldsRoundTrip` | src/common/FaceliftUtils.h:85-112 | whole argument tuples and structures round-trip |
| `WireCodec.EntriesRoundTrip` | src/ipc/ipc-common/IPCTypeHandler.h:231-253 | inserting the entries read rebuilds the map |
| `WireCodec.InsertFinds` | src/ipc/ipc-common/IPCTypeHandler.h:241-253 | inserting an entry keeps the keys in order; its key has the value, also if it had another, and all others keep theirs |
| `WireCodec.ReadNothing` | src/ipc/ipc-common/IPCTypeHandler.h:126-254 | where a stream has ended every value reads as zero, false or empty |
| `WireStreams.WriteList` | src/ipc/ipc-common/IPCTypeHandler.h:198-205 | the loop appends count and elements |
| `WireStreams.WriteMap` | src/ipc/ipc-common/IPCTypeHandler.h:231-239 | the loop appends count, keys and values |
| `WireStreams.ReadList` | src/ipc/ipc-common/IPCTypeHandler.h:207-217 | the loop reads as many elements as the count says, whatever the stream holds |
| `WireStreams.ReadMap` | src/ipc/ipc-common/IPCTypeHandler.h:241-253 | the loop inserts as many entries as the count says, whatever the stream holds |
| `WireStreams.Transfer` | src/ipc/ipc-common/IPCTypeHandler.h:126-254 | a value sent through a payload arrives |
| `ListenerRegistry.DeliveredOnce` | src/ipc/ipc-common/Registry.h:146-148 | notifying distinct keys calls each of their live listeners once per registration, and no other |
| `ListenerRegistry.LiveExact` | src/ipc/ipc-common/Registry.h:157-165 | live listeners are kept in order and as often as they are registered, and no others |
| `ListenerRegistry.Registry.SetContent` | src/ipc/ipc-common/Registry.h:119-150 | exactly the keys whose mapping changed are notified, no live listener is stale afterwards, and no live listener of any key is lost |
| `ListenerRegistry.Registry.Insert` | src/ipc/ipc-common/Registry.h:91-96 | the key's live listeners are called in order, and none is stale |
| `ListenerRegistry.Registry.Remove` | src/ipc/ipc-common/Registry.h:98-102 | the same, also when nothing was removed |
| `ListenerRegistry.Registry.NotifyListeners` | src/ipc/ipc-common/Registry.h:78-89 | calls the live listeners of one key in order, each of which reads the key again |
| `ListenerRegistry.Registry.RemoveInvalidListeners` | src/ipc/ipc-common/Registry.h:157-165 | keeps exactly the live listeners, in order |
| `UnityPacking.UnitCache.RunGeneration` | cmake/facelift/unity_generator.py:152-178 | every requested file is in exactly one unit and no other file in any; indices are distinct, units have one to five files, a retained file keeps its unit; a unit exceeds the size limit only if the one of its index did at the start |
| `UnityPacking.NextRunMayStart` | cmake/facelift/unity_generator.py:113-115 | whatever became of file sizes and limit in between, the units of a run meet what the next one relies on |
| `UnityPacking.UnitCache.FromJson` | cmake/facelift/unity_generator.py:76-79 | indices and files are read back, sizes computed anew |
| `UnityPacking.UnitCache.AddFiles` | cmake/facelift/unity_generator.py:61-69 | the files are added once and in order, from the unit with the greatest index on; a further unit, with the next index, is started exactly when the one before has five files or would reach the limit with the next file, so none when all fit; no unit comes to exceed the limit, no file moves |
| `UnityPacking.UnitCache.AddFile` | cmake/facelift/unity_generator.py:61-69 | one turn: into the unit in use, or exactly if that is full into a new one with the next index |
| `UnityPacking.NoneStartedWithoutNeed` | cmake/facelift/unity_generator.py:106-111 | no unit is started when all files fit into the last one |
| `UnityPacking.UnitCache.RemoveFiles` | cmake/facelift/unity_generator.py:71-74 | the files go, sizes are recomputed, empty units are dropped |
| `UnityPacking.RemovedPacked` | cmake/facelift/unity_generator.py:71-74 | removal keeps units well formed and indices distinct |
| `UnityPacking.RemovedOverfull` | cmake/facelift/unity_generator.py:71-74 | removal makes no unit exceed the size limit |
| `UnityPacking.UnitCache.LastUnit` | cmake/facelift/unity_generator.py:55-59 | the unit with the greatest index, a new one if there is none |

## Left out

- SetValue: listeners that write properties while they are notified, the ready signal, the asynchronous notification branch (its flag is never set) and `operator++`/`--`, which do not break a binding.
- Bind: the graph must stay acyclic and a getter must read only its trigger properties; a trigger added to a binding later is not modelled.
- RegistryConvergence: a listener that registers objects while the master emits would send versions out of order and is excluded; `RegistrySafety` does not need this.
- Update: `QString::toInt` is modelled for plain decimal texts, not for surrounding white space or a plus sign.
- SnapshotRoundTrip: the D-Bus Specification, section "Valid Object Paths", excludes the reserved key; the master itself does not check it.
- Receive: signals of a registry or service that restarts, and `QDBusServiceWatcher`, are not part of the model.
- SendSignal: what property setters and service signals do before it; serialization emits no signals.
- ConnectSignals: the objects behind interface and model properties; of an interface only its object path is a value here, and model events are in `RemoteModel.dfy`.
- DeserializePropertyValues: what the sub-proxy of an interface property and the reset of a model property do when their values arrive.
- PropertyReplicated: it speaks of one property at a time and needs its changes announced before the next snapshot, which `OrdinaryPropertyReplicated` proves of ordinary properties; for the ready flag and interface paths the first snapshot need not be announced. A model's size is not replicated by deltas.
- CacheAgreement: it starts right after an asynchronous proxy's first snapshot, which arrives in order; row numbers are unbounded integers.
- SynchronousAgreement: sizes and row numbers are unbounded integers; the snapshots in these runs are blocking ones.
- NoForgottenPlaceholder: a removal or move that brings a row shown by default to a place that was requested too may not forget it; the hypothesis excludes such runs.
- ChainAgrees: a model bound to several others, and `bind` while the other model is in the middle of an edit.
- RoundTrip: null strings are not told apart from empty ones; double values are 64-bit patterns; the status flag of a stream, which nothing reads.
- AddListener: the receiver reads the key on its own when it registers.
- RunGeneration: units are values in a sequence, not shared objects; the text of the cache file and the generated sources.
- Qt signals and slots, QDBus transport, timers, logging, QML adapters, code generation and D-Bus introspection.
- `DBusIPCProxyBinder::checkRegistry` and the local IPC transport, which repeats the delta logic on a channel that delivers at once.
