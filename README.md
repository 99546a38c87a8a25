# adonis-elasticsearch: the named-connection registry

This project models the connection core of an AdonisJS provider for
Elasticsearch and proves properties of that model in Dafny. The core names
several connections to a cluster and connects each one lazily. A live
connection can be given a new configuration. The core closes and releases
connections and broadcasts every connect, disconnect and connect error on
the application's event channel. It has three layers:

- `Connection` (src/connection/index.ts) holds at most one client of the
  external Elasticsearch library. `connect()` builds the client and emits
  `connect`; if building fails it emits `error` and rethrows. `disconnect()`
  closes the client and emits `disconnect`; if closing fails it emits
  `disconnect:error` and rethrows. Without a client, `disconnect()` does
  nothing.
- `ConnectionManager` (src/connection/manager.ts) keeps a Map from names to
  slots. A slot holds a name, a config, an optional Connection and a state
  (`registered`, `migrating`, `open`, `closing`, `closed`). The manager also
  keeps a Set of orphaned Connections: instances that `patch` detached while
  their disconnect was still in flight. It listens to every Connection it
  creates. It re-broadcasts `es:connection:connect`, `es:connection:disconnect`
  and `es:connection:error`, and updates the slot.
- The `Elasticsearch` facade (src/elasticsearch/main.ts) registers every
  configured name at construction and returns clients, connecting on first
  use. `close`, `closeAll` and `release` go to the manager. `close` and
  `release` default to the primary connection's name; `closeAll` closes them
  all.

## How the model is built

The files are:

- `types.dfy`: the shared value types and the error templates.
- `connection.dfy`: the class `Connection`, proved against two functions,
  `ConnectStep` and `DisconnectStep`.
- `registry.dfy`: the manager's state as a value (`Registry`). Each manager
  operation is a function from the registry before the call to the registry
  after it, and to how the call ended (`Status`).
- `registry_invariant.dfy`: the invariant `Valid` of the registry, proved to
  hold after every operation.
- `lifecycle.dfy`: the properties of the operations, under that invariant.
- `manager.dfy`: the class `ConnectionManager`. Its fields are the registry's
  fields, and the methods update them in place. Each method is proved to
  leave the registry that the matching function computes.
- `facade.dfy`: the class `Elasticsearch`, built on the same functions.

The model makes these choices:

- **The external client is a parameter.** A client is an opaque handle. What
  `new Client(config)` and `client.close()` do is an input of each call:
  `Building` is a handle or a fault, and `Closing` is success or a fault.
- **Connection identity.** Each Connection gets a fresh number from `nextId`,
  so two instances with the same name stay distinct. The orphan Set tests
  instance identity, and this stands in for it.
- **Slots hold snapshots.** A slot stores a snapshot of its Connection. The
  snapshot is taken again after `connect()`. The only thing that ever changes
  a Connection is the client stored by its own `connect()`, so snapshots
  behave like references here.
- **Listeners run inline.** An event emitter calls its listeners
  synchronously, so each emitted event is handed at once to the listener the
  manager attached (`Dispatch`). `disconnect:error` has no listener.
- **The event channel is a log.** `emitter.emit` appends to `events`.
- **`patch` does not wait for the old disconnect.** While that disconnect is
  unsettled, the orphan is in `pending`. Its completion is a separate
  operation, `SettleOrphan`, with its own `Closing` outcome. Only an orphan
  with a client has such a disconnect; `disconnect()` returns at once without
  a client.
- **`closeAll` runs the closes one after another.** It closes every name of
  the key snapshot in key order (`order` is the Map's insertion order). Every
  close runs whatever the others do. The first failure, in key order, is the
  one reported.

Two details of the code that the model keeps:

- **`close` ends in `closing`, not `closed`.** `close` awaits the
  disconnect, and during that wait the disconnect listener sets `closed`.
  Then `close` sets `closing` (manager.ts:138-139). The same holds for every
  connected name that `closeAll` closes.
  `Lifecycle.CloseLeavesClosing` and `Lifecycle.CloseAllEffect` state this.
- **The listeners find the slot by name, not by instance.** `handleConnect`
  and `handleDisconnect` look the slot up by the emitting connection's name
  (manager.ts:38 and 52), whichever instance the slot holds. Only the orphan
  test is by identity (manager.ts:31). `Lifecycle.HandleConnectByName` and
  `Lifecycle.HandleDisconnectByName` state this.

## Model

| member | source | states |
|---|---|---|
| Connections.ConnectStep | src/connection/index.ts:22-31 | connect keeps name, config and identity, and emits exactly one event about the instance itself. If the client is built, the client is stored, `ready` holds, a `connect` event is emitted and nothing is thrown. If not, the instance is unchanged, `error` carries the fault and the instance, and the same fault is rethrown. |
| Connections.DisconnectStep | src/connection/index.ts:33-45 | disconnect never changes the instance. Without a client nothing is emitted or thrown. With one, a successful close emits one `disconnect`, and a failed close emits `disconnect:error` with the fault and rethrows it. |
| Connections.ThrowsIffErrorEmitted | src/connection/index.ts:22-45 | A call throws exactly when the last event it emitted is its error event. |
| Connections.DisconnectRepeatable | src/connection/index.ts:33-45 | disconnect leaves `ready` as it was, and a second disconnect behaves like the first. |
| Connections.Connection.constructor | src/connection/index.ts:13-20 | A new Connection has the given name and config, no client, is not ready, and has emitted nothing. |
| Connections.Connection.Connect | src/connection/index.ts:22-31 | The object's fields, everything it emitted and what it throws are those `ConnectStep` gives. |
| Connections.Connection.Disconnect | src/connection/index.ts:33-45 | The same for `DisconnectStep`. |
| Connections.ConnValue.Ready | src/connection/index.ts:9-11 | No contract of its own: the `ready` getter, true exactly when a client is stored. `Connections.ConnectStep` and `Connections.DisconnectStep` state how it changes. |
| Types.Message | src/errors.ts:3-9 | No contract of its own: the message template of each error. `Lifecycle.ConnectUnknown` and `Facade.ConnectionUnknown` state the unmanaged-connection message. |
| Registry.Get | src/connection/manager.ts:96-98 | No contract of its own; `Manager.ConnectionManager.Get` states what the method returns. |
| Registry.Has | src/connection/manager.ts:100-102 | No contract of its own; `Manager.ConnectionManager.Has` states it. |
| Registry.IsConnected | src/connection/manager.ts:126-133 | No contract of its own; `RegistryInvariant.ConnectedIffLive` states what it means under the invariant. |
| Registry.Without | src/connection/manager.ts:155 | Deleting a Map key removes exactly that name from the key order. The other names stay, and a list without the name is left as it is. No name is listed twice afterwards if none was before. |
| Registry.HandleConnect | src/connection/manager.ts:51-62 | No contract of its own; `Lifecycle.HandleConnectByName` states all of its branches. |
| Registry.HandleDisconnect | src/connection/manager.ts:30-49 | No contract of its own; `Lifecycle.HandleDisconnectByName` states all of its branches. |
| Registry.Deliver | src/connection/manager.ts:22-28 | No contract of its own; `RegistryInvariant.DeliverOne` ties it to `DeliverAll`. |
| Registry.Add | src/connection/manager.ts:64-76 | No contract of its own; `Lifecycle.AddFirstWriteWins` states its effect. |
| Registry.Patch | src/connection/manager.ts:104-124 | No contract of its own; `Lifecycle.PatchEffect` states its effect. |
| Registry.SettleOrphan | src/connection/manager.ts:113-116 | No contract of its own; `Lifecycle.OrphanSettles` and `RegistryInvariant.SettleOrphanEffect` state its effect. |
| Registry.Close | src/connection/manager.ts:135-145 | No contract of its own; `RegistryInvariant.CloseConnected`, `Lifecycle.CloseSlot` and the other close lemmas state its effect. |
| Registry.Release | src/connection/manager.ts:151-157 | No contract of its own; `Lifecycle.ReleaseRemoves` states its effect. |
| Registry.CloseEach | src/connection/manager.ts:147-149 | No contract of its own; `Lifecycle.CloseEachEffect` and `Lifecycle.CloseEachOrder` state its effect. |
| Registry.CloseAll | src/connection/manager.ts:147-149 | No contract of its own; `Lifecycle.CloseAllEffect` states its effect. |
| Registry.DeliverAll | src/connection/manager.ts:22-28 | The listeners never add or remove a slot or touch the key order. They never touch the pending disconnects or create a Connection. |
| Registry.Connect | src/connection/manager.ts:78-94 | connect never adds or removes a name or changes the key order. |
| RegistryInvariant.ConnectedIffLive | src/connection/manager.ts:126-133 | Under the invariant, a name is connected exactly when its slot holds a Connection whose client was built. |
| RegistryInvariant.EmptyValid | src/connection/manager.ts:13-15 | A new manager satisfies the invariant. |
| RegistryInvariant.ConnectEffect | src/connection/manager.ts:78-94 | On a registered, unconnected name, connect stores a new instance with the next identity. If the client is built, the slot is `open` and one connect event is broadcast. If not, the slot keeps the client-less instance and its old state, one error event is broadcast, and the fault is rethrown. |
| RegistryInvariant.DisconnectOwned | src/connection/manager.ts:30-49 | A slot's own Connection is never an orphan. Its disconnect broadcasts once, clears the slot's connection and sets `closed`. |
| RegistryInvariant.ReleaseUnconnected | src/connection/manager.ts:151-157 | release of a name that is not connected deletes the key and reports success. |
| RegistryInvariant.CloseConnected | src/connection/manager.ts:135-145 | On a connected name, a failed client close rethrows and changes nothing. A successful one detaches the instance and leaves the slot `closing`, or deletes it under release. |
| RegistryInvariant.CloseFailing | src/connection/manager.ts:136-140 | A failed close of a live connection rethrows the fault and skips the release. |
| RegistryInvariant.CloseSucceeding | src/connection/manager.ts:136-144 | A successful close broadcasts one disconnect and leaves the slot `closing` without its connection. Under release, it then behaves as release of that registry. |
| RegistryInvariant.SettleOrphanEffect | src/connection/manager.ts:30-36 | A settling orphan disconnect removes the orphan and broadcasts once if it succeeded. If it failed, it only stops being pending. |
| RegistryInvariant.AddValid | src/connection/manager.ts:64-76 | add keeps the invariant. |
| RegistryInvariant.ConnectValid | src/connection/manager.ts:78-94 | connect keeps the invariant, whatever building the client does. |
| RegistryInvariant.PatchValid | src/connection/manager.ts:104-124 | patch keeps the invariant. |
| RegistryInvariant.CloseValid | src/connection/manager.ts:135-145 | close keeps the invariant, with or without release. |
| RegistryInvariant.ReleaseValid | src/connection/manager.ts:151-157 | release keeps the invariant. |
| RegistryInvariant.CloseEachValid | src/connection/manager.ts:147-149 | Closing any sequence of names keeps the invariant. |
| RegistryInvariant.SettleOrphanValid | src/connection/manager.ts:30-36 | Settling a pending orphan disconnect keeps the invariant. |
| Lifecycle.AddFirstWriteWins | src/connection/manager.ts:64-76 | A known name leaves the registry unchanged, so the first config wins. An unknown one adds exactly one `registered` slot without a connection, at the end of the key order. Every other slot, the orphans and the events stay as they were. |
| Lifecycle.ConnectUnknown | src/connection/manager.ts:78-84 | connect of an unregistered name throws the unmanaged-connection error, whose message is "Unmanaged elasticsearch connection " followed by the name, and changes nothing. |
| Lifecycle.ConnectWhenConnected | src/connection/manager.ts:86-89 | connect of a connected name is a no-op: same instance, no event. |
| Lifecycle.ConnectBuilt | src/connection/manager.ts:91-93 | A built client makes the slot `open` and connected, with a new instance of fresh identity that holds the client. Exactly one connect event about it is broadcast, and the orphans and the other slots are untouched. |
| Lifecycle.ConnectFailed | src/connection/manager.ts:91-93 | A failed build rethrows the fault. The error event with the fault and the new instance is broadcast, and the slot keeps that client-less instance and its old state, so the name is not connected. |
| Lifecycle.ConnectReturnsConnected | src/connection/manager.ts:78-94 | connect returns normally exactly when the name is then connected, with a live client. A second connect is then a no-op. A failure is the unmanaged error of an unknown name or the build fault. |
| Lifecycle.PatchEffect | src/connection/manager.ts:104-124 | On an unknown name patch is add. On a known one, the old connection becomes an orphan, pending if it has a client, and the slot loses it, takes the new config and is `migrating`. Nothing is broadcast and the key order is kept. |
| Lifecycle.PatchThenConnect | src/connection/manager.ts:104-124 | patch of a connected name followed by connect gives a new instance built from the new config, while the old instance waits among the orphans. |
| Lifecycle.OrphanSettles | src/connection/manager.ts:30-36 | The orphan's successful disconnect removes it from the orphan set and broadcasts once. A failed one broadcasts nothing and leaves it there. No slot changes. |
| Lifecycle.HandleConnectByName | src/connection/manager.ts:51-62 | A connect event whose name has no slot changes nothing. Otherwise it opens the slot of that name, whichever instance the slot holds. It broadcasts exactly one connect event about the emitter, and changes nothing else. |
| Lifecycle.HandleDisconnectByName | src/connection/manager.ts:30-49 | An orphan is dropped from the orphan set and announced, and no slot changes. Any other instance whose name has no slot changes nothing. Otherwise the slot of that name loses its connection and becomes `closed`, whichever instance it holds. One disconnect event is broadcast, and nothing else changes. |
| Lifecycle.CloseUnconnected | src/connection/manager.ts:135-145 | close without release of a name that is not connected changes nothing. |
| Lifecycle.CloseLeavesClosing | src/connection/manager.ts:136-140 | After a successful close the slot is present, not connected, without its connection and `closing`. One disconnect event is broadcast, and no other slot and not the key order change. |
| Lifecycle.CloseFailure | src/connection/manager.ts:136-140 | A failed client close rethrows and leaves everything as it was. |
| Lifecycle.ReleaseRemoves | src/connection/manager.ts:151-157 | release reports success exactly when the name is gone afterwards. It fails only for a connected name whose client fails to close, and then nothing changes. No other slot is touched. |
| Lifecycle.CloseSlot | src/connection/manager.ts:135-145 | One close, in slot terms: what becomes of the named slot, that no other slot changes, and that the call fails exactly when a connected client fails to close. |
| Lifecycle.CloseSlotOrder | src/connection/manager.ts:135-157 | One close changes the key order only by deleting the released name. |
| Lifecycle.CloseEachEffect | src/connection/manager.ts:147-149 | Closing a sequence of names closes each one as if alone and never adds a name. The call fails exactly when one connected client fails to close. |
| Lifecycle.CloseEachKeys | src/connection/manager.ts:147-149 | Closing names never registers one. |
| Lifecycle.CloseAllEffect | src/connection/manager.ts:147-149 | Without release, closeAll keeps every name and the key order. Under release, only the connected names whose close fails survive, in their old key order. Each surviving connected name with a working client is `closing`, and the call fails exactly when some connected client fails to close. |
| Lifecycle.WithoutConcat | src/connection/manager.ts:155 | Deleting a key from a key list splits over concatenation, so the names before and after it keep their order. |
| Lifecycle.CloseEachOrder | src/connection/manager.ts:147-157 | After closing any names, the key order is the old one restricted to the surviving keys. |
| Lifecycle.CloseAllOrder | src/connection/manager.ts:147-149 | closeAll keeps the surviving keys in their old order, and without release it keeps the key order as it is. |
| Lifecycle.ApplyValid | src/connection/manager.ts:64-157 | Every manager operation keeps the invariant. |
| Lifecycle.RunValid | src/connection/manager.ts:64-157 | Any sequence of operations keeps it. |
| Lifecycle.Reachable | src/connection/manager.ts:12-158 | From a new manager, no instance is announced as disconnected twice and no orphan is a slot's connection. Two slots never share an instance, and connected means live. |
| Lifecycle.CloseKeepsOrphans | src/connection/manager.ts:135-157 | close and release never touch the orphans or their pending disconnects. |
| Lifecycle.StuckGrows | src/connection/manager.ts:30-36 | No operation frees an orphan without a pending disconnect. |
| Lifecycle.StuckStays | src/connection/manager.ts:114-115 | An orphan without a client, or whose disconnect failed, stays in the orphan set whatever happens later. |
| Manager.ConnectionManager.constructor | src/connection/manager.ts:13-20 | A new manager is empty and satisfies the invariant. |
| Manager.ConnectionManager.Get | src/connection/manager.ts:96-98 | get returns a slot exactly for a registered name: that name's slot, filed under its own name. |
| Manager.ConnectionManager.Has | src/connection/manager.ts:100-102 | has holds exactly when get finds a slot. |
| Manager.ConnectionManager.IsConnected | src/connection/manager.ts:126-133 | isConnected holds exactly when the slot exists, holds a connection and is `open`. |
| Manager.ConnectionManager.HandleConnect | src/connection/manager.ts:51-62 | The state afterwards is the one `Registry.HandleConnect` gives, which `Lifecycle.HandleConnectByName` states for every branch. |
| Manager.ConnectionManager.HandleDisconnect | src/connection/manager.ts:30-49 | The state afterwards is the one `Registry.HandleDisconnect` gives, which `Lifecycle.HandleDisconnectByName` states for every branch. |
| Manager.ConnectionManager.Dispatch | src/connection/manager.ts:22-28 | An emitted event reaches the listener monitorConnection attached, if there is one. |
| Manager.ConnectionManager.Add | src/connection/manager.ts:64-76 | Keeps the invariant and leaves the registry `Registry.Add` gives. |
| Manager.ConnectionManager.Connect | src/connection/manager.ts:78-94 | Keeps the invariant. The registry and the outcome are those of `Registry.Connect`. |
| Manager.ConnectionManager.Instantiate | src/connection/manager.ts:91-93 | A new Connection object is created, stored, monitored and connected, with the above effect. |
| Manager.ConnectionManager.Patch | src/connection/manager.ts:104-124 | Keeps the invariant and leaves the registry `Registry.Patch` gives. |
| Manager.ConnectionManager.Migrate | src/connection/manager.ts:112-123 | The slot's connection is handed to the orphans and the slot takes the new config. |
| Manager.ConnectionManager.SettleOrphan | src/connection/manager.ts:115 | The pending disconnect started by patch settles, its events reaching the listeners. The invariant is kept. |
| Manager.ConnectionManager.Close | src/connection/manager.ts:135-145 | Keeps the invariant. The registry and the outcome are those of `Registry.Close`. |
| Manager.ConnectionManager.AwaitDisconnect | src/connection/manager.ts:136-140 | The awaited disconnect, with its listeners, and the `closing` that follows it, as `Registry.Close` without release gives. |
| Manager.ConnectionManager.Release | src/connection/manager.ts:151-157 | Keeps the invariant. The registry and the outcome are those of `Registry.Release`. |
| Manager.ConnectionManager.CloseAll | src/connection/manager.ts:147-149 | The loop over the key snapshot keeps the invariant and ends as `Registry.CloseAll` says. |
| Facade.RegisteredSlots | src/elasticsearch/main.ts:24-28 | The registered slots of a set of configured names: exactly one per configured name in the set. Each is `registered`, with its config and no connection; `Facade.Elasticsearch.constructor` and `Facade.RegisteredValid` rely on that. |
| Facade.ConnectionUnknown | src/elasticsearch/main.ts:34-36 | connection of an unregistered name passes on the unmanaged-connection error, whose message holds the name, and changes nothing. |
| Facade.ConnectionResult | src/elasticsearch/main.ts:34-45 | connection returns a client exactly when the name is connected afterwards, and it is the slot's client. "Cannot get connection" is never raised under the invariant, and a freshly built client is the one returned. |
| Facade.ConnectionErrors | src/elasticsearch/main.ts:34-45 | A failure is the unmanaged error of an unknown name, or the building fault rethrown. |
| Facade.ClientTwice | src/elasticsearch/main.ts:47-49 | A second client() returns the same client and changes nothing, whatever building a client would do. |
| Facade.RegisteredValid | src/elasticsearch/main.ts:24-28 | The registry registerConnections leaves satisfies the invariant and has nothing connected. |
| Facade.ConnectionOf | src/elasticsearch/main.ts:34-45 | No contract of its own; `Facade.ConnectionResult`, `Facade.ConnectionErrors` and `Facade.ConnectionUnknown` state what it returns. |
| Facade.KeysAfterCloseAll | src/elasticsearch/main.ts:55-57 | closeAll without release keeps every registered name and the key order. |
| Facade.Elasticsearch.constructor | src/elasticsearch/main.ts:13-22 | Every configured name is registered with its config, `registered`, without a connection. The key order lists each of them once. Nothing else is in the manager, and the primary name is the configured one. |
| Facade.Elasticsearch.RegisterConnections | src/elasticsearch/main.ts:24-28 | The loop over the configured keys leaves exactly their registered slots, with each key listed once in the key order. |
| Facade.Elasticsearch.Register | src/elasticsearch/main.ts:25-27 | One more configured name is added, at the end of the key order. |
| Facade.Elasticsearch.GetRawConnection | src/elasticsearch/main.ts:30-32 | getRawConnection is the manager's get. |
| Facade.Elasticsearch.Connection | src/elasticsearch/main.ts:34-45 | The registry and the result are those of `ConnectionOf`, which the lemmas above describe. The name defaults to the primary one. |
| Facade.Elasticsearch.Client | src/elasticsearch/main.ts:47-49 | client() is connection() of the primary name. |
| Facade.Elasticsearch.Close | src/elasticsearch/main.ts:51-53 | close is the manager's close without release, by default of the primary name. |
| Facade.Elasticsearch.CloseAll | src/elasticsearch/main.ts:55-57 | closeAll is the manager's closeAll without release. Every registered name survives, and the key order is kept. |
| Facade.Elasticsearch.Release | src/elasticsearch/main.ts:59-61 | release is the manager's release, by default of the primary name. |

## Left out

- The external Elasticsearch client: construction, `close()`, requests and
  the wire protocol. A client is an opaque handle, and the outcome of building
  or closing one is a parameter of each call.
- The logger: every `trace` and `info` call is dropped.
- The event emitter's transport and its typed event map: each broadcast is
  only appended to `events`.
- Concurrency. Promises are modelled as awaited in program order, and
  `Promise.all` in `closeAll` as closes one after another in key order. The
  model does not capture interleavings of unsettled disconnects with other
  calls: a `patch` while a `close` waits, or two closes of one name at once.
- The un-awaited disconnect that `patch` starts is completed by the separate
  operation `SettleOrphan`. A rejection of that promise reaches no caller in
  the model; in the program it would be an unhandled rejection.
- Manager.ConnectionManager.CloseAll: reports the first failure in key
  order. `Promise.all` reports the first one to happen in time, which needs
  the timing the model does not have.
- The framework glue: the service provider and its shutdown hook, the
  container services, `configure.ts` and `Macroable`. None of it holds state
  of the core.
- The error classes of src/errors.ts are reduced to the `EsError` datatype
  and their message templates (`Types.Message`).
- Facade.Elasticsearch.RegisterConnections: adds the names in an arbitrary
  order. `Object.keys` gives the configuration's own key order, which a Dafny
  map does not keep. Only the key order, and so the order of `closeAll`,
  depends on it.
- Manager.ConnectionManager.SettleOrphan: requires a pending orphan. Only a
  disconnect that patch started and that has not yet settled can settle.
- Aliasing of Connection objects: slots and orphans hold snapshots of a
  Connection's fields. The object itself is modelled only in
  `Manager.ConnectionManager.Instantiate`, where it is created and
  connected.
- The test files are not modelled. src/types/elasticsearch.ts only
  shapes `Slot` and `SlotState`.
