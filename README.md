# Listener table of WebSocketWithSelfSignedCert, in Dafny

`WebSocketWithSelfSignedCert` is a React Native facade over a native WebSocket
module that accepts self-signed certificates. It does two things:

- `connect(url)`, `send(message)` and `close()` go straight to the native module.
- It keeps a `listeners` object with at most one emitter subscription per event kind.
  `onOpen`, `onMessage`, `onBinaryMessage`, `onClose` and `onError` each overwrite one
  slot. The five `removeOn…Listener` methods each remove and delete one slot.
  `close()` removes every slot after forwarding the close.

This project models that table with the emitter and the native module around it,
and proves what each operation does to them.

- `websocket_event.dfy` (module `WebSocketEvents`) has the `WebSocketEvent` enum as
  the `EventKind` datatype, with `Name` giving each kind's string value and `FromName`
  as its inverse. The table's keys are kept as `EventKind` values, so the
  `key as WebSocketEvent` type assertion on `Object.keys` needs no counterpart: it is
  erased at run time, and every key the table can hold is some kind's name.
- `listener_model.dfy` (module `ListenerModel`) describes everything the facade can
  observe as one `State` value:
  - the table, and the insertion order of its keys (the order `Object.keys` reports);
  - the emitter: the live subscriptions with their kinds, the next id it hands out,
    and the log of `remove()` calls;
  - the log of the connect, send and close calls the facade forwards to the native module.

  It gives one function per operation (`Register`, `RemoveSlot`, `RemoveAll`,
  `CloseClient`, `Connect`, `Send`), an invariant `Inv`, and the lemmas.
- `native_bridge.dfy` (module `NativeBridge`) has the `Emitter` and `NativeModule`
  classes. They stand for the React Native `NativeEventEmitter` and for the native
  module, reduced to what the facade can observe of them.
- `websocket_cert.dfy` (module `SelfSignedSocket`) has the class
  `WebSocketWithSelfSignedCert`. It has the `listeners` map field and the key order
  field, and one method per source method. Each method is proved to keep `Valid()` and
  to move `Model()` exactly as the matching `ListenerModel` function says.

Behaviour the model keeps from the code:

- Registering again for a kind that already has a slot does not remove the earlier
  subscription. That subscription stays live for its kind and nothing in the table
  refers to it any more. So neither `removeOn…Listener` nor `close()` reaches it.
  `OverwriteLeaks`, `RemoveAfterOverwriteLeaks` and `OverwriteSurvivesClose` prove
  this. `RegisterNoLeak` proves the exact condition under which a table with no leak
  gets one.
- A JavaScript object keeps its keys in insertion order. Assigning to an existing key
  keeps its place, `delete` drops it, and adding it again puts it last.
  `WithoutKeepsOrder` and `KeyOrderOfReRegister` prove this of the model.
  `removeAllListeners` walks a snapshot of those keys. `RemoveKeys` models that walk
  as a fold over the snapshot, in that order.
- The facade holds no connection state. `connect`, `send` and `close` forward every
  time, whatever came before. So the model has no connection state machine: a second
  `connect` is not rejected and a second `close` is forwarded again.
- The test file imports `WebSocketSelfSigned`, but the behaviour it checks (the
  `removeOn…Listener` methods, four removals on `close()`) belongs to
  `WebSocketWithSelfSignedCert`. It is therefore used as evidence for this class
  (`CloseAfterFourRegistrations`, `RegisterThenRemove`).

## Model

| member | source | states |
|---|---|---|
| WebSocketEvents.Name | src/enums/websocket-event.enum.ts:1-7 | each kind's string value, every one starting with "on" |
| WebSocketEvents.FromName | src/enums/websocket-event.enum.ts:1-7 | the inverse of Name: a string decodes only to the kind whose name it is |
| WebSocketEvents.FromNameRoundTrip | src/enums/websocket-event.enum.ts:1-7 | decoding a kind's name gives that kind back |
| WebSocketEvents.FromNameNone | src/enums/websocket-event.enum.ts:1-7 | a string decodes to nothing exactly when it is no kind's name |
| WebSocketEvents.NameInjective | src/enums/websocket-event.enum.ts:2-6 | two kinds have the same name iff they are the same kind, so names are valid one-slot-per-kind keys |
| WebSocketEvents.ExactlyFiveKinds | src/enums/websocket-event.enum.ts:1-7 | there are exactly five kinds, each listed once |
| WebSocketEvents.NativeProducers | ios/WebsocketSelfSigned.swift:79-81 | a kind's name is among the natively emitted names iff the kind is not BINARY_MESSAGE |
| ListenerModel.Without | src/models/WebSocketWithSelfSignedCert.ts:115 | deleting a key keeps exactly the other keys, keeps them duplicate-free, and changes nothing when the key is absent |
| ListenerModel.WithoutKeepsOrder | src/models/WebSocketWithSelfSignedCert.ts:115 | deleting a key keeps every other key in its place: the order is the old one with that key cut out |
| ListenerModel.KeyOrderOfReRegister | src/models/WebSocketWithSelfSignedCert.ts:55-58 | overwriting a slot keeps its key's place in Object.keys order; deleting it and registering again moves it last |
| ListenerModel.ReRegisteredKeyGoesLast | src/models/WebSocketWithSelfSignedCert.ts:54-125 | open, message, close registered, message removed and registered again: the keys are reported as open, close, message |
| ListenerModel.InitialInv | src/models/WebSocketWithSelfSignedCert.ts:11-20 | a new client has an empty table, no live subscription, and satisfies the invariant with no leak |
| ListenerModel.RegisterInv | src/models/WebSocketWithSelfSignedCert.ts:55-58 | registering keeps the invariant: duplicate-free key order matching the table, every slot holding a live subscription of its kind |
| ListenerModel.RegisterEffect | src/models/WebSocketWithSelfSignedCert.ts:54-105 | registering for k puts a freshly issued, live subscription for k in slot k; other slots, earlier subscriptions and both logs are unchanged; the invariant is kept |
| ListenerModel.OverwriteLeaks | src/models/WebSocketWithSelfSignedCert.ts:55-58 | overwriting slot k leaves the previous subscription live for k and unreachable from the table; no remove() is called; a dispatch of k then reaches at least two subscriptions |
| ListenerModel.RegisterNoLeak | src/models/WebSocketWithSelfSignedCert.ts:55-58 | from a table with no leak, registering keeps it leak-free iff slot k was empty |
| ListenerModel.RemoveSlotInv | src/models/WebSocketWithSelfSignedCert.ts:122-125 | removing a slot keeps the invariant |
| ListenerModel.RemoveSlotEffect | src/models/WebSocketWithSelfSignedCert.ts:122-157 | removing slot k deletes it, deactivates and logs one remove() of exactly the subscription it held, and leaves other slots and subscriptions alone; on an empty slot nothing changes |
| ListenerModel.RemoveSlotIdempotent | src/models/WebSocketWithSelfSignedCert.ts:123-124 | removing a slot twice has the effect of removing it once |
| ListenerModel.RemoveAfterOverwriteLeaks | src/models/WebSocketWithSelfSignedCert.ts:122-125 | after an overwrite, removing the slot does not reach the overwritten subscription |
| ListenerModel.RemoveKeysInv | src/models/WebSocketWithSelfSignedCert.ts:111-117 | removing any list of keys keeps the invariant, the id counter and the native log |
| ListenerModel.RemoveKeysListeners | src/models/WebSocketWithSelfSignedCert.ts:111-117 | removing a list of keys deletes exactly those keys from the table |
| ListenerModel.RemoveKeysRemoved | src/models/WebSocketWithSelfSignedCert.ts:111-117 | removing a duplicate-free list of keys logs remove() on the subscriptions held under them, in key order, and nothing else |
| ListenerModel.RemoveKeysActive | src/models/WebSocketWithSelfSignedCert.ts:111-117 | removing a duplicate-free list of keys takes exactly the subscriptions held under them out of the emitter |
| ListenerModel.HeldOfTable | src/models/WebSocketWithSelfSignedCert.ts:112-116 | the subscriptions read from the table in key order list each held subscription exactly once, one per registered kind |
| ListenerModel.HeldIdsOfTable | src/models/WebSocketWithSelfSignedCert.ts:112-116 | the set of subscriptions held under the table's keys is exactly the set of the table's values |
| ListenerModel.RemoveAllEmpties | src/models/WebSocketWithSelfSignedCert.ts:111-117 | after removeAllListeners the table and its key order are empty and the invariant holds |
| ListenerModel.RemoveAllRemovals | src/models/WebSocketWithSelfSignedCert.ts:111-117 | removeAllListeners calls remove() on the held subscriptions in key order, and exactly those leave the emitter |
| ListenerModel.RemoveAllEffect | src/models/WebSocketWithSelfSignedCert.ts:111-117 | both of the above together |
| ListenerModel.RemoveAllLeavesLeaks | src/models/WebSocketWithSelfSignedCert.ts:107-117 | after removeAllListeners a dispatch reaches only subscriptions an overwrite had leaked; with no leak the emitter is empty |
| ListenerModel.CloseClientEffect | src/models/WebSocketWithSelfSignedCert.ts:44-47 | close appends exactly one native close call, empties the table, and removes exactly the held subscriptions |
| ListenerModel.CloseRemovesEachOnce | src/models/WebSocketWithSelfSignedCert.ts:44-47 | with N registered kinds close makes N remove() calls, each on a distinct held subscription, covering all of them |
| ListenerModel.CloseEmpty | src/models/WebSocketWithSelfSignedCert.ts:111-117 | close on an empty table makes no removal and only forwards the native call |
| ListenerModel.CloseLeavesLeaks | src/models/WebSocketWithSelfSignedCert.ts:41-47 | after close a dispatch reaches only leaked subscriptions; with no leak, none |
| ListenerModel.OverwriteSurvivesClose | src/models/WebSocketWithSelfSignedCert.ts:44-58 | overwriting a slot and then closing leaves the overwritten subscription live for its kind |
| ListenerModel.RegisterAllDistinct | src/models/WebSocketWithSelfSignedCert.ts:54-105 | registering distinct kinds in turn on an empty, leak-free table fills exactly those slots, leaks nothing, and logs no removal and no native call |
| ListenerModel.CloseAfterRegistrations | src/models/WebSocketWithSelfSignedCert.ts:44-58 | N distinct registrations on an empty, leak-free table, then close: one native close call, N remove() calls, an empty table and nothing left live |
| ListenerModel.CloseAfterFourRegistrations | src/__tests__/WebSocketSelfSignedi.test.tsx:53-63 | four registrations then close: one native close call, four remove() calls, an empty table, nothing left live |
| ListenerModel.RegisterThenRemove | src/__tests__/WebSocketSelfSignedi.test.tsx:98-120 | registering one kind and removing it calls remove() once, on that subscription, and leaves nothing live |
| ListenerModel.ConnectEffect | src/models/WebSocketWithSelfSignedCert.ts:28-30 | connect appends exactly one native connect call carrying the url unchanged and touches nothing else |
| ListenerModel.SendEffect | src/models/WebSocketWithSelfSignedCert.ts:37-39 | send appends exactly one native send call carrying the message unchanged and touches nothing else |
| SelfSignedSocket.WebSocketWithSelfSignedCert.constructor | src/models/WebSocketWithSelfSignedCert.ts:16-20 | a new client has its own fresh emitter, an empty table, and is valid |
| SelfSignedSocket.WebSocketWithSelfSignedCert.Connect | src/models/WebSocketWithSelfSignedCert.ts:28-30 | the new state is Connect of the old one |
| SelfSignedSocket.WebSocketWithSelfSignedCert.Send | src/models/WebSocketWithSelfSignedCert.ts:37-39 | the new state is Send of the old one |
| SelfSignedSocket.WebSocketWithSelfSignedCert.Close | src/models/WebSocketWithSelfSignedCert.ts:44-47 | the new state is CloseClient of the old one |
| SelfSignedSocket.WebSocketWithSelfSignedCert.Subscribe | src/models/WebSocketWithSelfSignedCert.ts:55-58 | the new state is Register of the old one for that kind |
| SelfSignedSocket.WebSocketWithSelfSignedCert.OnOpen | src/models/WebSocketWithSelfSignedCert.ts:54-59 | the new state is Register of the old one for OPEN |
| SelfSignedSocket.WebSocketWithSelfSignedCert.OnMessage | src/models/WebSocketWithSelfSignedCert.ts:66-71 | the new state is Register of the old one for MESSAGE |
| SelfSignedSocket.WebSocketWithSelfSignedCert.OnBinaryMessage | src/models/WebSocketWithSelfSignedCert.ts:78-81 | the new state is Register of the old one for BINARY_MESSAGE |
| SelfSignedSocket.WebSocketWithSelfSignedCert.OnClose | src/models/WebSocketWithSelfSignedCert.ts:88-93 | the new state is Register of the old one for CLOSE |
| SelfSignedSocket.WebSocketWithSelfSignedCert.OnError | src/models/WebSocketWithSelfSignedCert.ts:100-105 | the new state is Register of the old one for ERROR |
| SelfSignedSocket.WebSocketWithSelfSignedCert.RemoveListener | src/models/WebSocketWithSelfSignedCert.ts:114-115 | the new state is RemoveSlot of the old one for that kind |
| SelfSignedSocket.WebSocketWithSelfSignedCert.RemoveOnOpenListener | src/models/WebSocketWithSelfSignedCert.ts:122-125 | the new state is RemoveSlot of the old one for OPEN |
| SelfSignedSocket.WebSocketWithSelfSignedCert.RemoveOnMessageListener | src/models/WebSocketWithSelfSignedCert.ts:130-133 | the new state is RemoveSlot of the old one for MESSAGE |
| SelfSignedSocket.WebSocketWithSelfSignedCert.RemoveOnBinaryMessageListener | src/models/WebSocketWithSelfSignedCert.ts:138-141 | the new state is RemoveSlot of the old one for BINARY_MESSAGE |
| SelfSignedSocket.WebSocketWithSelfSignedCert.RemoveOnCloseListener | src/models/WebSocketWithSelfSignedCert.ts:146-149 | the new state is RemoveSlot of the old one for CLOSE |
| SelfSignedSocket.WebSocketWithSelfSignedCert.RemoveOnErrorListener | src/models/WebSocketWithSelfSignedCert.ts:154-157 | the new state is RemoveSlot of the old one for ERROR |
| SelfSignedSocket.WebSocketWithSelfSignedCert.RemoveAllListeners | src/models/WebSocketWithSelfSignedCert.ts:111-117 | the loop over the key snapshot leaves the state RemoveAll of the old one |

The `Emitter` and `NativeModule` classes stand for code outside this repository's
core: the React Native emitter library and the platform modules. Their methods only
state the effect the facade relies on, so they have no rows here.

## Left out

- Callbacks and dispatch are not represented. A subscription is its id plus the kind
  it listens for. `Listening` gives the subscriptions a dispatch of a kind would reach.
  How and when callbacks run is left to the React Native emitter, whose code is not
  part of this model.
- The `Promise<string>` that `connect` returns is settled by the native module. The
  model records the forwarded call and not the promise's outcome.
- The iOS and Android modules are left out: networking, TLS trust-all setup,
  asynchronous callbacks on background threads, when they emit their events and with
  what payload, and the Android `listenerCount` bookkeeping. Only the names of the
  events they emit are modelled (`NativeEventNames`).
- The emitter also calls the native module's `addListener(eventName)` and
  `removeListeners(count)`. The native call log records only the connect, send and
  close calls the facade forwards, not these.
- `src/models/WebSocketSelfSigned.ts` is not part of this model. It delegates every
  call, one line each, to the emitter or the native module.
- The native-module lookup and its linking-error proxy are not part of this model.
- The `Emitter` class models the emitter's registry only as the set of live subscriptions, an
  id counter and a log of `remove()` calls. How the library stores them is not shown.
- The native module is passed to the constructor instead of being a global
  singleton. Two clients built over the same module share its call log, as the
  singleton implies.
