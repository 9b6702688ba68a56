# Activity adapter core, modelled in Dafny

This project models the state behind the activity adapter that `createAdapter`
(`src/createAdapter.ts`) builds. The adapter is a long-lived object. It carries
activities from an upstream producer to any number of consumers. Its state is a
set of closure variables that the returned object's methods change in place, and
here they become the fields of one class, `CreateAdapter.Adapter<A>`:

- `config` and `sealed`: the **sealed config store**. Any name can be written until
  the store is sealed. After that, only names that were already present can be
  written, and writing any other name throws.
- `readyState`: the **ready-state machine**. It starts at CONNECTING. The other
  states are OPEN and CLOSED, and CLOSED is terminal. Every accepted transition
  dispatches one `open` or `error` event. Entering CLOSED releases the upstream
  subscription.
- `active`: the **single upstream-subscription slot**. `subscribe` always releases
  the current subscription first. An observer's `start` callback fills the slot.
  Its `complete` and `error` callbacks clear the slot only if it still holds that
  observer's own subscription.
- `queues`: the **ingress fan-out registry**. This is an ordered list of consumer
  queues (`AsyncQueue.Queue`, an object holding a buffer and an ended flag).
  `activities` appends a queue, `ingress` pushes a value onto every queue, and
  `close` ends every queue and empties the list.

The side effects that go outside the adapter are kept in ghost logs: the events
dispatched (`events`), the `unsubscribe()` calls (`unsubscribed`) and the
observables an observer was attached to (`attached`). Observables and
subscriptions are plain identifiers. The observer's four callbacks become the
methods `Start`, `Next`, `Complete` and `Error`. The producer calls them.

Each piece has a module of pure definitions beside the class, and the class's
methods are specified through those definitions:

- `ConfigStore`: `Set` and `Get`, and what any series of writes does before and
  after sealing.
- `ReadyStates`: the checks of one `setReadyState` call (`Step`), and what any
  series of requests does (`Run`).
- `SubscriptionSlot`: release, start and finish on the slot, and a proof that no
  subscription is unsubscribed twice.
- `IngressRegistry`: JavaScript's `indexOf`, `~` and `splice`, written out, and
  the abort handler built from them.

`GetConfig` and `GetReadyState` are plain reads. For a name that was never
written and is not inherited from `Object.prototype`, `GetConfig` returns the
`UndefinedValue` stand-in, just as JavaScript returns `undefined`.

Where the code and the adapter's documented design differ, the model follows
the code:

- Requesting CLOSED while already CLOSED is a no-op. It does not throw.
- OPEN to CONNECTING is an accepted transition, and it dispatches `error`.
- Aborting a queue's cancellation signal does not remove that queue from the
  registry. See Findings.
- A producer's `error` only clears the slot. It dispatches nothing and reaches
  no consumer.
- `next` forwards to `ingress` even for a subscription that is no longer active.
  "Only the newest producer feeds ingress" therefore depends on `unsubscribe()`
  stopping the old producer.

## Model

| member | source | states |
|---|---|---|
| `ConfigStore.Get` | src/createAdapter.ts:66-68 | `getConfig` reads back a written name's value; a name never written (and not inherited from `Object.prototype`) reads as undefined, so a defined reading means the name is present. |
| `ConfigStore.Set` | src/createAdapter.ts:66-85 | `setConfig` throws exactly when the store is sealed and the name is absent, with that name in the error. On success the name reads back as the value, every other name reads as before, and the key set gains at most that name. |
| `ConfigStore.SealedKeySetIsFixed` | src/createAdapter.ts:77-85 | After sealing, no series of writes (failed ones caught) adds or removes a name. |
| `ConfigStore.SealedRejectsNewNames` | src/createAdapter.ts:78-80 | A name absent at seal time still throws after any series of post-seal writes. |
| `ConfigStore.SealedAcceptsExistingNames` | src/createAdapter.ts:77-85 | Writes to names present at seal time all succeed, however many there are, and leave exactly the store an unsealed adapter would have. |
| `ConfigStore.UnsealedAcceptsAll` | src/createAdapter.ts:77-85 | Before sealing, every written name ends up present and no name is lost. |
| `CreateAdapter.Adapter.GetConfig` | src/createAdapter.ts:66-68 | The adapter's `getConfig`: a written name reads back its value, and a defined reading means the name is present. |
| `CreateAdapter.Adapter.GetReadyState` | src/createAdapter.ts:70 | `getReadyState` is a pure read of the current state. |
| `ReadyStates.Step` | src/createAdapter.ts:87-109 | Asking for the current state is a no-op, even when CLOSED. Any other request from CLOSED throws the CLOSED error. An unrecognized value throws the range error. Otherwise the requested state is entered with one event, `open` exactly when that state is OPEN. |
| `ReadyStates.ClosedIsAbsorbing` | src/createAdapter.ts:88-93 | From CLOSED, any series of requests leaves the state CLOSED and dispatches no event. |
| `ReadyStates.ClosedIsTerminal` | src/createAdapter.ts:92-93 | Once a prefix of the requests has reached CLOSED, the whole series ends CLOSED and the rest of it dispatched nothing. |
| `ReadyStates.LastEventTracksState` | src/createAdapter.ts:102-109 | After any series of requests, the last event dispatched is `open` exactly when the state is OPEN. With no event, the state never moved. |
| `SubscriptionSlot.Release` | src/createAdapter.ts:113-114 | Releasing empties the slot, and appends the active subscription, and only it, once to the unsubscribe record. |
| `SubscriptionSlot.Start` | src/createAdapter.ts:123-126 | `start` makes the observer's own subscription the active one and unsubscribes nothing. |
| `SubscriptionSlot.Finish` | src/createAdapter.ts:128-137 | `complete`/`error` clear the slot only when it holds the observer's own subscription. A stale one leaves a newer subscription active. Nothing is unsubscribed. |
| `SubscriptionSlot.EachReleasedAtMostOnce` | src/createAdapter.ts:104-147 | For any interleaving of releases, starts and finishes in which every start brings a new subscription, no subscription is unsubscribed twice. |
| `IngressRegistry.IndexOf` | src/createAdapter.ts:48 | `indexOf` returns -1 exactly when the queue is absent, and otherwise the first position holding it. |
| `IngressRegistry.ToInt32` | src/createAdapter.ts:50 | ToInt32 lands in the signed 32-bit range and agrees with its argument modulo 2^32. |
| `IngressRegistry.BitwiseNot` | src/createAdapter.ts:50 | `~x` is a signed 32-bit integer that sums with the 32-bit value of `x` to -1. |
| `IngressRegistry.ComplementOfIndex` | src/createAdapter.ts:50 | For every value `indexOf` can return, `~index` is 0 exactly when the index is -1. |
| `IngressRegistry.SpliceStart` | src/createAdapter.ts:50 | `splice`'s start stays within the array. A negative start counts back from the end. |
| `IngressRegistry.Splice` | src/createAdapter.ts:50 | `splice(start, deleteCount)` keeps everything before the start and the tail after the removed window, and removes `deleteCount` elements, or as many as remain after the start. |
| `IngressRegistry.SpliceKeepsElements` | src/createAdapter.ts:50 | `splice` only removes elements and keeps the registry free of duplicates. |
| `IngressRegistry.AbortAsWritten` | src/createAdapter.ts:47-50 | The abort handler as written removes at most one queue and adds none. What it removes is stated by the two lemmas below. |
| `IngressRegistry.AbortAsWrittenKeepsRegisteredQueue` | src/createAdapter.ts:47-50 | As written, aborting a registered queue leaves the registry unchanged, so the queue stays registered. |
| `IngressRegistry.AbortAsWrittenDropsLast` | src/createAdapter.ts:47-50 | As written, aborting an unregistered queue removes the last registered queue, or nothing if the registry is empty. |
| `IngressRegistry.AbortAsWrittenCounterexample` | src/createAdapter.ts:47-50 | Concrete inputs: [1] aborting 1 gives [1]; [2] aborting 1 gives []. |
| `IngressRegistry.AbortIntended` | src/createAdapter.ts:47-50 | The corrected handler (a logical AND in place of the OR) also removes at most one queue and adds none. |
| `IngressRegistry.AbortIntendedRemovesOnlyThatQueue` | src/createAdapter.ts:47-50 | The corrected handler removes exactly the aborted queue. Every other queue stays registered in its order, the length drops by one if the queue was present, and there are no duplicates. |
| `AsyncQueue.Queue.constructor` | src/createAdapter.ts:42 | A new queue is empty and not ended. |
| `AsyncQueue.Queue.Push` | src/createAdapter.ts:74 | `push` appends the value, unless the queue has ended. |
| `AsyncQueue.Queue.End` | src/createAdapter.ts:57 | `end` marks the queue ended and keeps its buffer. |
| `CreateAdapter.Adapter.constructor` | src/createAdapter.ts:26-34 | The initial state: empty config, unsealed, CONNECTING, no subscription, no queues, empty logs. |
| `CreateAdapter.Adapter.Seal` | src/createAdapter.ts:158 | Sealing sets the flag, records the current names as the sealed key set, and changes nothing else, the map included. |
| `CreateAdapter.Adapter.SetConfig` | src/createAdapter.ts:77-85 | Follows `Set`. On a throw the whole state is unchanged. On success only the map changes. The sealed key set stays invariant. |
| `CreateAdapter.Adapter.SetReadyState` | src/createAdapter.ts:87-110 | Follows `Step`. A no-op or a throw leaves all state unchanged. An accepted transition sets the state and appends exactly one event. Entering CLOSED also releases the subscription (`Release`). |
| `CreateAdapter.Adapter.Subscribe` | src/createAdapter.ts:112-122 | Always releases the active subscription first. With `false` it attaches nothing, otherwise it attaches exactly that observable. Nothing else changes. |
| `CreateAdapter.Adapter.Start` | src/createAdapter.ts:123-126 | Follows `SubscriptionSlot.Start`; nothing else changes. |
| `CreateAdapter.Adapter.Complete` | src/createAdapter.ts:128-132 | Follows `Finish`; nothing else changes. |
| `CreateAdapter.Adapter.Error` | src/createAdapter.ts:134-141 | Follows `Finish`. No event, nothing else changes. |
| `CreateAdapter.Adapter.Next` | src/createAdapter.ts:143-145 | The value reaches every registered queue, as `Ingress` states. |
| `CreateAdapter.Adapter.Activities` | src/createAdapter.ts:41-54 | A fresh, empty, live queue is appended at the end of the registry. Nothing else changes. |
| `CreateAdapter.Adapter.Abort` | src/createAdapter.ts:46-51 | The registry becomes `AbortAsWritten` of the old registry. Nothing else changes, and the registry stays duplicate-free. |
| `CreateAdapter.Adapter.Ingress` | src/createAdapter.ts:73-75 | Every registered queue, in order, gets exactly the value appended. The registry's order and length are untouched, and no other object changes. |
| `CreateAdapter.Adapter.Close` | src/createAdapter.ts:56-59 | Every queue that was registered is ended with its buffer kept, and the registry is empty. On an empty registry the state is unchanged, so a second close is a no-op. |
| `CreateAdapter.Adapter.Egress` | src/createAdapter.ts:62-64 | `egress` always fails with the "no enhancers registered" error. |
| `CreateAdapter.LifecycleScenario` | src/createAdapter.ts:87-132 | Seal, open, subscribe, start, complete: the open request succeeds (its body asserts the event log is exactly one `open`), the state is OPEN, and the slot ends empty with nothing unsubscribed. |
| `CreateAdapter.FanOutScenario` | src/createAdapter.ts:41-75 | Two consumers, two values forwarded by the observer's `next`, close twice: each consumer holds exactly the two values in order and is ended, and the registry is empty. |

## Left out

- `addEventListener`, `removeEventListener` and `dispatchEvent` (lines 32-39) delegate to the `event-target-shim-es5` library, and `createEvent` is an unseen helper. Dispatch is modelled as appending the event to the ghost `events` log. Listeners, and listeners calling back into the adapter during dispatch, are not modelled.
- The enhancer composition (lines 20, 30 and 150) and `src/ic3/enhancers/ingress/index.ts`: the latter only composes middleware factories whose code is not part of this model. The model is the base adapter; the constructor, then enhancer calls, then `Seal` stand for construction.
- The class-object check (lines 152-154) is JavaScript reflection. `sealAdapter` (line 156) is not part of this model.
- `createAsyncIterableQueue` is not part of this model. A queue is a buffer and an ended flag, and `push` is ignored after `end`. Iteration and draining are not modelled, and neither is the queue's own reaction to its signal.
- A signal can fire between any two adapter calls; when it fires is not modelled. `Abort` is an explicit call that applies lines 48-50.
- The subscription's `unsubscribe()` is a foreign call. It is recorded in the ghost `unsubscribed` log.
- A `complete` or `error` arriving before its observer's `start` has no effect in the source and is not modelled; the callbacks take the subscription `start` received.
- The commented-out error propagation (lines 139-140) is not behaviour.
- Config numbers are modelled as `real`, so NaN and IEEE rounding are left out. Config names are strings only. The config object is a plain `{}`, so names inherited from `Object.prototype` (for example `toString` and `constructor`) are not modelled. The `in` test at line 78 counts them as present. The read at line 67 returns the inherited members, where the model reads them as undefined.
- Adapter.Next: forwards to the base `Ingress`, whereas line 144 calls `adapter.ingress`, which an enhancer may have overridden.
- `AbortAsWrittenKeepsRegisteredQueue` and `AbortIntendedRemovesOnlyThatQueue` assume a registry of at most 2^32 - 1 queues, the JavaScript array limit. Longer sequences have no JavaScript counterpart.

## Findings

| source | as written | input that shows it | evidently intended | confidence | as-written member | corrected member |
|---|---|---|---|---|---|---|
| src/createAdapter.ts:50 | The logical OR on line 50 runs `ingressQueues.splice(index, 1)` only when its left operand `~index` is 0, that is when the queue is not registered. `splice(-1, 1)` then removes the last queue. | The registry holds q1 and q1's signal aborts: q1 stays registered, and every later `ingress` still pushes onto it. Or `close()` empties the registry, a new queue q2 registers, and then q1's signal aborts: q2 is unregistered. | A logical AND in place of the OR: splice at `index` when the queue is found. | high; not executed | `IngressRegistry.AbortAsWrittenCounterexample` | `IngressRegistry.AbortIntendedRemovesOnlyThatQueue` |

`CreateAdapter.Adapter.Abort` keeps the as-written handler, because that is what the adapter does. `IngressRegistry.AbortIntended` is the correction.
