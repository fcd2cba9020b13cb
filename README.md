# Signal event bus — verified model of its core

Signal is an Android event bus. Objects subscribe their annotated receiver methods
under a key made of the runtime class name followed by the method name. A sender
addresses an event to a (class, method) pair. The event is queued on the calling
thread, drained, checked against the registry and the parameter count, and routed by
the receiver's thread mode. A posting-thread receiver is invoked inline on the
calling thread, and so is a main-thread receiver when the caller is the main thread.
A main-thread receiver called from another thread is handed to the main-thread sender,
and background and async receivers to their own senders. The async path uses a small pool of reusable envelopes
(`PendingEvent`). Receiver descriptors are found by an index or by a reflexive scan of
the class hierarchy, and a cache memoises the lookup.

The model has six modules:

- `SignalTypes` holds the shared values: descriptors, registrations, events, faults and outcomes.
- `Registry` is the pure meaning of the subscribe and unsubscribe loops over the key map.
- `Dispatch` is the pure decision table of `sendSingleEvent` and the thread-mode switch of `sendEventToRegister`.
- `SignalBus` is the imperative part: class `Signal` and class `SendingThreadState`.
  - The registry and the cache are fields.
  - The senders are logs of what they were handed.
  - `subscribe`, `unSubScribe`, `findRegistedMethod`, `sendEvent` and its callees are methods proved against `Registry` and `Dispatch`.
- `PendingEventPool` has class `Pool`, with the ten envelopes and the LIFO free-index stack, and class `PendingEvent`.
- `MethodFinderReflex` describes classes and methods as plain metadata: name, modifier bits, annotation flag, parameter types and superclass.
  - `find` walks the superclass chain.
  - `findByClass` filters the declared methods.
  - Both are loops proved against a specification function.

Behaviours kept as the code has them:

- `isSending` is read but never set to `true`.
  - A receiver that sends from its body starts a drain loop of its own over the same queue. Sends are therefore nested depth-first rather than flattened into one FIFO pass, although the `isSending` check at `Signal.java:166` suggests a flattening loop was meant.
  - The model follows the code. From an idle thread, each send drains exactly its own event (`Send`, `SendEvent`). When no receiver sends anything, the drain loop is strictly FIFO (`SendEvent`, `DrainQueue`).
- Re-registering stops the whole subscribe loop at the first key already present. Unsubscribing stops at the first key that is missing.
- `unSubScribe` throws `NullPointerException` when `findRegistedMethod` returns null, that is, when nothing is cached and both finders return null: the loop then runs over a null list. `subScribe` returns quietly in that case. A class for which a finder returns an empty list unsubscribes quietly.
- A receiver whose thread mode is null makes the switch throw `NullPointerException`. Descriptors from the reflexive finder never set a thread mode.
- `find` of the reflexive finder calls `getName()` on the superclass unconditionally. A chain that ends without reaching a `java.`/`javax.`/`android.` class therefore throws `NullPointerException`. This is modelled as the result `NullPointer`, not as a precondition.
- The registry key joins class and method name without a separator, so different pairs can collide (`KeyCollision`).

## Model

| member | source | states |
|---|---|---|
| Registry.Key | signal/src/main/java/com/bwelco/signal/Signal.java:73 | the key is the class name followed immediately by the method name: its length is the sum and its two slices are the two names |
| Registry.KeyCollision | signal/src/main/java/com/bwelco/signal/Signal.java:73 | two different (class, method) pairs can produce the same key |
| Registry.SubscribedFrame | signal/src/main/java/com/bwelco/signal/Signal.java:67-84 | subscribing never drops or rebinds an existing registration; every new entry binds the target to one of its descriptors under that descriptor's key |
| Registry.Unsubscribed | signal/src/main/java/com/bwelco/signal/Signal.java:86-101 | unsubscribing only removes keys, leaves every remaining binding unchanged, and removes only keys of the target's descriptors |
| Registry.SubscribeFresh | signal/src/main/java/com/bwelco/signal/Signal.java:69-81 | with distinct keys none of which is registered, subscribing adds exactly those keys, each bound to the target and its descriptor |
| Registry.SubscribeStopsAtPresentKey | signal/src/main/java/com/bwelco/signal/Signal.java:75-78 | a descriptor whose key is present when the loop reaches it ends the batch: later descriptors are not inserted, earlier inserts remain |
| Registry.UnsubscribeAllPresent | signal/src/main/java/com/bwelco/signal/Signal.java:89-93 | with distinct keys all registered, unsubscribing removes exactly those keys |
| Registry.UnsubscribeStopsAtMissingKey | signal/src/main/java/com/bwelco/signal/Signal.java:94-97 | a key missing when the loop reaches it ends the loop: later keys stay registered, earlier removals remain |
| Registry.SubscribeThenUnsubscribe | signal/src/main/java/com/bwelco/signal/Signal.java:67-98 | from a registry holding none of the target's keys, subscribing then unsubscribing the same descriptors restores the registry exactly |
| Dispatch.RouteFor | signal/src/main/java/com/bwelco/signal/Signal.java:204-235 | the routing table, each case as an if-and-only-if: a null mode or posting-with-delay rejects; posting without delay, or main on the main thread, invokes inline; main off the main thread, background and async hand off to their own sender |
| Dispatch.Decide | signal/src/main/java/com/bwelco/signal/Signal.java:186-202 | an unregistered key is ignored exactly when absent; a parameter-count mismatch is reported exactly when the key is registered with a different arity, before any routing; otherwise the registration under the key is routed by its thread mode |
| Dispatch.DelayMattersOnlyForPosting | signal/src/main/java/com/bwelco/signal/Signal.java:206-234 | for any receiver that is not posting-thread, the delay flag does not change the decision |
| SignalBus.SendingThreadState.constructor | signal/src/main/java/com/bwelco/signal/Signal.java:28-33 | a thread starts with an empty queue and all flags false |
| SignalBus.Signal.constructor | signal/src/main/java/com/bwelco/signal/Signal.java:19-24 | the bus starts with an empty registry, an empty cache and nothing handed to any sender |
| SignalBus.Signal.FindRegistedMethod | signal/src/main/java/com/bwelco/signal/Signal.java:104-127 | a cached list is returned without consulting any finder; otherwise the index finder is consulted first and the reflexive one only when it returns null; a non-null result is cached and null never is |
| SignalBus.Signal.Subscribe | signal/src/main/java/com/bwelco/signal/Signal.java:67-84 | the new registry is the insert-until-present image of the old one (`Registry.Subscribed`) |
| SignalBus.Signal.SubScribe | signal/src/main/java/com/bwelco/signal/Signal.java:46-64 | a null descriptor list leaves the registry untouched; otherwise the descriptors found are subscribed; the cache is updated as the lookup says |
| SignalBus.Signal.UnSubScribe | signal/src/main/java/com/bwelco/signal/Signal.java:86-101 | a null list raises `NullPointerException` with the registry unchanged; otherwise the registry becomes the remove-until-missing image (`Registry.Unsubscribed`) |
| SignalBus.Signal.SubScribeThenUnSubScribe | signal/src/main/java/com/bwelco/signal/Signal.java:46-101 | when none of the target's keys is registered, subscribing then unsubscribing the same object leaves the registry as it was, and the unsubscribe ends normally exactly when descriptors are found |
| SignalBus.Signal.Send | signal/src/main/java/com/bwelco/signal/Signal.java:149-151 | from an idle thread, the event is delivered as `Dispatch.Decide` says with the delay flag off, so the posting-thread delay error never occurs; the registry and cache are unchanged |
| SignalBus.Signal.SendDelayed | signal/src/main/java/com/bwelco/signal/Signal.java:153-155 | from an idle thread, the event is delivered with the delay flag on; a registered posting-thread receiver of matching arity raises the delay error and nothing is delivered |
| SignalBus.Signal.SendEvent | signal/src/main/java/com/bwelco/signal/Signal.java:157-184 | while sending it only queues; otherwise it drains: the first event taken is the queue head, a normal end leaves the queue empty, the main-thread flag is reset, and from an idle thread the new event is delivered as decided; without nested sends the events are dispatched in FIFO order, all of them on a normal end |
| SignalBus.Signal.DrainQueue | signal/src/main/java/com/bwelco/signal/Signal.java:171-181 | the loop takes at least the head and stops at the first failure: every dispatch outcome but the last is normal and the result is the last one; a normal end empties the queue; when receivers do not send, it dispatches FIFO, one outcome per event taken, and a one-event queue delivers that event as decided |
| SignalBus.Signal.SendSingleEvent | signal/src/main/java/com/bwelco/signal/Signal.java:186-202 | the effect on the senders' logs and the outcome are those of `Dispatch.Decide` on the current registry and thread flags |
| SignalBus.Signal.SendEventToRegister | signal/src/main/java/com/bwelco/signal/Signal.java:204-235 | the effect is that of `Dispatch.RouteFor`: a rejection raises its fault and changes nothing, a hand-off appends the event to exactly that sender, inline delivery invokes the receiver |
| SignalBus.Signal.InvokeRegister | signal/src/main/java/com/bwelco/signal/Signal.java:238-246 | an access failure raises `IllegalStateException` and runs nothing; otherwise the receiver is recorded as invoked and whatever its body throws is swallowed |
| PendingEventPool.PendingEvent.constructor | app/src/main/java/com/bwelco/signal/SignalPackage/PendingEvent.java:32-35 | a new envelope holds the given event and registration, no successor, and the default index 0 |
| PendingEventPool.Pool.constructor | app/src/main/java/com/bwelco/signal/SignalPackage/PendingEvent.java:20-25 | ten distinct empty envelopes, a list that is never changed afterwards, and the free stack 0, 1, …, 9 with no duplicates |
| PendingEventPool.Pool.Obtain | app/src/main/java/com/bwelco/signal/SignalPackage/PendingEvent.java:37-51 | with a free slot, the top index is popped and its envelope is filled, records that index and has no successor, other envelopes unchanged; with none, a fresh envelope outside the pool with index 0 is returned and the stack and pool are unchanged |
| PendingEventPool.Pool.Release | app/src/main/java/com/bwelco/signal/SignalPackage/PendingEvent.java:53-60 | the envelope is cleared and its recorded index is pushed, pooled or not |
| PendingEventPool.Pool.ObtainThenRelease | app/src/main/java/com/bwelco/signal/SignalPackage/PendingEvent.java:40-58 | obtaining and releasing restores the free stack when a slot was free; from an empty stack it leaves slot 0 on it |
| PendingEventPool.DistinctSlotsFit | app/src/main/java/com/bwelco/signal/SignalPackage/PendingEvent.java:15-17 | a free stack without duplicates holds at most `POOL_SIZE` slots |
| PendingEventPool.DoubleFreeWitness | app/src/main/java/com/bwelco/signal/SignalPackage/PendingEvent.java:40-58 | a reachable state with slot 0 twice on the free stack, after which two live requests receive the same envelope |
| PendingEventPool.OverfullStackWitness | app/src/main/java/com/bwelco/signal/SignalPackage/PendingEvent.java:40-58 | a reachable state in which the free stack holds more indices than the pool has slots |
| PendingEventPool.Pool.ReleaseCorrected | app/src/main/java/com/bwelco/signal/SignalPackage/PendingEvent.java:53-60 | only an envelope that sits in the pool at its recorded slot gives the slot back; releasing each obtained envelope once keeps the free stack duplicate-free and within the pool size |
| PendingEventPool.CorrectedReleaseWitness | app/src/main/java/com/bwelco/signal/SignalPackage/PendingEvent.java:53-60 | on the same sequence, the corrected release leaves slot 0 free once and the two requests receive different envelopes |
| MethodFinderReflex.IsReceiver | app/src/main/java/com/bwelco/signal/SignalPackage/MethodFinderReflex.java:52-57 | a method is kept exactly when it is public, has none of the ABSTRACT, STATIC, BRIDGE (0x40) and SYNTHETIC (0x1000) bits, and is annotated |
| MethodFinderReflex.Selected | app/src/main/java/com/bwelco/signal/SignalPackage/MethodFinderReflex.java:47-64 | at most one entry per declared method; an entry is present exactly when some kept method has that name and parameter types; no entry has a thread mode |
| MethodFinderReflex.SelectedSnoc | app/src/main/java/com/bwelco/signal/SignalPackage/MethodFinderReflex.java:47-63 | entries keep declaration order: one more method adds at most its own entry at the end |
| MethodFinderReflex.FindByClass | app/src/main/java/com/bwelco/signal/SignalPackage/MethodFinderReflex.java:41-65 | the list only grows by appending, and what is appended is the class's kept methods in declaration order |
| MethodFinderReflex.ChainShape | app/src/main/java/com/bwelco/signal/SignalPackage/MethodFinderReflex.java:25-35 | the walk starts at the class, follows superclass links, visits no system-named class after the first, and ends at a class whose superclass is missing or system-named |
| MethodFinderReflex.ChainStep | app/src/main/java/com/bwelco/signal/SignalPackage/MethodFinderReflex.java:29-34 | a non-system superclass continues the walk: the class goes first, its own entries ahead of the superclass's |
| MethodFinderReflex.Harvest | app/src/main/java/com/bwelco/signal/SignalPackage/MethodFinderReflex.java:47-63 | the result never has more entries than the visited classes declare methods |
| MethodFinderReflex.HarvestAppend | app/src/main/java/com/bwelco/signal/SignalPackage/MethodFinderReflex.java:25-35 | results are ordered class by class along the walk |
| MethodFinderReflex.HarvestMembership | app/src/main/java/com/bwelco/signal/SignalPackage/MethodFinderReflex.java:21-38 | an entry is in the result exactly when some visited class declares a kept method it describes |
| MethodFinderReflex.FindSpec | app/src/main/java/com/bwelco/signal/SignalPackage/MethodFinderReflex.java:21-38 | the list `find` returns is never longer than the number of methods declared by the classes the walk visits (none for a null class); which entries and in what order is stated by `HarvestMembership`, `OwnMethodsFirst` and `ChainShape` |
| MethodFinderReflex.OwnMethodsFirst | app/src/main/java/com/bwelco/signal/SignalPackage/MethodFinderReflex.java:25-35 | below a non-system superclass, the class's own kept methods come first, followed by whatever the superclass's walk yields (or the same failure) |
| MethodFinderReflex.Find | app/src/main/java/com/bwelco/signal/SignalPackage/MethodFinderReflex.java:21-38 | the loop returns exactly `FindSpec` of its argument |

## Left out

- The reflective call of a receiver (`Method.invoke`) is an oracle `Handler`. It says whether access is refused, which nested sends the body makes and whether the body throws. Receiver side effects beyond nested sends are not modelled.
- The JVM stack is a bound `stack`. When it is exhausted, a nested send throws `StackOverflowError` inside the receiver body, and `Method.invoke` wraps and swallows it like any other body exception. Unbounded recursion is not modelled.
- A receiver body may catch the failure of one of its nested sends and go on (`SendRequest.caught`). A `StackOverflowError` at the stack bound is taken to end the body: a receiver that catches it and keeps sending is not modelled.
- `MethodFinderIndex` and the finders used by `findRegistedMethod` are oracles (`Finder`). They are not part of this model.
- `MainThreadSender`, the background sender and `AsyncSender` are sinks that record what they were handed. Their threads, `Handler`/`Looper` delivery, sleeping for the delay and later invocation are left out, because they are concurrency and timing.
- `AsyncSender.run` returns its envelope to the pool only after `invokeRegister` returns normally, since there is no `finally` (signal/src/main/java/com/bwelco/signal/AsyncSender.java:49-50). This is concurrent code and is not modelled. The pool itself is.
- `Looper.getMainLooper().getThread() == Thread.currentThread()` is the parameter `callerIsMain`.
- The `ThreadLocal` is left out. One thread's `SendingThreadState` is passed explicitly. `SendingThreadState.java`, `Event.java`, `RegisterInfo.java` and `RegisterMethodInfo.java` are not part of this model and are modelled from their use.
- `synchronized` blocks, the singleton `getDefault` and the lazy `getExecutorService` are left out, because they are locking and lazy initialisation. The static `REGISTERS` and `METHOD_CACHE` maps are fields of one `Signal` object, and the static pool is one `Pool` object.
- `EventLogger` calls and `printMethod` are left out, because they are logging only.
- Real reflection (`getDeclaredMethods`, `getAnnotation`, `getSuperclass`, `getName`) is replaced by the `ClassDecl`/`MethodDecl` metadata. Objects are a numeric identity and a class name.
- SignalBus.Signal.SendEvent: FIFO order is stated only when receivers make no nested sends. With nested sends only the first dispatched event and, from an idle thread, the delivery of the new event are stated. Hand-offs and invocations are stated to be appended, not listed.
- SignalBus.Signal.Send: the delivery is stated only from an idle thread (empty queue), the state every caller outside a receiver is in.
- SignalBus.Signal.SendDelayed: the delivery is stated only from an idle thread, as for `Send`.
- SignalBus.Signal.InvokeRegister: the logs after a body's nested sends are stated only as extended, with the receiver's own invocation first.

## Findings

| source | as written | input that shows it | evidently intended | confidence | as-written member | corrected member |
|---|---|---|---|---|---|---|
| app/src/main/java/com/bwelco/signal/SignalPackage/PendingEvent.java:58 | releasing an envelope pushes its `index` even when it was an unpooled overflow envelope, whose `index` is the default 0 | from the initial pool: obtain ten envelopes, obtain an eleventh (unpooled), release it, release the envelope of slot 0; the free stack is [0, 0] and the next two obtains return the same envelope to two live holders | only an envelope that belongs to the pool gives its slot back, so no slot is free twice | not executed | PendingEventPool.DoubleFreeWitness | PendingEventPool.Pool.ReleaseCorrected |
