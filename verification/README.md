# Lazy-property store, modelled in Dafny

This project models the `Store` class of `react-lazy-loader`. `Store` is a small reactive cache with two parts:

- **A dispatcher.** `_dispatch` calls every subscribed listener in order. It catches and logs whatever a listener throws. It refuses to run while another pass is running, which it tracks with `_isDispatching`. `subscribe` appends a listener, and is also refused during a pass.
- **A lazy-property registry.** `lazyProp(name, loader)` seeds `_lazyProps[name]` with the property's current value. It then turns the property into an accessor. On a read whose name is not in `_loadedLazyProps`, the accessor appends the name and starts the loader. When the load resolves, the value is written to `_lazyProps` and a dispatch runs. `refreshLazyProps(names)` removes names from `_loadedLazyProps`. `refreshLazyProps()` sets it to `null`. `refreshLazyProp(name)` is the one-name case. Each refresh then dispatches.

The store is an immutable record (`StoreState.Store`), and every operation is a pure function from one store to the next:

- A listener is an opaque id plus a body. The body either returns, throws, or calls `subscribe` on the same store.
- JavaScript values are `undefined` or opaque handles.
- `_loadedLazyProps` is `List(names)` or `AllCleared`, where `AllCleared` stands for the `null` the no-argument refresh stores.
- A dispatch pass produces a trace. It records each listener call and each caught-and-logged exception.

The asynchronous load is split into two events, both in `Runs`:

- the read that starts it, which adds it to a pending list;
- its completion with a value, chosen from outside.

`Runs` applies sequences of these events and proves the per-epoch load bound. An epoch of a property is a stretch of events with no refresh that invalidates it.

The code has four behaviours a caller might not expect:

- The accessor returns nothing. A read of a lazy property always yields `undefined`, before and after its load completes, although `_lazyProps` holds the loaded value (`ReadAfterCompletionYieldsUndefined`).
- The `null` list is reachable. After `refreshLazyProps()`, every read of a lazy property throws a `TypeError` on `null.indexOf` instead of restarting its load. So does every later `refreshLazyProps(names)`, on `null.filter` (`Runs.ReadAfterRefreshAllThrows`, `Invalidation.RefreshAllBreaksLaterRefreshes`).
- A failed load is not handled at all. Its promise rejects unobserved, and the name stays requested.
- `refreshLazyProps([])` takes the filtering branch, because an empty array is truthy. It dispatches and removes nothing.

## Model

| member | source | states |
|---|---|---|
| `StoreState.Init` | Index.tsx:4-27 | a new store is not dispatching, has no listeners, no accessors, an empty `_lazyProps` and an empty requested list |
| `Dispatcher.Subscribe` | Index.tsx:65-71 | refused with the re-entrancy error exactly when a pass is running; otherwise the listener is appended at the end, the earlier listeners keep their places, and nothing else changes |
| `Dispatcher.Invoke` | Index.tsx:14-20 | during a pass, a listener raises exactly when it throws or calls `subscribe`; the latter gets the "add listener while dispatching" error |
| `Dispatcher.Dispatch` | Index.tsx:7-24 | while dispatching it throws and calls no listener; otherwise it raises nothing, calls every registered listener exactly once in registration order, logs exactly the raising listeners' exceptions in order, and leaves the store as it found it (flag false again) |
| `Dispatcher.RunDispatch` | Index.tsx:7-24 | the for-loop with try/catch, run with the flag set on the store, computes the same result and trace as `Dispatch` |
| `Dispatcher.PassAppend` | Index.tsx:14-21 | the trace of a pass over two lists of listeners is the first list's trace followed by the second's |
| `Dispatcher.PassCalledIds` | Index.tsx:14-17 | the listeners called in a pass are exactly the given listeners, once each, in order |
| `Dispatcher.PassLoggedIds` | Index.tsx:15-20 | the listeners whose exceptions are logged are exactly those that raise, in order |
| `Dispatcher.ThrowDoesNotStopPass` | Index.tsx:14-21 | a raising listener's call is followed at once by the logged exception, and then every later listener is still called, in order |
| `Dispatcher.SubscribeInsidePassRefused` | Index.tsx:66-68 | a listener that subscribes during a pass gets the re-entrancy error, which is logged, and the listener list is unchanged |
| `Dispatcher.SubscribeThenDispatch` | Index.tsx:70 | a listener subscribed at rest is called last by the next dispatch; subscribed twice, it is called twice (no de-duplication) |
| `LazyProps.ReadProp` | Index.tsx:35-45 | reading a lazy property throws exactly when the requested list is null; otherwise it returns `undefined`, starts the accessor's loader exactly when the name was not requested, appends the name at most once and changes nothing else; duplicate-freedom of the list is kept |
| `LazyProps.Register` | Index.tsx:29-47 | the property's current value (running an existing accessor, with its effects) is seeded into `_lazyProps`; the accessor with the new loader is installed and the own data property removed; the accessor is configurable exactly when the name already had a data property or an accessor, except that the old accessor's null-list error is rethrown, and redefining a non-configurable accessor throws the redefinition `TypeError` after the read's effects; other own properties, other accessors, listeners and flag are untouched, and the requested list changes only when that read appends the name and starts the old loader |
| `LazyProps.Complete` | Index.tsx:39-43 | a completion overwrites only `_lazyProps[name]`, then dispatches once, calling every listener in order and logging exactly the raising ones; inside a pass that dispatch throws the re-entrancy error; it writes even if the name was refreshed meanwhile |
| `LazyProps.ReadTwiceStartsOnce` | Index.tsx:36-44 | of two reads of an unrequested lazy property, the first starts a load and the second starts none |
| `LazyProps.RegisterThenRead` | Index.tsx:32-44 | after registering a fresh property, `_lazyProps` holds its prior value and the first read starts exactly the registered loader |
| `LazyProps.ReadAfterCompletionYieldsUndefined` | Index.tsx:35-45 | after a completion `_lazyProps[name]` holds the value, but a read still returns `undefined` |
| `Invalidation.Without` | Index.tsx:55 | the filter keeps an order-preserving subsequence of the list with exactly the unlisted names, each as often as before |
| `Invalidation.RefreshLazyProps` | Index.tsx:53-62 | without names the list becomes null; with names (even none) a null list throws with no dispatch, otherwise exactly the listed names are removed, the rest keep their order, and nothing else changes; the dispatch that follows calls every listener once in order, logs the raising ones, and is refused only inside a pass |
| `Invalidation.RefreshLazyProp` | Index.tsx:49-62 | removes exactly that one name and keeps the other names and their order; on a null list it throws, changes nothing and dispatches nothing; otherwise the dispatch that follows calls every listener once in order and logs the raising ones, and is refused only inside a pass |
| `Invalidation.WithoutKeepsNoDup` | Index.tsx:55 | filtering a duplicate-free list leaves it duplicate-free |
| `Invalidation.RefreshAllBreaksLaterRefreshes` | Index.tsx:55-58 | after the no-argument refresh the list is null, and a later named refresh throws without dispatching |
| `Runs.ApplyWithinEpoch` | Index.tsx:36-44 | an event that does not invalidate a name keeps it requested once it is, and starts a load of it exactly when it makes it requested |
| `Runs.AtMostOneLoadPerEpoch` | Index.tsx:36-44 | over any event sequence without an invalidation of a name, at most one load of it starts, and none if it was already requested |
| `Runs.ReadInEpochLoadsOnce` | Index.tsx:36-44 | within an epoch, if the property is lazy and unrequested and is read at least once, exactly one load of it starts |
| `Runs.ApplyKeepsNoDup` | Index.tsx:36-37 | no event puts a name into the requested list twice |
| `Runs.AtRestStaysAtRest` | Index.tsx:12-23 | `_isDispatching` is false after every top-level operation that found it false, so none is refused for re-entrancy |
| `Runs.RereadsStartNothing` | Index.tsx:36-44 | while the name stays requested, any number of reads of it start no load and change neither the store nor the pending loads |
| `Runs.ReadAfterRefreshAllThrows` | Index.tsx:36-58 | after the no-argument refresh, a read of any lazy property throws on the null list, starts no load and changes nothing |
| `Runs.RefreshReopensEpoch` | Index.tsx:49-55 | refreshing a requested lazy property takes it out of the list, and the next read starts its loader again |
| `Runs.TwoCompletionsTwoPasses` | Index.tsx:39-43 | two completions give two successive full dispatch passes and consume two pending loads |
| `Runs.ExampleScenario` | Index.tsx:88-96 | for the example store, registering `test`, subscribing, reading twice and completing with an opaque loaded value starts one load, writes that value into `_lazyProps`, and leaves `test` requested |

## Left out

- `subscribeComponent` (React `useState` glue) and the example code after the class (store, fetch function with its timer and counter, component, dummy `useState`). The scenario lemma only reuses the example store's shape.
- Promise scheduling. Starting a load and completing it are separate events, and completions can come in any order. The model has no failure event. A rejected load writes nothing and dispatches nothing, which the model shows as a load that stays pending. What the loader does is not modelled.
- `console.error`: a caught exception becomes a `Logged` trace entry.
- Listener bodies are limited to returning, throwing, or calling `subscribe`. A listener that refreshes lazy properties during a pass would change the list mid-pass, and then its nested `_dispatch` would throw and be logged. A listener that reads a lazy property during a pass would append the name and start a load, whose completion dispatches after the pass. Neither case is modelled.
- Property reads see only own data properties and the installed accessors, not the prototype chain.
- Property attributes: own data properties are taken to be configurable. An accessor installed on a name that had no own property is not configurable. That is the `Object.defineProperty` default, and it makes a second `lazyProp` on that name throw.
- The unused `fetched` variable and the `keyof this` typing. Names are plain strings.
