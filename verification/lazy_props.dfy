/**
 The lazy-property registry of `Store`. `lazyProp(name, loader)` seeds
 `_lazyProps[name]` with the property's current value and replaces the
 property with an accessor. The accessor, on a read whose name is not yet in
 `_loadedLazyProps`, appends the name and starts the loader; it returns
 nothing. The asynchronous completion of a load is a separate event: it
 writes the loaded value into `_lazyProps` and dispatches.
 */
module LazyProps {
  import opened StoreState
  import Dispatcher

  /** What a property read yields: the store afterwards, the value the read
      returns, and the load it started (if any). */
  datatype ReadResult = ReadResult(store: Store, value: Value, started: Option<Load>)

  /** The outcome of `lazyProp`: the store afterwards, the exception it
      raised (if any), and the load its own read of the property started. */
  datatype Registration = Registration(store: Store, raised: Option<Error>, started: Option<Load>)

  /** The value of a property that has no lazy accessor: the own data property, or `undefined`. */
  function PlainValue(s: Store, name: string): Value {
    if name in s.fields then s.fields[name] else Undefined
  }

  /** Reading `store[name]`. For a lazy property this runs the accessor. */
  function ReadProp(s: Store, name: string): (r: Result<ReadResult>)
    ensures r.Err? <==> name in s.getters && s.requested.AllCleared?
    ensures r.Err? ==> r.error == NullRequestedList
    ensures r.Ok? && name in s.getters ==> r.value.value == Undefined
    ensures r.Ok? && name !in s.getters ==> r.value == ReadResult(s, PlainValue(s, name), None)
    // a load starts exactly when the name was not yet requested, and it uses the accessor's loader
    ensures r.Ok? ==> (r.value.started.Some? <==> name in s.getters && !InList(s.requested, name))
    ensures r.Ok? && r.value.started.Some? ==>
      r.value.started.value == Load(name, s.getters[name].loader)
    // only the requested list changes; the name ends up in it, appended at most once
    ensures r.Ok? ==> r.value.store.(requested := s.requested) == s
    ensures r.Ok? && name in s.getters ==> InList(r.value.store.requested, name)
    ensures r.Ok? && r.value.started.Some? ==> r.value.store.requested.names == s.requested.names + [name]
    ensures r.Ok? && r.value.started.None? ==> r.value.store == s
    ensures r.Ok? && s.requested.List? && NoDup(s.requested.names) ==>
      r.value.store.requested.List? && NoDup(r.value.store.requested.names)
  {
    if name !in s.getters then Ok(ReadResult(s, PlainValue(s, name), None))
    else
      match s.requested
      case AllCleared => Err(NullRequestedList)
      case List(names) =>
        if name in names then Ok(ReadResult(s, Undefined, None))
        else
          var after := names + [name];
          assert multiset(after) == multiset(names) + multiset{name};
          Ok(ReadResult(s.(requested := List(after)), Undefined, Some(Load(name, s.getters[name].loader))))
  }

  /** `lazyProp(name, loader)`: evaluate `this[name]` (running an existing
      accessor, with its effects), store it in `_lazyProps[name]`, then install
      the accessor; redefining a non-configurable accessor throws. */
  function Register(s: Store, name: string, loader: LoaderId): (r: Registration)
    // the only failures: the existing accessor throws on a null list, or cannot be redefined
    ensures r.raised.Some? <==>
      name in s.getters && (s.requested.AllCleared? || !s.getters[name].configurable)
    ensures name in s.getters && s.requested.AllCleared? ==>
      r == Registration(s, Some(NullRequestedList), None)
    ensures name in s.getters && s.requested.List? && !s.getters[name].configurable ==>
      r.raised == Some(CannotRedefine)
    // the prior value is seeded whenever the read succeeded
    ensures !(name in s.getters && s.requested.AllCleared?) ==>
      r.store.values == s.values[name := if name in s.getters then Undefined else PlainValue(s, name)]
    ensures r.raised.None? ==> name in r.store.getters && r.store.getters[name].loader == loader
    ensures r.raised.None? ==> name !in r.store.fields
    ensures r.raised.None? ==> r.store.getters.Keys == s.getters.Keys + {name}
    ensures r.raised.None? ==> forall k :: k in s.getters && k != name ==> r.store.getters[k] == s.getters[k]
    ensures r.raised == Some(CannotRedefine) ==> r.store.getters == s.getters
    // the other own data properties are untouched
    ensures r.raised.None? ==> r.store.fields == s.fields - {name}
    ensures r.raised == Some(CannotRedefine) ==> r.store.fields == s.fields
    // a data property or a redefined accessor stays configurable; a property that did not exist is not
    ensures r.raised.None? ==> r.store.getters[name].configurable == (name in s.fields || name in s.getters)
    ensures r.store.listeners == s.listeners && r.store.dispatching == s.dispatching
    ensures r.store.getters.Keys >= s.getters.Keys
    ensures r.store.requested.List? == s.requested.List?
    ensures forall k :: InList(s.requested, k) ==> InList(r.store.requested, k)
    ensures r.started.Some? <==> name in s.getters && s.requested.List? && name !in s.requested.names
    ensures r.started.Some? ==> r.started.value == Load(name, s.getters[name].loader)
    // the requested list changes only by the read's append
    ensures r.store.requested == (if r.started.Some? then List(s.requested.names + [name]) else s.requested)
  {
    match ReadProp(s, name)
    case Err(e) => Registration(s, Some(e), None)
    case Ok(read) =>
      var seeded := read.store.(values := read.store.values[name := read.value]);
      if name in s.getters && !s.getters[name].configurable then
        Registration(seeded, Some(CannotRedefine), read.started)
      else
        var configurable := name in s.fields || name in s.getters;
        Registration(
          seeded.(fields := seeded.fields - {name},
                  getters := seeded.getters[name := Getter(loader, configurable)]),
          None, read.started)
  }

  /** The completion of a load with value `v`: `_lazyProps[name] = v`, then `_dispatch()`. */
  function Complete(s: Store, load: Load, v: Value): (r: Step)
    ensures r.store.values == s.values[load.name := v]
    ensures r.store.(values := s.values) == s
    ensures r.raised.Some? <==> s.dispatching
    ensures !s.dispatching ==> CalledIds(r.trace) == Ids(s.listeners)
    ensures s.dispatching ==> r.trace == []
    // the dispatch logs exactly the raising listeners, and is refused inside a pass
    ensures !s.dispatching ==> LoggedIds(r.trace) == Ids(Dispatcher.Raising(s.listeners))
    ensures s.dispatching ==> r.raised == Some(DispatchWhileDispatching)
  {
    Dispatcher.Dispatch(s.(values := s.values[load.name := v]))
  }

  /** The first read of an unrequested lazy property starts one load; a second
      read starts none and returns the same nothing. */
  lemma ReadTwiceStartsOnce(s: Store, name: string)
    requires name in s.getters && s.requested.List? && name !in s.requested.names
    ensures ReadProp(s, name).Ok? && ReadProp(s, name).value.started.Some?
    ensures ReadProp(ReadProp(s, name).value.store, name).Ok?
    ensures ReadProp(ReadProp(s, name).value.store, name).value.started.None?
    ensures ReadProp(ReadProp(s, name).value.store, name).value.store == ReadProp(s, name).value.store
  {
  }

  /** After registering a fresh property, its first read starts the given
      loader, and the property's former value sits in `_lazyProps`. */
  lemma RegisterThenRead(s: Store, name: string, loader: LoaderId)
    requires name !in s.getters && s.requested.List? && name !in s.requested.names
    ensures Register(s, name, loader).raised.None?
    ensures var s' := Register(s, name, loader).store;
      && s'.values[name] == PlainValue(s, name)
      && ReadProp(s', name).Ok?
      && ReadProp(s', name).value.started == Some(Load(name, loader))
      && ReadProp(s', name).value.value == Undefined
  {
  }

  /** The accessor never returns the loaded value: after a completion, a read
      still yields `undefined` although `_lazyProps` holds the value. */
  lemma ReadAfterCompletionYieldsUndefined(s: Store, name: string, v: Value)
    requires name in s.getters && s.requested.List? && !s.dispatching
    ensures Complete(s, Load(name, s.getters[name].loader), v).store.values[name] == v
    ensures ReadProp(Complete(s, Load(name, s.getters[name].loader), v).store, name).Ok?
    ensures ReadProp(Complete(s, Load(name, s.getters[name].loader), v).store, name).value.value == Undefined
  {
  }
}
