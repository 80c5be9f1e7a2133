/**
 The state of one `Store` object: the dispatch flag and listener list of the
 dispatcher, the own data properties of the object, the lazy accessors that
 `lazyProp` installs, the `_lazyProps` value map and the `_loadedLazyProps`
 "requested" list. Everything is an immutable value; every operation of the
 store is a pure function from one such value to the next.
 */
module StoreState {

  /** Opaque identity of a listener callback. */
  type ListenerId = nat

  /** Opaque identity of a loader function passed to `lazyProp`. */
  type LoaderId = nat

  /** A JavaScript value as far as the store is concerned: `undefined` or some opaque value. */
  datatype Value = Undefined | Handle(id: nat)

  datatype Option<+T> = None | Some(value: T)

  datatype Result<+T> = Ok(value: T) | Err(error: Error)

  /** The exceptions the store's code can raise. */
  datatype Error =
    | DispatchWhileDispatching     // "Cannot call dispatch while dispatching"
    | SubscribeWhileDispatching    // "Cannot add listener while dispatching"
    | NullRequestedList            // TypeError: `_loadedLazyProps` is null
    | CannotRedefine               // TypeError: redefining a non-configurable property
    | ListenerThrew(listener: ListenerId)  // whatever a listener's own code throws

  /** What a listener does when it is called. `Subscribes(other)` calls
      `subscribe(other)` on the same store from inside the callback. */
  datatype Body = Returns | Throws | Subscribes(other: Listener)

  datatype Listener = Listener(id: ListenerId, body: Body)

  /** The accessor that `lazyProp` installs on the object, with the loader it closes over. */
  datatype Getter = Getter(loader: LoaderId, configurable: bool)

  /** `_loadedLazyProps`: a list of names, or `null` after a refresh without arguments. */
  datatype Requested = List(names: seq<string>) | AllCleared

  /** One asynchronous load started by a getter: which property, which loader. */
  datatype Load = Load(name: string, loader: LoaderId)

  /** One entry of the observable trace of a dispatch pass: a listener being
      called, and an exception it raised being caught and logged. */
  datatype Entry = Called(listener: ListenerId) | Logged(listener: ListenerId, error: Error)

  datatype Store = Store(
    dispatching: bool,
    listeners: seq<Listener>,
    fields: map<string, Value>,
    getters: map<string, Getter>,
    values: map<string, Value>,
    requested: Requested)

  /** The result of an operation that may dispatch: the store afterwards, the
      exception that escaped to the caller (if any) and the dispatch trace. */
  datatype Step = Step(store: Store, raised: Option<Error>, trace: seq<Entry>)

  /** A freshly constructed store whose own data properties are `fields`. */
  function Init(fields: map<string, Value>): (s: Store)
    ensures !s.dispatching && s.listeners == [] && s.requested == List([])
    ensures s.getters == map[] && s.values == map[] && s.fields == fields
  {
    Store(false, [], fields, map[], map[], List([]))
  }

  /** A list in which no name occurs twice. */
  ghost predicate NoDup(names: seq<string>) {
    forall x :: multiset(names)[x] <= 1
  }

  /** The name is in the requested list (and the list is not `null`). */
  predicate InList(r: Requested, name: string) {
    r.List? && name in r.names
  }

  /** The ids of a sequence of listeners, in order. */
  function Ids(ls: seq<Listener>): (ids: seq<ListenerId>)
    ensures |ids| == |ls|
    ensures forall i :: 0 <= i < |ls| ==> ids[i] == ls[i].id
  {
    seq(|ls|, i requires 0 <= i < |ls| => ls[i].id)
  }

  /** The listeners called, in the order the trace calls them. */
  function CalledIds(t: seq<Entry>): seq<ListenerId> {
    if t == [] then []
    else (if t[0].Called? then [t[0].listener] else []) + CalledIds(t[1..])
  }

  /** The listeners whose exceptions were logged, in order. */
  function LoggedIds(t: seq<Entry>): seq<ListenerId> {
    if t == [] then []
    else (if t[0].Logged? then [t[0].listener] else []) + LoggedIds(t[1..])
  }

  lemma {:induction false} CalledIdsAppend(a: seq<Entry>, b: seq<Entry>)
    ensures CalledIds(a + b) == CalledIds(a) + CalledIds(b)
  {
    if a == [] {
      assert a + b == b;
    } else {
      assert (a + b)[0] == a[0];
      assert (a + b)[1..] == a[1..] + b;
      CalledIdsAppend(a[1..], b);
    }
  }

  lemma {:induction false} LoggedIdsAppend(a: seq<Entry>, b: seq<Entry>)
    ensures LoggedIds(a + b) == LoggedIds(a) + LoggedIds(b)
  {
    if a == [] {
      assert a + b == b;
    } else {
      assert (a + b)[0] == a[0];
      assert (a + b)[1..] == a[1..] + b;
      LoggedIdsAppend(a[1..], b);
    }
  }
}
