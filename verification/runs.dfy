/**
 Sequences of events on one store. Loads run asynchronously in `Store`;
 here a started load is remembered as pending, and its completion is an
 event of its own, chosen from outside, carrying the loaded value. An
 "epoch" of a property is a stretch of events with no refresh that
 invalidates it; within one, its loader is started at most once.
 */
module Runs {
  import opened StoreState
  import Dispatcher
  import LazyProps
  import Invalidation

  /** A store together with the loads it has started that have not completed. */
  datatype Sys = Sys(store: Store, pending: seq<Load>)

  datatype Event =
    | Subscribe(listener: Listener)
    | LazyProp(name: string, loader: LoaderId)
    | Read(name: string)
    | Complete(index: nat, v: Value)          // pending load number `index` resolves to `v`
    | RefreshLazyProps(names: Option<seq<string>>)
    | RefreshLazyProp(name: string)

  /** What one event did: its escaped exception, its dispatch trace, the loads it started. */
  datatype Effect = Effect(raised: Option<Error>, trace: seq<Entry>, started: seq<Load>)

  function StartedSeq(o: Option<Load>): seq<Load> {
    if o.Some? then [o.value] else []
  }

  /** The effect of one event. A completion of a load that is not pending does nothing. */
  function Apply(sys: Sys, e: Event): (Sys, Effect) {
    var s := sys.store;
    match e
    case Subscribe(l) =>
      (match Dispatcher.Subscribe(s, l)
       case Ok(s') => (Sys(s', sys.pending), Effect(None, [], []))
       case Err(err) => (sys, Effect(Some(err), [], [])))
    case LazyProp(name, loader) =>
      var r := LazyProps.Register(s, name, loader);
      (Sys(r.store, sys.pending + StartedSeq(r.started)), Effect(r.raised, [], StartedSeq(r.started)))
    case Read(name) =>
      (match LazyProps.ReadProp(s, name)
       case Ok(read) =>
         (Sys(read.store, sys.pending + StartedSeq(read.started)), Effect(None, [], StartedSeq(read.started)))
       case Err(err) => (sys, Effect(Some(err), [], [])))
    case Complete(i, v) =>
      if i < |sys.pending| then
        var r := LazyProps.Complete(s, sys.pending[i], v);
        (Sys(r.store, sys.pending[..i] + sys.pending[i + 1..]), Effect(r.raised, r.trace, []))
      else (sys, Effect(None, [], []))
    case RefreshLazyProps(names) =>
      var r := Invalidation.RefreshLazyProps(s, names);
      (Sys(r.store, sys.pending), Effect(r.raised, r.trace, []))
    case RefreshLazyProp(name) =>
      var r := Invalidation.RefreshLazyProp(s, name);
      (Sys(r.store, sys.pending), Effect(r.raised, r.trace, []))
  }

  /** The system after a sequence of events, with every load started, in order. */
  function Run(sys: Sys, es: seq<Event>): (Sys, seq<Load>)
    decreases |es|
  {
    if es == [] then (sys, [])
    else
      var first := Apply(sys, es[0]);
      var rest := Run(first.0, es[1..]);
      (rest.0, first.1.started + rest.1)
  }

  /** The number of loads of property `name`. */
  function LoadsOf(loads: seq<Load>, name: string): nat {
    if loads == [] then 0
    else (if loads[0].name == name then 1 else 0) + LoadsOf(loads[1..], name)
  }

  /** The event ends the current epoch of `name`. */
  predicate Invalidates(e: Event, name: string) {
    || (e.RefreshLazyProps? && (e.names.None? || name in e.names.value))
    || (e.RefreshLazyProp? && e.name == name)
  }

  /** One event that does not invalidate `name` keeps it requested once it is,
      and starts a load of it exactly when it makes it requested. */
  lemma ApplyWithinEpoch(sys: Sys, e: Event, name: string)
    requires !Invalidates(e, name)
    ensures var (next, eff) := Apply(sys, e);
      && (InList(sys.store.requested, name) ==> InList(next.store.requested, name))
      && LoadsOf(eff.started, name)
         == (if InList(next.store.requested, name) && !InList(sys.store.requested, name) then 1 else 0)
  {
    var s := sys.store;
    match e
    case Subscribe(l) =>
    case LazyProp(n, loader) =>
    case Read(n) =>
    case Complete(i, v) =>
    case RefreshLazyProps(names) =>
      if names.Some? && s.requested.List? {
        var r := Invalidation.RefreshLazyProps(s, names);
        assert name in s.requested.names ==> multiset(r.store.requested.names)[name] > 0;
      }
    case RefreshLazyProp(n) =>
  }

  /** Within an epoch of `name`, the loads of `name` started by any sequence
      of events number one if the events made it requested and zero otherwise;
      so at most one, and none if it was already requested. */
  lemma {:induction false} AtMostOneLoadPerEpoch(sys: Sys, es: seq<Event>, name: string)
    requires forall i :: 0 <= i < |es| ==> !Invalidates(es[i], name)
    ensures InList(sys.store.requested, name) ==> InList(Run(sys, es).0.store.requested, name)
    ensures LoadsOf(Run(sys, es).1, name)
         == (if InList(Run(sys, es).0.store.requested, name) && !InList(sys.store.requested, name) then 1 else 0)
    ensures LoadsOf(Run(sys, es).1, name) <= 1
    decreases |es|
  {
    if es != [] {
      var first := Apply(sys, es[0]);
      ApplyWithinEpoch(sys, es[0], name);
      AtMostOneLoadPerEpoch(first.0, es[1..], name);
      LoadsOfAppend(first.1.started, Run(first.0, es[1..]).1, name);
    }
  }

  lemma {:induction false} LoadsOfAppend(a: seq<Load>, b: seq<Load>, name: string)
    ensures LoadsOf(a + b, name) == LoadsOf(a, name) + LoadsOf(b, name)
  {
    if a == [] {
      assert a + b == b;
    } else {
      assert (a + b)[0] == a[0];
      assert (a + b)[1..] == a[1..] + b;
      LoadsOfAppend(a[1..], b, name);
    }
  }

  lemma ApplyKeepsLazyAndList(sys: Sys, e: Event, name: string)
    requires name in sys.store.getters && sys.store.requested.List?
    requires !(e.RefreshLazyProps? && e.names.None?)
    ensures name in Apply(sys, e).0.store.getters && Apply(sys, e).0.store.requested.List?
  {
  }

  /** Within an epoch, if the property is lazy and the list is not null, a read
      of it among the events means its loader was started exactly once. */
  lemma {:induction false} ReadInEpochLoadsOnce(sys: Sys, es: seq<Event>, name: string)
    requires name in sys.store.getters && sys.store.requested.List? && name !in sys.store.requested.names
    requires forall i :: 0 <= i < |es| ==> !Invalidates(es[i], name)
    requires Read(name) in es
    ensures LoadsOf(Run(sys, es).1, name) == 1
    decreases |es|
  {
    var first := Apply(sys, es[0]);
    ApplyKeepsLazyAndList(sys, es[0], name);
    AtMostOneLoadPerEpoch(sys, es, name);
    AtMostOneLoadPerEpoch(first.0, es[1..], name);
    if !InList(first.0.store.requested, name) {
      assert es[0] != Read(name);
      assert Read(name) in es[1..];
      ReadInEpochLoadsOnce(first.0, es[1..], name);
    }
  }

  /** A requested list without duplicates keeps none: a read appends a name
      only when it is absent, and refreshing only deletes. */
  lemma ApplyKeepsNoDup(sys: Sys, e: Event)
    requires sys.store.requested.List? && NoDup(sys.store.requested.names)
    ensures var next := Apply(sys, e).0;
      next.store.requested.List? ==> NoDup(next.store.requested.names)
  {
    var s := sys.store;
    match e
    case RefreshLazyProps(names) =>
      if names.Some? {
        Invalidation.WithoutKeepsNoDup(s.requested.names, names.value);
      }
    case RefreshLazyProp(n) =>
      Invalidation.WithoutKeepsNoDup(s.requested.names, [n]);
    case _ =>
  }

  /** No event leaves the store in the middle of a dispatch: `_isDispatching`
      is false before and after every operation, so no top-level operation is
      refused for re-entrancy. */
  lemma AtRestStaysAtRest(sys: Sys, e: Event)
    requires !sys.store.dispatching
    ensures !Apply(sys, e).0.store.dispatching
    ensures Apply(sys, e).1.raised != Some(DispatchWhileDispatching)
    ensures Apply(sys, e).1.raised != Some(SubscribeWhileDispatching)
  {
  }

  /** `Run` of a non-empty sequence: the first event, then the rest. */
  lemma RunCons(sys: Sys, e: Event, rest: seq<Event>)
    ensures Run(sys, [e] + rest).0 == Run(Apply(sys, e).0, rest).0
    ensures Run(sys, [e] + rest).1 == Apply(sys, e).1.started + Run(Apply(sys, e).0, rest).1
  {
    assert ([e] + rest)[0] == e;
    assert ([e] + rest)[1..] == rest;
  }

  /** Invalidating a requested lazy property opens a new epoch: the next read
      starts its loader again, while the earlier load may still be pending. */
  lemma RefreshReopensEpoch(sys: Sys, name: string)
    requires !sys.store.dispatching && InList(sys.store.requested, name) && name in sys.store.getters
    ensures !InList(Apply(sys, RefreshLazyProp(name)).0.store.requested, name)
    ensures Apply(Apply(sys, RefreshLazyProp(name)).0, Read(name)).1.started
         == [Load(name, sys.store.getters[name].loader)]
  {
    var r := Invalidation.RefreshLazyProp(sys.store, name);
    assert Apply(sys, RefreshLazyProp(name)).0.store == r.store;
    assert r.store.getters == sys.store.getters && r.store.requested.List?;
    assert !InList(r.store.requested, name);
    assert LazyProps.ReadProp(r.store, name).Ok?;
  }

  /** `n` reads of the same property. */
  function Reads(name: string, n: nat): (es: seq<Event>)
    ensures |es| == n && forall i :: 0 <= i < n ==> es[i] == Read(name)
  {
    seq(n, _ => Read(name))
  }

  /** While a name stays requested, any number of further reads of it start no
      load, leave nothing pending that was not pending, and change nothing. */
  lemma {:induction false} RereadsStartNothing(sys: Sys, name: string, n: nat)
    requires InList(sys.store.requested, name)
    ensures Run(sys, Reads(name, n)) == (sys, [])
    ensures LoadsOf(Run(sys, Reads(name, n)).1, name) == 0
  {
    if n > 0 {
      assert Reads(name, n) == [Read(name)] + Reads(name, n - 1);
      RunCons(sys, Read(name), Reads(name, n - 1));
      assert LazyProps.ReadProp(sys.store, name).Ok?;
      assert sys.pending + [] == sys.pending;
      assert Apply(sys, Read(name)) == (sys, Effect(None, [], []));
      RereadsStartNothing(sys, name, n - 1);
    }
  }

  /** After `refreshLazyProps()` the list is `null`: a later read of any lazy
      property throws instead of starting its load, and changes nothing. */
  lemma ReadAfterRefreshAllThrows(sys: Sys, name: string)
    requires name in sys.store.getters
    ensures var next := Apply(sys, RefreshLazyProps(None)).0;
      && next.store.requested == AllCleared
      && Apply(next, Read(name)) == (next, Effect(Some(NullRequestedList), [], []))
  {
  }

  /** Two completions give two dispatch passes, one after the other, each
      calling every listener. */
  lemma TwoCompletionsTwoPasses(sys: Sys, v: Value, w: Value)
    requires !sys.store.dispatching && |sys.pending| >= 2
    ensures var (s1, e1) := Apply(sys, Complete(0, v));
      var (s2, e2) := Apply(s1, Complete(0, w));
      && e1.raised.None? && e2.raised.None?
      && CalledIds(e1.trace) == Ids(sys.store.listeners)
      && CalledIds(e2.trace) == Ids(sys.store.listeners)
      && s2.pending == sys.pending[2..]
  {
  }

  /** The example store before and after each event of the scenario below. */
  function Example(step: nat, l: Listener): Sys {
    var registered := Store(false, [], map[], map["test" := Getter(7, true)], map["test" := Handle(0)], List([]));
    var subscribed := registered.(listeners := [l]);
    var read := subscribed.(requested := List(["test"]));
    if step == 0 then Sys(Init(map["test" := Handle(0)]), [])
    else if step == 1 then Sys(registered, [])
    else if step == 2 then Sys(subscribed, [])
    else if step == 3 then Sys(read, [Load("test", 7)])
    else Sys(read.(values := map["test" := Handle(1)]), [])
  }

  lemma ExampleRegisters(l: Listener)
    ensures Apply(Example(0, l), LazyProp("test", 7)) == (Example(1, l), Effect(None, [], []))
  {
    var s0 := Example(0, l).store;
    var r := LazyProps.Register(s0, "test", 7);
    assert LazyProps.ReadProp(s0, "test") == Ok(LazyProps.ReadResult(s0, Handle(0), None));
    assert map["test" := Handle(0)] - {"test"} == map[];
    assert r.store.getters == map["test" := Getter(7, true)];
    assert r.store.values == map["test" := Handle(0)];
    assert r == LazyProps.Registration(Example(1, l).store, None, None);
    assert StartedSeq(r.started) == [];
    assert Apply(Example(0, l), LazyProp("test", 7)).1 == Effect(None, [], []);
    assert Apply(Example(0, l), LazyProp("test", 7)).0.pending == [];
    assert Apply(Example(0, l), LazyProp("test", 7)).0.store == Example(1, l).store;
  }

  lemma ExampleReads(l: Listener)
    ensures Apply(Example(2, l), Read("test")) == (Example(3, l), Effect(None, [], [Load("test", 7)]))
    ensures Apply(Example(3, l), Read("test")) == (Example(3, l), Effect(None, [], []))
  {
    var s2 := Example(2, l).store;
    assert [] + ["test"] == ["test"];
    assert LazyProps.ReadProp(s2, "test")
        == Ok(LazyProps.ReadResult(Example(3, l).store, Undefined, Some(Load("test", 7))));
    assert StartedSeq(Some(Load("test", 7))) == [Load("test", 7)];
    assert Apply(Example(2, l), Read("test")).0.pending == [Load("test", 7)];
    assert Apply(Example(2, l), Read("test")).0.store == Example(3, l).store;
    var s3 := Example(3, l).store;
    assert LazyProps.ReadProp(s3, "test") == Ok(LazyProps.ReadResult(s3, Undefined, None));
    assert Apply(Example(3, l), Read("test")).0.pending == [Load("test", 7)];
    assert Apply(Example(3, l), Read("test")).1.started == [];
  }

  lemma ExampleCompletes(l: Listener)
    ensures Apply(Example(3, l), Complete(0, Handle(1))).0 == Example(4, l)
  {
  }

  lemma ExampleTail(l: Listener)
    ensures Run(Example(2, l), [Read("test"), Read("test"), Complete(0, Handle(1))])
         == (Example(4, l), [Load("test", 7)])
  {
    ExampleReads(l);
    ExampleCompletes(l);
    RunCons(Example(3, l), Complete(0, Handle(1)), []);
    RunCons(Example(3, l), Read("test"), [Complete(0, Handle(1))]);
    RunCons(Example(2, l), Read("test"), [Read("test"), Complete(0, Handle(1))]);
  }

  /** The example store: a data property `test`, registered lazy, one listener,
      two reads, then the load completes with an opaque value. */
  lemma ExampleScenario(l: Listener)
    ensures var sys := Sys(Init(map["test" := Handle(0)]), []);
      var es := [LazyProp("test", 7), Subscribe(l), Read("test"), Read("test"), Complete(0, Handle(1))];
      var (final, loads) := Run(sys, es);
      && loads == [Load("test", 7)]
      && final.pending == []
      && "test" in final.store.values && final.store.values["test"] == Handle(1)
      && final.store.requested == List(["test"])
  {
    ExampleRegisters(l);
    assert Apply(Example(1, l), Subscribe(l)) == (Example(2, l), Effect(None, [], []));
    ExampleTail(l);
    RunCons(Example(1, l), Subscribe(l), [Read("test"), Read("test"), Complete(0, Handle(1))]);
    RunCons(Example(0, l), LazyProp("test", 7), [Subscribe(l), Read("test"), Read("test"), Complete(0, Handle(1))]);
  }
}
