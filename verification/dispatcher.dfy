/**
 The re-entrancy-guarded dispatcher of `Store`: `_dispatch` calls every
 listener in registration order, catching and logging whatever a listener
 throws, with `_isDispatching` set for the duration of the pass; `subscribe`
 appends a listener and is refused while a pass is running.
 */
module Dispatcher {
  import opened StoreState

  /** `subscribe(func)`: refused during a pass, otherwise appended to the end
      of the listener list, duplicates included. */
  function Subscribe(s: Store, l: Listener): (r: Result<Store>)
    ensures s.dispatching <==> r.Err?
    ensures r.Err? ==> r.error == SubscribeWhileDispatching
    ensures r.Ok? ==> |r.value.listeners| == |s.listeners| + 1 && r.value.listeners[|s.listeners|] == l
    ensures r.Ok? ==> r.value.listeners[..|s.listeners|] == s.listeners
    ensures r.Ok? ==> r.value.(listeners := s.listeners) == s
  {
    if s.dispatching then Err(SubscribeWhileDispatching)
    else Ok(s.(listeners := s.listeners + [l]))
  }

  /** A listener whose call ends in an exception when made during a pass:
      one that throws, or one that calls `subscribe` (refused while dispatching). */
  predicate RaisesDuringPass(l: Listener) {
    !l.body.Returns?
  }

  /** The listeners, in order, that raise when called during a pass. */
  function Raising(ls: seq<Listener>): seq<Listener> {
    if ls == [] then []
    else (if RaisesDuringPass(ls[0]) then [ls[0]] else []) + Raising(ls[1..])
  }

  /** Calls one listener on the store as it is during a pass and returns the
      exception it raised, if any. Nothing a modelled listener body (return,
      throw, `subscribe`) can do changes the store while the flag is set. */
  function Invoke(s: Store, l: Listener): (raised: Option<Error>)
    requires s.dispatching
    ensures raised.Some? <==> RaisesDuringPass(l)
    ensures l.body.Throws? ==> raised == Some(ListenerThrew(l.id))
    ensures l.body.Subscribes? ==> raised == Some(SubscribeWhileDispatching)
  {
    match l.body
    case Returns => None
    case Throws => Some(ListenerThrew(l.id))
    case Subscribes(other) =>
      var attempt := Subscribe(s, other);
      if attempt.Err? then Some(attempt.error) else None
  }

  /** The trace of one iteration of the loop: the call, then the caught exception if any. */
  function Segment(s: Store, l: Listener): seq<Entry>
    requires s.dispatching
  {
    [Called(l.id)] + (match Invoke(s, l) case Some(e) => [Logged(l.id, e)] case None => [])
  }

  /** The trace of a pass over `ls` on the store `s` with its flag set. */
  function Pass(s: Store, ls: seq<Listener>): seq<Entry>
    requires s.dispatching
  {
    if ls == [] then [] else Segment(s, ls[0]) + Pass(s, ls[1..])
  }

  /** `_dispatch()`. */
  function Dispatch(s: Store): (r: Step)
    ensures s.dispatching ==> r.raised == Some(DispatchWhileDispatching) && r.trace == []
    ensures !s.dispatching ==> r.raised == None
    ensures r.store == s
    ensures !s.dispatching ==> CalledIds(r.trace) == Ids(s.listeners)
    ensures !s.dispatching ==> LoggedIds(r.trace) == Ids(Raising(s.listeners))
  {
    if s.dispatching then Step(s, Some(DispatchWhileDispatching), [])
    else
      var during := s.(dispatching := true);
      PassCalledIds(during, s.listeners);
      PassLoggedIds(during, s.listeners);
      Step(during.(dispatching := false), None, Pass(during, s.listeners))
  }

  lemma {:induction false} PassAppend(s: Store, a: seq<Listener>, b: seq<Listener>)
    requires s.dispatching
    ensures Pass(s, a + b) == Pass(s, a) + Pass(s, b)
  {
    if a == [] {
      assert a + b == b;
    } else {
      assert (a + b)[0] == a[0];
      assert (a + b)[1..] == a[1..] + b;
      PassAppend(s, a[1..], b);
    }
  }

  /** Every listener of the pass is called exactly once, in registration order,
      whether or not earlier listeners threw. */
  lemma {:induction false} PassCalledIds(s: Store, ls: seq<Listener>)
    requires s.dispatching
    ensures CalledIds(Pass(s, ls)) == Ids(ls)
  {
    if ls != [] {
      PassCalledIds(s, ls[1..]);
      CalledIdsAppend(Segment(s, ls[0]), Pass(s, ls[1..]));
      var seg := Segment(s, ls[0]);
      assert seg[1..] == [] || seg[1..] == [seg[1]];
      assert CalledIds(seg) == [ls[0].id];
      assert Ids(ls) == [ls[0].id] + Ids(ls[1..]);
    }
  }

  /** Exactly the raising listeners have an exception logged, in order. */
  lemma {:induction false} PassLoggedIds(s: Store, ls: seq<Listener>)
    requires s.dispatching
    ensures LoggedIds(Pass(s, ls)) == Ids(Raising(ls))
  {
    if ls != [] {
      PassLoggedIds(s, ls[1..]);
      LoggedIdsAppend(Segment(s, ls[0]), Pass(s, ls[1..]));
      var seg := Segment(s, ls[0]);
      assert seg[1..] == [] || seg[1..] == [seg[1]];
      if RaisesDuringPass(ls[0]) {
        assert LoggedIds(seg) == [ls[0].id];
        assert Ids(Raising(ls)) == [ls[0].id] + Ids(Raising(ls[1..]));
      } else {
        assert LoggedIds(seg) == [];
        assert Raising(ls) == Raising(ls[1..]);
      }
    }
  }

  /** A listener that throws is caught, its exception logged right after its
      call, and every later listener is still called, in order. */
  lemma ThrowDoesNotStopPass(s: Store, i: nat)
    requires !s.dispatching && i < |s.listeners|
    requires RaisesDuringPass(s.listeners[i])
    ensures exists before, e, after ::
      Dispatch(s).trace == before + [Called(s.listeners[i].id), Logged(s.listeners[i].id, e)] + after
      && CalledIds(after) == Ids(s.listeners[i + 1..])
  {
    var during := s.(dispatching := true);
    var ls := s.listeners;
    assert ls == ls[..i] + [ls[i]] + ls[i + 1..];
    PassAppend(during, ls[..i] + [ls[i]], ls[i + 1..]);
    PassAppend(during, ls[..i], [ls[i]]);
    assert Pass(during, [ls[i]]) == Segment(during, ls[i]) + Pass(during, []);
    PassCalledIds(during, ls[i + 1..]);
    var e := Invoke(during, ls[i]).value;
    var before := Pass(during, ls[..i]);
    var after := Pass(during, ls[i + 1..]);
    assert Dispatch(s).trace == before + [Called(ls[i].id), Logged(ls[i].id, e)] + after;
  }

  /** A listener that calls `subscribe` during the pass gets the re-entrancy
      error, which is caught; the listener list is untouched. */
  lemma SubscribeInsidePassRefused(s: Store, i: nat)
    requires !s.dispatching && i < |s.listeners| && s.listeners[i].body.Subscribes?
    ensures Logged(s.listeners[i].id, SubscribeWhileDispatching) in Dispatch(s).trace
    ensures Dispatch(s).store.listeners == s.listeners
  {
    var during := s.(dispatching := true);
    var ls := s.listeners;
    assert ls == ls[..i] + [ls[i]] + ls[i + 1..];
    PassAppend(during, ls[..i] + [ls[i]], ls[i + 1..]);
    PassAppend(during, ls[..i], [ls[i]]);
    assert Pass(during, [ls[i]]) == Segment(during, ls[i]) + Pass(during, []);
    assert Segment(during, ls[i])[1] == Logged(ls[i].id, SubscribeWhileDispatching);
  }

  /** A listener subscribed at rest is called by the next dispatch after all
      earlier ones; subscribing it twice has it called twice. */
  lemma SubscribeThenDispatch(s: Store, l: Listener)
    requires !s.dispatching
    ensures Subscribe(s, l).Ok?
    ensures CalledIds(Dispatch(Subscribe(s, l).value).trace) == Ids(s.listeners) + [l.id]
    ensures Subscribe(Subscribe(s, l).value, l).Ok?
    ensures CalledIds(Dispatch(Subscribe(Subscribe(s, l).value, l).value).trace)
         == Ids(s.listeners) + [l.id, l.id]
  {
    var s1 := Subscribe(s, l).value;
    var s2 := Subscribe(s1, l).value;
    assert Ids(s1.listeners) == Ids(s.listeners) + [l.id];
    assert Ids(s2.listeners) == Ids(s.listeners) + [l.id, l.id];
  }

  /** The loop of `_dispatch`: set the flag, call each listener inside a
      try/catch that logs, clear the flag. It computes `Dispatch`. */
  method RunDispatch(s: Store) returns (r: Step)
    ensures r == Dispatch(s)
  {
    if s.dispatching {
      return Step(s, Some(DispatchWhileDispatching), []);
    }
    var cur := s.(dispatching := true);
    var trace: seq<Entry> := [];
    var i := 0;
    while i < |cur.listeners|
      invariant i <= |s.listeners|
      invariant trace == Pass(cur, s.listeners[..i])
    {
      var l := cur.listeners[i];
      trace := trace + [Called(l.id)];
      var raised := Invoke(cur, l);
      if raised.Some? {
        trace := trace + [Logged(l.id, raised.value)];
      }
      assert s.listeners[..i + 1] == s.listeners[..i] + [l];
      PassAppend(cur, s.listeners[..i], [l]);
      assert Pass(cur, [l]) == Segment(cur, l) + Pass(cur, []);
      i := i + 1;
    }
    assert s.listeners[..i] == s.listeners;
    cur := cur.(dispatching := false);
    r := Step(cur, None, trace);
  }
}
