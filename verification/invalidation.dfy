/**
 Invalidation of lazy properties: `refreshLazyProps(names)` drops the listed
 names from `_loadedLazyProps` so their next read loads again,
 `refreshLazyProps()` replaces the list by `null`, and `refreshLazyProp(name)`
 is the one-name case. Each then dispatches once.
 */
module Invalidation {
  import opened StoreState
  import Dispatcher

  /** `a` is obtained from `b` by deleting some elements, keeping the order of the rest. */
  ghost predicate Subsequence<T>(a: seq<T>, b: seq<T>)
    decreases |b|
  {
    a == [] || (b != [] && (Subsequence(a, b[1..]) || (a[0] == b[0] && Subsequence(a[1..], b[1..]))))
  }

  /** `names.filter(p => drop.indexOf(p) === -1)`. */
  function Without(names: seq<string>, drop: seq<string>): (r: seq<string>)
    ensures Subsequence(r, names)
    ensures forall x :: multiset(r)[x] == if x in drop then 0 else multiset(names)[x]
    ensures forall x :: x in r <==> x in names && x !in drop
  {
    if names == [] then []
    else
      var rest := Without(names[1..], drop);
      assert names == [names[0]] + names[1..];
      assert multiset(names) == multiset{names[0]} + multiset(names[1..]);
      if names[0] in drop then rest
      else
        assert ([names[0]] + rest)[1..] == rest;
        assert multiset([names[0]] + rest) == multiset{names[0]} + multiset(rest);
        [names[0]] + rest
  }

  /** `refreshLazyProps(names?)`. A present argument (even an empty list) filters
      the list, which throws when the list is `null`; an absent one sets it to `null`. */
  function RefreshLazyProps(s: Store, names: Option<seq<string>>): (r: Step)
    ensures names.None? ==> r.store == s.(requested := AllCleared)
    ensures names.Some? && s.requested.AllCleared? ==>
      r == Step(s, Some(NullRequestedList), [])
    ensures names.Some? && s.requested.List? ==>
      && r.store.(requested := s.requested) == s
      && r.store.requested.List?
      && Subsequence(r.store.requested.names, s.requested.names)
      && (forall x :: multiset(r.store.requested.names)[x]
                        == if x in names.value then 0 else multiset(s.requested.names)[x])
    // the dispatch happens unless the filter threw, and is refused only inside a pass
    ensures r.raised.None? <==> !s.dispatching && (names.None? || s.requested.List?)
    ensures r.raised.Some? && !s.dispatching ==> r.raised == Some(NullRequestedList)
    ensures r.raised.None? ==> CalledIds(r.trace) == Ids(s.listeners)
    ensures r.raised.None? ==> LoggedIds(r.trace) == Ids(Dispatcher.Raising(s.listeners))
    ensures s.dispatching && (names.None? || s.requested.List?) ==>
      r.raised == Some(DispatchWhileDispatching) && r.trace == []
  {
    match names
    case None => Dispatcher.Dispatch(s.(requested := AllCleared))
    case Some(drop) =>
      match s.requested
      case AllCleared => Step(s, Some(NullRequestedList), [])
      case List(l) => Dispatcher.Dispatch(s.(requested := List(Without(l, drop))))
  }

  /** `refreshLazyProp(name)`: removes just that name, keeping the others in order. */
  function RefreshLazyProp(s: Store, name: string): (r: Step)
    ensures s.requested.List? ==>
      && r.store.requested.List?
      && Subsequence(r.store.requested.names, s.requested.names)
      && (forall x :: x in r.store.requested.names <==> x in s.requested.names && x != name)
      && (forall x :: x != name ==> multiset(r.store.requested.names)[x] == multiset(s.requested.names)[x])
    ensures s.requested.List? ==> r.store.(requested := s.requested) == s
    ensures s.requested.AllCleared? ==> r.store == s && r.raised == Some(NullRequestedList) && r.trace == []
    ensures r.raised.None? <==> !s.dispatching && s.requested.List?
    // the dispatch that follows the filter calls every listener once, in order, and logs the raising ones
    ensures r.raised.None? ==> CalledIds(r.trace) == Ids(s.listeners)
    ensures r.raised.None? ==> LoggedIds(r.trace) == Ids(Dispatcher.Raising(s.listeners))
    ensures s.dispatching && s.requested.List? ==>
      r.raised == Some(DispatchWhileDispatching) && r.trace == []
  {
    RefreshLazyProps(s, Some([name]))
  }

  /** Filtering keeps a list free of duplicates. */
  lemma WithoutKeepsNoDup(names: seq<string>, drop: seq<string>)
    requires NoDup(names)
    ensures NoDup(Without(names, drop))
  {
    var r := Without(names, drop);
    forall x ensures multiset(r)[x] <= 1 {
      assert multiset(r)[x] <= multiset(names)[x];
    }
  }

  /** After `refreshLazyProps()` the list is `null`, so every later
      `refreshLazyProps(names)` throws on it without dispatching. */
  lemma RefreshAllBreaksLaterRefreshes(s: Store, names: seq<string>)
    ensures RefreshLazyProps(s, None).store.requested == AllCleared
    ensures RefreshLazyProps(RefreshLazyProps(s, None).store, Some(names)).raised == Some(NullRequestedList)
    ensures RefreshLazyProps(RefreshLazyProps(s, None).store, Some(names)).trace == []
  {
  }
}
