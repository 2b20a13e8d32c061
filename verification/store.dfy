/** The store engine built by `createStore`: a current state that only
    `dispatch` replaces (through the reducer), and a list of listeners that
    `subscribe` appends to and each unsubscribe handle removes from.

    Listeners are callbacks compared by reference in src/index.js, so here a
    listener is an opaque identifier and calling it is recorded in a ghost
    trace of notifications. */
module Store {

  /** Identity of a registered listener callback. */
  type ListenerId = nat

  // ---------------------------------------------------------------------
  // Specification functions on sequences
  // ---------------------------------------------------------------------

  /** Left fold of a reducer over a sequence of actions, first action first. */
  function Fold<S, A>(reducer: (S, A) -> S, s: S, actions: seq<A>): S
    decreases |actions|
  {
    if actions == [] then s else Fold(reducer, reducer(s, actions[0]), actions[1..])
  }

  /** Folding one more action at the end applies the reducer once more to the
      state reached so far. */
  lemma {:induction false} FoldSnoc<S, A>(reducer: (S, A) -> S, s: S, actions: seq<A>, a: A)
    ensures Fold(reducer, s, actions + [a]) == reducer(Fold(reducer, s, actions), a)
    decreases |actions|
  {
    if actions == [] {
      assert [] + [a] == [a];
    } else {
      assert (actions + [a])[1..] == actions[1..] + [a];
      FoldSnoc(reducer, reducer(s, actions[0]), actions[1..], a);
    }
  }

  /** Folding a concatenation is folding the second part from where the first
      part left off. */
  lemma {:induction false} FoldAppend<S, A>(reducer: (S, A) -> S, s: S, xs: seq<A>, ys: seq<A>)
    ensures Fold(reducer, s, xs + ys) == Fold(reducer, Fold(reducer, s, xs), ys)
    decreases |xs|
  {
    if xs == [] {
      assert [] + ys == ys;
    } else {
      assert (xs + ys)[1..] == xs[1..] + ys;
      FoldAppend(reducer, reducer(s, xs[0]), xs[1..], ys);
    }
  }

  /** `Array.prototype.indexOf` with strict equality: the position of the
      first occurrence of `x`, or -1 when `x` does not occur. */
  function IndexOf<T(==)>(s: seq<T>, x: T): (r: int)
    ensures -1 <= r < |s|
    ensures r == -1 <==> x !in s
    ensures 0 <= r ==> s[r] == x && x !in s[..r]
  {
    if s == [] then -1
    else if s[0] == x then 0
    else
      var i := IndexOf(s[1..], x);
      if i < 0 then -1
      else
        assert s[..i + 1] == [s[0]] + s[1..][..i];
        i + 1
  }

  /** Reference definition of removing the first occurrence of `x`. */
  function RemoveFirst<T(==)>(s: seq<T>, x: T): seq<T>
  {
    if s == [] then []
    else if s[0] == x then s[1..]
    else [s[0]] + RemoveFirst(s[1..], x)
  }

  /** Number of occurrences of `x` in `s`. */
  function Count<T(==)>(s: seq<T>, x: T): nat
  {
    if s == [] then 0 else (if s[0] == x then 1 else 0) + Count(s[1..], x)
  }

  /** `s` written out `n` times in a row. */
  function Repeat<T>(s: seq<T>, n: nat): seq<T>
  {
    if n == 0 then [] else Repeat(s, n - 1) + s
  }

  // ---------------------------------------------------------------------
  // Lemmas about removal, counting and repetition
  // ---------------------------------------------------------------------

  /** Splicing out the element at `IndexOf(s, x)`, as the unsubscribe closure
      does, is removing the first occurrence of `x`; what is left keeps its
      order. */
  lemma {:induction false} SpliceIsRemoveFirst<T>(s: seq<T>, x: T)
    requires x in s
    ensures 0 <= IndexOf(s, x) < |s|
    ensures s[..IndexOf(s, x)] + s[IndexOf(s, x) + 1..] == RemoveFirst(s, x)
  {
    if s[0] != x {
      SpliceIsRemoveFirst(s[1..], x);
      var i := IndexOf(s[1..], x);
      assert s[..i + 1] == [s[0]] + s[1..][..i];
      assert s[i + 2..] == s[1..][i + 1..];
    }
  }

  /** Removing a value that does not occur changes nothing. */
  lemma {:induction false} RemoveFirstAbsent<T>(s: seq<T>, x: T)
    requires x !in s
    ensures RemoveFirst(s, x) == s
  {
    if s != [] {
      RemoveFirstAbsent(s[1..], x);
      assert [s[0]] + s[1..] == s;
    }
  }

  /** Count of a concatenation. */
  lemma {:induction false} CountAppend<T>(a: seq<T>, b: seq<T>, x: T)
    ensures Count(a + b, x) == Count(a, x) + Count(b, x)
  {
    if a == [] {
      assert [] + b == b;
    } else {
      assert (a + b)[1..] == a[1..] + b;
      CountAppend(a[1..], b, x);
    }
  }

  /** A value occurs iff its count is positive. */
  lemma {:induction false} CountPositiveIffIn<T>(s: seq<T>, x: T)
    ensures Count(s, x) > 0 <==> x in s
  {
    if s != [] {
      CountPositiveIffIn(s[1..], x);
      assert s == [s[0]] + s[1..];
    }
  }

  /** Removing the first occurrence of `x` lowers the count of `x` by one
      when `x` is present, and leaves the count of every other value alone. */
  lemma {:induction false} RemoveFirstCount<T>(s: seq<T>, x: T, y: T)
    ensures |RemoveFirst(s, x)| == if x in s then |s| - 1 else |s|
    ensures Count(RemoveFirst(s, x), y) == if y == x && x in s then Count(s, y) - 1 else Count(s, y)
  {
    if s != [] {
      RemoveFirstCount(s[1..], x, y);
      assert s == [s[0]] + s[1..];
      if s[0] != x {
        var rest := RemoveFirst(s[1..], x);
        assert ([s[0]] + rest)[1..] == rest;
      }
    }
  }

  /** A listener subscribed once and then removed does not occur any more, so
      a second removal of it is a no-op. */
  lemma {:induction false} RemoveFirstTwice<T>(s: seq<T>, x: T)
    requires Count(s, x) <= 1
    ensures x !in RemoveFirst(s, x)
    ensures RemoveFirst(RemoveFirst(s, x), x) == RemoveFirst(s, x)
  {
    RemoveFirstCount(s, x, x);
    CountPositiveIffIn(s, x);
    CountPositiveIffIn(RemoveFirst(s, x), x);
    RemoveFirstAbsent(RemoveFirst(s, x), x);
  }

  /** A listener registered at least twice keeps being found: two removals
      take out two of its entries, so one handle called twice removes both
      registrations of a duplicated callback. */
  lemma RemoveFirstDuplicate<T>(s: seq<T>, x: T)
    requires Count(s, x) >= 2
    ensures x in RemoveFirst(s, x)
    ensures Count(RemoveFirst(RemoveFirst(s, x), x), x) == Count(s, x) - 2
    ensures |RemoveFirst(RemoveFirst(s, x), x)| == |s| - 2
  {
    CountPositiveIffIn(s, x);
    RemoveFirstCount(s, x, x);
    CountPositiveIffIn(RemoveFirst(s, x), x);
    RemoveFirstCount(RemoveFirst(s, x), x, x);
  }

  /** Subscribing a fresh listener and unsubscribing it at once restores the
      listener list. */
  lemma {:induction false} SubscribeThenUnsubscribe<T>(s: seq<T>, x: T)
    requires x !in s
    ensures RemoveFirst(s + [x], x) == s
  {
    if s == [] {
      assert [] + [x] == [x];
    } else {
      assert (s + [x])[1..] == s[1..] + [x];
      SubscribeThenUnsubscribe(s[1..], x);
      assert [s[0]] + s[1..] == s;
    }
  }

  /** `n` rounds of notifying the list `ls` call each listener `n` times as
      often as it occurs in `ls`. */
  lemma {:induction false} CountRepeat<T>(ls: seq<T>, n: nat, x: T)
    ensures Count(Repeat(ls, n), x) == n * Count(ls, x)
  {
    if n > 0 {
      CountRepeat(ls, n - 1, x);
      CountAppend(Repeat(ls, n - 1), ls, x);
    }
  }

  /** Round `k` of `n` rounds of notification is the list `ls` itself, in
      order. */
  lemma {:induction false} RepeatRound<T>(ls: seq<T>, n: nat, k: nat)
    requires k < n
    ensures |Repeat(ls, n)| == n * |ls|
    ensures Repeat(ls, n)[k * |ls|..(k + 1) * |ls|] == ls
  {
    RepeatLength(ls, n);
    RepeatLength(ls, n - 1);
    var prev := Repeat(ls, n - 1);
    var lo, hi := k * |ls|, (k + 1) * |ls|;
    assert hi == lo + |ls|;
    if k < n - 1 {
      RepeatRound(ls, n - 1, k);
      MulMonotone(k + 1, n - 1, |ls|);
      assert (prev + ls)[lo..hi] == prev[lo..hi];
    } else {
      assert lo == |prev|;
      assert (prev + ls)[lo..hi] == ls;
    }
  }

  /** Multiplying by the same factor keeps the order of two naturals. */
  lemma MulMonotone(a: nat, b: nat, m: nat)
    requires a <= b
    ensures a * m <= b * m
  {
  }

  /** `n` rounds of the list `ls` are `n` times as long as `ls`. */
  lemma {:induction false} RepeatLength<T>(ls: seq<T>, n: nat)
    ensures |Repeat(ls, n)| == n * |ls|
  {
    if n > 0 {
      RepeatLength(ls, n - 1);
    }
  }

  // ---------------------------------------------------------------------
  // The store
  // ---------------------------------------------------------------------

  /** The object returned by `createStore(reducer, initialState)`. The closure
      variables `currentState` and `listeners` become fields; `notified` is
      the trace of listener calls and `dispatched` the actions dispatched so
      far, both ghost. */
  class Store<S, A> {
    const reducer: (S, A) -> S
    var state: S
    var listeners: seq<ListenerId>
    ghost const initial: S
    ghost var dispatched: seq<A>
    ghost var notified: seq<ListenerId>

    /** The state is only ever written by `dispatch`: it is the initial
        state with every dispatched action folded in, in order. */
    ghost predicate Valid()
      reads this
    {
      state == Fold(reducer, initial, dispatched)
    }

    /** `createStore(reducer, initialState)`. */
    constructor (reducer: (S, A) -> S, initialState: S)
      ensures Valid()
      ensures this.reducer == reducer && initial == initialState
      ensures state == initialState && listeners == []
      ensures dispatched == [] && notified == []
    {
      this.reducer := reducer;
      state := initialState;
      listeners := [];
      initial := initialState;
      dispatched := [];
      notified := [];
    }

    /** `getState`: the current state; nothing changes. */
    method GetState() returns (s: S)
      requires Valid()
      ensures s == state
      ensures s == Fold(reducer, initial, dispatched)
    {
      s := state;
    }

    /** `dispatch(action)`: replace the state by `reducer(state, action)`,
        call every listener in registration order, return the action. */
    method Dispatch(action: A) returns (r: A)
      requires Valid()
      modifies this
      ensures Valid()
      ensures r == action
      ensures state == reducer(old(state), action)
      ensures dispatched == old(dispatched) + [action]
      ensures listeners == old(listeners)
      ensures notified == old(notified) + old(listeners)
    {
      FoldSnoc(reducer, initial, dispatched, action);
      state := reducer(state, action);
      dispatched := dispatched + [action];
      var i := 0;
      while i < |listeners|
        invariant 0 <= i <= |listeners|
        invariant listeners == old(listeners)
        invariant state == reducer(old(state), action)
        invariant dispatched == old(dispatched) + [action]
        invariant notified == old(notified) + listeners[..i]
      {
        notified := notified + [listeners[i]];
        i := i + 1;
      }
      assert listeners[..i] == listeners;
      r := action;
    }

    /** `subscribe(listener)`: append the listener and hand back its
        unsubscribe closure. */
    method Subscribe(l: ListenerId) returns (h: Handle<S, A>)
      requires Valid()
      modifies this
      ensures Valid()
      ensures listeners == old(listeners) + [l]
      ensures state == old(state) && dispatched == old(dispatched) && notified == old(notified)
      ensures fresh(h) && h.store == this && h.listener == l
    {
      listeners := listeners + [l];
      h := new Handle(this, l);
    }
  }

  /** The unsubscribe closure returned by `subscribe`: it captures the store's
      listener list and the listener it was created for. */
  class Handle<S, A> {
    const store: Store<S, A>
    const listener: ListenerId

    constructor (store: Store<S, A>, listener: ListenerId)
      ensures this.store == store && this.listener == listener
    {
      this.store := store;
      this.listener := listener;
    }

    /** Calling the closure: find the first occurrence of the listener and
        splice it out; do nothing when it is absent. */
    method Call()
      requires store.Valid()
      modifies store
      ensures store.Valid()
      ensures store.listeners == RemoveFirst(old(store.listeners), listener)
      ensures listener !in old(store.listeners) ==> store.listeners == old(store.listeners)
      ensures store.state == old(store.state)
      ensures store.dispatched == old(store.dispatched) && store.notified == old(store.notified)
    {
      var ls := WithoutListener(store.listeners, listener);
      store.listeners := ls;
    }
  }

  /** The body of the unsubscribe closure on the listener array: find the
      first occurrence with `indexOf` and splice it out, or keep the array
      when there is none. */
  method WithoutListener(ls: seq<ListenerId>, l: ListenerId) returns (r: seq<ListenerId>)
    ensures r == RemoveFirst(ls, l)
    ensures l in ls ==> |r| == |ls| - 1 && exists i :: 0 <= i < |ls| && ls[i] == l && l !in ls[..i] && r == ls[..i] + ls[i + 1..]
    ensures l !in ls ==> r == ls
  {
    var index := IndexOf(ls, l);
    if index >= 0 {
      SpliceIsRemoveFirst(ls, l);
      r := ls[..index] + ls[index + 1..];
    } else {
      RemoveFirstAbsent(ls, l);
      r := ls;
    }
  }

  /** A caller dispatching `actions` one after the other: the state ends as
      the left fold of the reducer over them, and with a fixed listener list
      every dispatch notifies that whole list once more, in order. */
  method DispatchAll<S, A>(store: Store<S, A>, actions: seq<A>)
    requires store.Valid()
    modifies store
    ensures store.Valid()
    ensures store.state == Fold(store.reducer, old(store.state), actions)
    ensures store.dispatched == old(store.dispatched) + actions
    ensures store.listeners == old(store.listeners)
    ensures store.notified == old(store.notified) + Repeat(old(store.listeners), |actions|)
    ensures forall l :: Count(store.notified, l) ==
                        Count(old(store.notified), l) + |actions| * Count(old(store.listeners), l)
  {
    var i := 0;
    while i < |actions|
      invariant 0 <= i <= |actions|
      invariant store.Valid()
      invariant store.state == Fold(store.reducer, old(store.state), actions[..i])
      invariant store.dispatched == old(store.dispatched) + actions[..i]
      invariant store.listeners == old(store.listeners)
      invariant store.notified == old(store.notified) + Repeat(old(store.listeners), i)
    {
      FoldSnoc(store.reducer, old(store.state), actions[..i], actions[i]);
      assert actions[..i + 1] == actions[..i] + [actions[i]];
      var _ := store.Dispatch(actions[i]);
      i := i + 1;
    }
    assert actions[..i] == actions;
    ghost var before, rounds := old(store.notified), Repeat(old(store.listeners), |actions|);
    forall l
      ensures Count(before + rounds, l) == Count(before, l) + |actions| * Count(old(store.listeners), l)
    {
      CountAppend(before, rounds, l);
      CountRepeat(old(store.listeners), |actions|, l);
    }
  }

  /** Subscribing a listener that is not registered, unsubscribing it at once
      and then dispatching leaves the listener list as it was and never calls
      the removed listener. */
  method SubscribeUnsubscribeDispatch<S, A>(store: Store<S, A>, l: ListenerId, action: A)
    requires store.Valid() && l !in store.listeners
    modifies store
    ensures store.Valid()
    ensures store.state == store.reducer(old(store.state), action)
    ensures store.listeners == old(store.listeners)
    ensures store.notified == old(store.notified) + old(store.listeners)
    ensures store.dispatched == old(store.dispatched) + [action]
    ensures Count(store.notified, l) == Count(old(store.notified), l)
  {
    var h := store.Subscribe(l);
    h.Call();
    SubscribeThenUnsubscribe(old(store.listeners), l);
    var _ := store.Dispatch(action);
    CountAppend(old(store.notified), old(store.listeners), l);
    CountPositiveIffIn(old(store.listeners), l);
  }
}
