/** The binding adapter produced by `connect(mapStateToProps,
    mapDispatchToProps)(Component)`: the props it renders the wrapped
    component with, and the subscription it holds while mounted. */
module Connect {
  import opened Store

  /** Component props: named values. */
  type Props<V> = map<string, V>

  /** The three spreads of `render`: own props first, then the props derived
      from the state, then those derived from `dispatch`, a later spread
      overriding an earlier one on the same key. */
  function MergeProps<V>(own: Props<V>, fromState: Props<V>, fromDispatch: Props<V>): (r: Props<V>)
    ensures r.Keys == own.Keys + fromState.Keys + fromDispatch.Keys
    ensures forall k :: k in fromDispatch ==> r[k] == fromDispatch[k]
    ensures forall k :: k in fromState && k !in fromDispatch ==> r[k] == fromState[k]
    ensures forall k :: k in own && k !in fromState && k !in fromDispatch ==> r[k] == own[k]
  {
    own + fromState + fromDispatch
  }

  /** The props `render` passes to the wrapped component, for the store's
      current `state`. The `dispatch` argument of `mapDispatchToProps` is the
      store's own and is bound inside `mapDispatchToProps` here. */
  function RenderProps<S, V>(state: S, own: Props<V>,
                             mapStateToProps: (S, Props<V>) -> Props<V>,
                             mapDispatchToProps: Props<V> -> Props<V>): (r: Props<V>)
    ensures var fromState, fromDispatch := mapStateToProps(state, own), mapDispatchToProps(own);
            && r.Keys == own.Keys + fromState.Keys + fromDispatch.Keys
            && (forall k :: k in fromDispatch ==> r[k] == fromDispatch[k])
            && (forall k :: k in fromState && k !in fromDispatch ==> r[k] == fromState[k])
            && (forall k :: k in own && k !in fromState && k !in fromDispatch ==> r[k] == own[k])
  {
    MergeProps(own, mapStateToProps(state, own), mapDispatchToProps(own))
  }

  /** An instance of the wrapped component class. `handleChange` is the
      listener it subscribes; `unsubscribe` the handle it keeps. */
  class Connected<S, A> {
    const handleChange: ListenerId
    var unsubscribe: Handle?<S, A>

    ghost predicate Valid()
      reads this
    {
      unsubscribe != null ==> unsubscribe.listener == handleChange
    }

    constructor (handleChange: ListenerId)
      ensures Valid()
      ensures this.handleChange == handleChange && unsubscribe == null
    {
      this.handleChange := handleChange;
      unsubscribe := null;
    }

    /** `componentDidMount`: subscribe `handleChange` to the registered store
        and keep the handle. */
    method ComponentDidMount(store: Store<S, A>)
      requires store.Valid()
      modifies this, store
      ensures Valid() && store.Valid()
      ensures store.listeners == old(store.listeners) + [handleChange]
      ensures store.state == old(store.state)
      ensures store.dispatched == old(store.dispatched) && store.notified == old(store.notified)
      ensures unsubscribe != null && fresh(unsubscribe) && unsubscribe.store == store
    {
      unsubscribe := store.Subscribe(handleChange);
    }

    /** `componentWillUnmount`: call the kept handle, which removes the first
        occurrence of `handleChange` from the store's listeners. */
    method ComponentWillUnmount()
      requires Valid() && unsubscribe != null && unsubscribe.store.Valid()
      modifies unsubscribe.store
      ensures unsubscribe.store.Valid()
      ensures unsubscribe.store.listeners == RemoveFirst(old(unsubscribe.store.listeners), handleChange)
      ensures unsubscribe.store.state == old(unsubscribe.store.state)
      ensures unsubscribe.store.notified == old(unsubscribe.store.notified)
      ensures unsubscribe.store.dispatched == old(unsubscribe.store.dispatched)
    {
      unsubscribe.Call();
    }
  }
}
