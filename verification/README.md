# slomux store, modelled in Dafny

A model of the hand-written state container in `src/index.js`: the store made by
`createStore` (current state, `getState`, `dispatch`, `subscribe` and the
unsubscribe closure it returns), the to-do reducer and its `addTodo` action
creator, the prop merge done by the `render` of a `connect`-ed component together
with its subscribe-on-mount / unsubscribe-on-unmount pairing, and the application
wiring that binds the `ToDo` component to a store created with an empty list.

Files:

- `store.dfy` (module `Store`): the class `Store<S, A>` whose fields are the
  closure variables `currentState` (`state`) and `listeners`, with a constant
  `reducer`; the class `Handle` for the unsubscribe closure; the specification
  functions `Fold`, `IndexOf`, `RemoveFirst`, `Count`, `Repeat` and the lemmas
  about them. A listener is an opaque `ListenerId`, because `src/index.js`
  compares callbacks by reference. Each listener call made by `dispatch` is
  appended to the ghost trace `notified`. The ghost history `dispatched`
  records the actions dispatched so far. The object invariant `Valid()` says
  that the state is the left fold of the reducer over that history, starting
  from the initial state. So every state the store reaches is a fold of the
  reducer, and `dispatch` is the only writer.
- `todos.dfy` (module `Todos`): `Action` (`kind` stands for the `type` key), the
  `ADD_TODO` constant, `Reducer`, `AddTodo`, and `Added` (the payloads of the
  `ADD_TODO` actions in a sequence).
- `connect.dfy` (module `Connect`): `MergeProps`, the three object spreads of
  `render` as map union; `RenderProps`; and the class `Connected`, a mounted
  instance of the component that `connect` returns.
- `app.dfy` (module `App`): `ToDo`'s `mapStateToProps` / `mapDispatchToProps`,
  the replay lemma for the to-do reducer, and the two-task scenario.

Behaviour of the code worth knowing:

- An unsubscribe closure removes the *first* occurrence of its listener
  (`indexOf` then `splice`, src/index.js:21-24). It does not necessarily remove
  the entry its own `subscribe` call added. If one callback was subscribed
  twice, calling either handle removes the earlier entry.
- Calling a handle a second time is a no-op only when its listener was
  registered at most once. After a duplicate subscription, each call removes
  one more entry, so the same handle called twice removes both
  (`RemoveFirstDuplicate`).
- `dispatch` evaluates `reducer(currentState, action)` before it assigns
  anything (src/index.js:12). A reducer that throws therefore leaves the state
  as it was, no listener is called, and the exception reaches the caller of
  `dispatch`. The to-do reducer (src/index.js:84-91) never changes the state
  it is given, so there is nothing to roll back.
- When no store has been registered in `window.store`, `store.getState()` in
  `render` (src/index.js:39) and `store.subscribe` in `componentDidMount`
  (src/index.js:47) throw a `TypeError`. That is the only error reported, and
  it does not say which store is missing.

## Model

| member | source | states |
|---|---|---|
| `Store.Store.constructor` | src/index.js:6-8 | a new store holds the given reducer and initial state, has no listeners, and satisfies the fold invariant with an empty history |
| `Store.Store.GetState` | src/index.js:10 | returns the current state, which is the fold of the reducer over every action dispatched so far; changes nothing |
| `Store.Store.Dispatch` | src/index.js:11-15 | the new state is `reducer(old state, action)`; the listener list is unchanged; the notification trace grows by exactly the listener list current at the call, in registration order; the action itself is returned; the fold invariant is kept |
| `Store.Store.Subscribe` | src/index.js:17-20 | the listener list becomes `old + [l]`; state, history and trace are unchanged; the returned handle is new and bound to this store and `l` |
| `Store.Handle.constructor` | src/index.js:20 | the closure captures the store and the listener it was created for |
| `Store.Handle.Call` | src/index.js:20-25 | the listener list becomes `RemoveFirst(old, l)`, and stays exactly as it was when `l` is absent; state, history and trace are unchanged |
| `Store.WithoutListener` | src/index.js:21-24 | the new listener list is the old one with the first occurrence of `l` removed: one shorter, with the entries before and after that position in order; it is the same list when `l` is absent |
| `Store.IndexOf` | src/index.js:21 | the result is -1 exactly when the value is absent; otherwise it is a position holding the value, with no earlier occurrence |
| `Store.SpliceIsRemoveFirst` | src/index.js:21-24 | splicing out the element at `indexOf` yields the reference removal of the first occurrence; everything before it and after it keeps its order |
| `Store.RemoveFirstAbsent` | src/index.js:22 | when the listener is absent, unsubscribing leaves the list unchanged |
| `Store.RemoveFirstCount` | src/index.js:20-25 | removal shortens the list by one exactly when the listener is present; it lowers that listener's count by one and leaves every other listener's count alone |
| `Store.RemoveFirstTwice` | src/index.js:20-25 | for a listener subscribed at most once, after one unsubscribe it is gone, and a second unsubscribe is a no-op |
| `Store.RemoveFirstDuplicate` | src/index.js:20-25 | for a listener registered at least twice, two removals lower its count by two, so the same handle called twice removes two entries |
| `Store.SubscribeThenUnsubscribe` | src/index.js:17-25 | subscribing a listener that is not registered and unsubscribing it at once restores the original list |
| `Store.FoldSnoc` | src/index.js:12 | folding one more action applies the reducer once more to the state reached so far, which is what each `dispatch` does |
| `Store.FoldAppend` | src/index.js:7-12 | folding two batches of actions in turn equals folding their concatenation |
| `Store.CountRepeat` | src/index.js:13 | over `n` notification rounds, each listener is called `n` times its number of registrations |
| `Store.RepeatRound` | src/index.js:13 | round `k` of `n` notification rounds is the listener list itself, in registration order |
| `Store.DispatchAll` | src/index.js:11-15 | after dispatching a sequence of actions, the state is the left fold of the reducer over them, in order; with a fixed listener list, the trace grows by that list repeated once per action, so each listener gets `N` times its registrations |
| `Store.SubscribeUnsubscribeDispatch` | src/index.js:11-25 | subscribe, then unsubscribe at once, then dispatch: the listener list is as before, the history gains exactly the dispatched action, and the removed listener is never called |
| `Todos.Reducer` | src/index.js:84-91 | `ADD_TODO` grows the state by one element, keeps the old state as a prefix, and puts the payload last; any other type returns the state unchanged |
| `Todos.AddTodo` | src/index.js:77-80 | the created action has type `ADD_TODO`, and the reducer turns any state `s` into `s + [todo]` with it |
| `App.ReplayAppendsAdded` | src/index.js:84-91 | replaying any actions through the to-do reducer appends exactly the `ADD_TODO` payloads, in order |
| `Connect.MergeProps` | src/index.js:37-41 | the result has every key of the three sources; dispatch-derived values win, then state-derived values, then own props |
| `Connect.RenderProps` | src/index.js:37-41 | the props the wrapped component is rendered with, for the store's current state: every key of own props, state-derived props and dispatch-derived props is present; dispatch-derived values beat state-derived ones, which beat own props |
| `App.MapStateToProps` | src/index.js:142-144 | `ToDo`'s state mapping yields exactly one prop, `todos`, holding the whole state |
| `App.MapDispatchToProps` | src/index.js:145-147 | `ToDo`'s dispatch mapping yields exactly one prop, `addTodo`, the dispatching callback |
| `Connect.Connected.constructor` | src/index.js:33 | a new component instance has its `handleChange` listener and holds no subscription yet |
| `Connect.Connected.ComponentDidMount` | src/index.js:45-48 | mounting appends `handleChange` to the store's listeners, keeps a new handle for it, and leaves state and trace alone |
| `Connect.Connected.ComponentWillUnmount` | src/index.js:50-52 | unmounting removes the first occurrence of `handleChange` from the store's listeners and leaves state and trace alone |
| `App.ToDoProps` | src/index.js:141-148 | `ToDo` renders with `todos` equal to the store state, the `addTodo` callback, and every other own prop (the title) passed through |
| `App.AddTodoAndRender` | src/index.js:141-148 | calling the `addTodo` prop dispatches `addTodo(todo)`: the history gains exactly that action, the state gains `todo` at its end and every listener is notified once; the next render shows the new list under `todos` and keeps the title |
| `App.AddTwoTodos` | src/index.js:141-152 | starting from `[]`, dispatching `addTodo("buy milk")` and then `addTodo("walk dog")`: the renders show `["buy milk"]` and then `["buy milk", "walk dog"]`, keep the title, and the component stays the only subscriber and is notified once per dispatch |

## Left out

- React rendering and `forceUpdate` (src/index.js:34-36, 54). A notification is recorded in the trace `notified`. A re-render is `RenderProps` applied to the state returned by `GetState`.
- `Provider` and the global `window.store` slot (src/index.js:60-68). `ComponentDidMount` takes the store as a parameter. So the `TypeError` the JavaScript code throws when no store is registered is not modelled.
- `ToDoComponent`: its form state, event handlers, markup and default title (src/index.js:95-138). These are user-interface glue.
- `ReactDOM.render` and `serviceWorker.unregister()` (src/index.js:153-163). These are I/O and foreign calls.
- Re-entrancy is not modelled. Listeners here have no effect on the store, so a listener that dispatches, subscribes or unsubscribes while `forEach` is iterating is outside the model.
- A reducer that throws is not modelled. The reducer is a total function.
- `Store.Store.Dispatch`: a listener that throws is not modelled; listeners here always return. In `src/index.js` the state is already replaced when `forEach` runs (lines 12-13). So a throwing listener stops the loop: the listeners after it are not called, the new state stays, `return action` (line 14) is skipped, and the exception reaches the caller of `dispatch`.
- `Connect.MergeProps`: the merged map is the object built by the three spreads. React's `createElement` then strips the reserved keys `key` and `ref` from it before the wrapped component receives its props. That stripping is not modelled, so the component does not see those two keys even though the merged map has them.
- `Todos.Reducer`: an action's payload is a string. An `ADD_TODO` action without a payload, which would append `undefined`, is not modelled.
- The default parameters `initialState = []` of `createStore` and `state = []` of `reducer` are not modelled. The only call passes `[]` explicitly (src/index.js:152).
- `Connect.RenderProps`: the `dispatch` argument of `mapDispatchToProps` is bound inside the mapping function. The `addTodo` callback it produces is represented by the tag `AddTodoCallback`.
- `Connect.Connected.ComponentWillUnmount` requires a prior mount. Unmounting before mounting would call an undefined handle, and React never does that.
