/** The to-do application's wiring: the store created with the to-do reducer
    and an empty list, and the `ToDo` component bound to it by `connect`. */
module App {
  import opened Store
  import opened Todos
  import opened Connect

  /** The title the application gives the `ToDo` component. */
  const TITLE: string := "Список задач"

  /** The values the `ToDo` component receives as props. */
  datatype Prop = Text(text: string) | TodoList(items: seq<string>) | AddTodoCallback

  /** `state => ({ todos: state })`. */
  function MapStateToProps(state: seq<string>, own: Props<Prop>): (r: Props<Prop>)
    ensures r.Keys == {"todos"} && r["todos"] == TodoList(state)
  {
    map["todos" := TodoList(state)]
  }

  /** `dispatch => ({ addTodo: text => dispatch(addTodo(text)) })`; the
      callback is represented by a tag. */
  function MapDispatchToProps(own: Props<Prop>): (r: Props<Prop>)
    ensures r.Keys == {"addTodo"} && r["addTodo"] == AddTodoCallback
  {
    map["addTodo" := AddTodoCallback]
  }

  /** What `ToDo` renders with: `todos` is the store's state, `addTodo` the
      dispatching callback, and every other own prop (the title) passes
      through unchanged. */
  lemma ToDoProps(state: seq<string>, own: Props<Prop>)
    ensures var p := RenderProps(state, own, MapStateToProps, MapDispatchToProps);
            && p.Keys == own.Keys + {"todos", "addTodo"}
            && p["todos"] == TodoList(state)
            && p["addTodo"] == AddTodoCallback
            && forall k :: k in own && k != "todos" && k != "addTodo" ==> p[k] == own[k]
  {
  }

  /** Replaying any actions through the to-do reducer appends the payloads of
      the `ADD_TODO` actions, in order, and nothing else. */
  lemma {:induction false} ReplayAppendsAdded(s: seq<string>, actions: seq<Action>)
    ensures Fold(Reducer, s, actions) == s + Added(actions)
    decreases |actions|
  {
    if actions != [] {
      ReplayAppendsAdded(Reducer(s, actions[0]), actions[1..]);
      if actions[0].kind == ADD_TODO {
        assert Reducer(s, actions[0]) + Added(actions[1..]) == s + Added(actions);
      } else {
        assert Added(actions) == Added(actions[1..]);
        assert Reducer(s, actions[0]) == s;
      }
    }
  }

  /** The `addTodo` prop at work: dispatch `addTodo(todo)` to the store,
      then render `ToDo` again from the new state, as its `handleChange`
      listener does. */
  method AddTodoAndRender(store: Store<seq<string>, Action>, own: Props<Prop>, todo: string)
    returns (props: Props<Prop>)
    requires store.Valid() && store.reducer == Reducer
    modifies store
    ensures store.Valid()
    ensures store.state == old(store.state) + [todo]
    ensures store.listeners == old(store.listeners)
    ensures store.dispatched == old(store.dispatched) + [AddTodo(todo)]
    ensures store.notified == old(store.notified) + old(store.listeners)
    ensures "todos" in props && props["todos"] == TodoList(store.state)
    ensures "addTodo" in props && props["addTodo"] == AddTodoCallback
    ensures "title" in own ==> "title" in props && props["title"] == own["title"]
  {
    var _ := store.Dispatch(AddTodo(todo));
    var state := store.GetState();
    props := RenderProps(state, own, MapStateToProps, MapDispatchToProps);
    ToDoProps(state, own);
  }

  /** The application's scenario: a store created with an empty list, `ToDo`
      mounted with its title, two tasks added through `dispatch`. Each render
      after a notification shows the whole list so far, and the component
      stays the one subscriber throughout, notified once per dispatch. */
  method AddTwoTodos()
    returns (first: Props<Prop>, second: Props<Prop>, listeners: seq<ListenerId>, ghost calls: seq<ListenerId>)
    ensures "todos" in first && first["todos"] == TodoList(["buy milk"])
    ensures "title" in first && first["title"] == Text(TITLE)
    ensures "todos" in second && second["todos"] == TodoList(["buy milk", "walk dog"])
    ensures "title" in second && second["title"] == Text(TITLE)
    ensures "addTodo" in second && second["addTodo"] == AddTodoCallback
    ensures listeners == [0]
    ensures calls == [0, 0]
  {
    var store := new Store<seq<string>, Action>(Reducer, []);
    var toDo := new Connected<seq<string>, Action>(0);
    toDo.ComponentDidMount(store);
    var own := map["title" := Text(TITLE)];
    first := AddTodoAndRender(store, own, "buy milk");
    assert store.state == ["buy milk"];
    second := AddTodoAndRender(store, own, "walk dog");
    listeners := store.listeners;
    calls := store.notified;
  }
}
