/** The to-do application's actions, action creator and reducer. The state is
    the ordered list of task texts. */
module Todos {

  /** The one action type the reducer recognises. */
  const ADD_TODO: string := "ADD_TODO"

  /** An action `{ type, payload }`; `kind` stands for the `type` key. */
  datatype Action = Action(kind: string, payload: string)

  /** `reducer(state, action)`: an `ADD_TODO` action appends its payload at
      the end; an action of any other type leaves the state as it was. */
  function Reducer(state: seq<string>, action: Action): (r: seq<string>)
    ensures action.kind == ADD_TODO ==>
              |r| == |state| + 1 && r[..|state|] == state && r[|state|] == action.payload
    ensures action.kind != ADD_TODO ==> r == state
  {
    match action.kind
    case "ADD_TODO" => state + [action.payload]
    case _ => state
  }

  /** `addTodo(todo)`: the action that makes the reducer append `todo` to any
      state. */
  function AddTodo(todo: string): (a: Action)
    ensures a.kind == ADD_TODO
    ensures forall s {:trigger Reducer(s, a)} :: Reducer(s, a) == s + [todo]
  {
    Action(ADD_TODO, todo)
  }

  /** The payloads of the `ADD_TODO` actions among `actions`, in order. */
  function Added(actions: seq<Action>): seq<string>
  {
    if actions == [] then []
    else (if actions[0].kind == ADD_TODO then [actions[0].payload] else []) + Added(actions[1..])
  }
}
