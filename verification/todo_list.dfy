/** The state of the `TodoList` component and its six event handlers, each a
    pure step from the old state (plus the handler's argument) to the new one. */
module TodoList {
  import opened JsString

  /** `number | null`. */
  datatype Option<T> = None | Some(value: T)

  /** One task. */
  datatype Todo = Todo(id: int, text: string, completed: bool)

  /** The four pieces of component state: the task list, the add draft, the
      id of the task being edited (if any) and the edit draft. */
  datatype State = State(todos: seq<Todo>, newTodo: string, editingId: Option<int>, editText: string)

  /** The state the component mounts with: no tasks, empty drafts and no
      edit session. */
  function Initial(): (s: State)
    ensures |s.todos| == 0 && forall id :: !HasId(s.todos, id)
    ensures s.newTodo == "" && s.editText == ""
    ensures s.editingId.None?
  {
    State([], "", None, "")
  }

  predicate HasId(todos: seq<Todo>, id: int) {
    exists i :: 0 <= i < |todos| && todos[i].id == id
  }

  /** How many tasks carry `id`. */
  function CountId(todos: seq<Todo>, id: int): nat {
    if todos == [] then 0
    else CountId(todos[..|todos| - 1], id) + (if todos[|todos| - 1].id == id then 1 else 0)
  }

  /** `todos.filter(todo => todo.id !== id)`. */
  function Without(todos: seq<Todo>, id: int): (r: seq<Todo>)
    ensures |r| + CountId(todos, id) == |todos|
    ensures forall i :: 0 <= i < |r| ==> r[i].id != id
    ensures forall t :: t in r <==> t in todos && t.id != id
    ensures !HasId(todos, id) ==> r == todos
  {
    if todos == [] then []
    else
      var init := todos[..|todos| - 1];
      var last := todos[|todos| - 1];
      assert todos == init + [last];
      assert !HasId(todos, id) ==> !HasId(init, id) by {
        if !HasId(todos, id) {
          forall i | 0 <= i < |init| ensures init[i].id != id {
            assert init[i] == todos[i];
          }
        }
      }
      Without(init, id) + (if last.id != id then [last] else [])
  }

  /** `todos.map(todo => todo.id === id ? {...todo, completed: !todo.completed} : todo)`. */
  function Toggled(todos: seq<Todo>, id: int): (r: seq<Todo>)
    ensures |r| == |todos|
    ensures forall i :: 0 <= i < |r| ==>
      && r[i].id == todos[i].id
      && r[i].text == todos[i].text
      && (r[i].completed <==> (todos[i].completed <==> todos[i].id != id))
  {
    if todos == [] then []
    else
      var t := todos[0];
      [if t.id == id then t.(completed := !t.completed) else t] + Toggled(todos[1..], id)
  }

  /** `todos.map(todo => todo.id === target ? {...todo, text} : todo)`; a
      `null` target equals no id. */
  function Retexted(todos: seq<Todo>, target: Option<int>, text: string): (r: seq<Todo>)
    ensures |r| == |todos|
    ensures forall i :: 0 <= i < |r| ==>
      && r[i].id == todos[i].id
      && r[i].completed == todos[i].completed
      && r[i].text == (if target == Some(todos[i].id) then text else todos[i].text)
  {
    if todos == [] then []
    else
      var t := todos[0];
      [if target == Some(t.id) then t.(text := text) else t] + Retexted(todos[1..], target, text)
  }

  /** `addTodo`: appends a task holding the raw (untrimmed) draft and clears
      the draft, unless the draft is blank. `freshId` stands for `Date.now()`. */
  function AddTodo(s: State, freshId: int): (r: State)
    ensures IsBlank(s.newTodo) ==> r == s
    ensures !IsBlank(s.newTodo) ==>
      && |r.todos| == |s.todos| + 1
      && r.todos[..|s.todos|] == s.todos
      && r.todos[|s.todos|] == Todo(freshId, s.newTodo, false)
      && r.newTodo == ""
      && r.editingId == s.editingId
      && r.editText == s.editText
  {
    if Trim(s.newTodo) != "" then
      s.(todos := s.todos + [Todo(freshId, s.newTodo, false)], newTodo := "")
    else
      s
  }

  /** `deleteTodo`: keeps the tasks whose id differs from `id`; the edit
      session is left alone, even when it targets the deleted task. */
  function DeleteTodo(s: State, id: int): (r: State)
    ensures forall i :: 0 <= i < |r.todos| ==> r.todos[i].id != id
    ensures forall t :: t in r.todos <==> t in s.todos && t.id != id
    ensures |r.todos| == |s.todos| - CountId(s.todos, id)
    ensures !HasId(s.todos, id) ==> r == s
    ensures r.newTodo == s.newTodo && r.editingId == s.editingId && r.editText == s.editText
  {
    s.(todos := Without(s.todos, id))
  }

  /** `toggleComplete`: flips `completed` on the tasks carrying `id`. */
  function ToggleComplete(s: State, id: int): (r: State)
    ensures |r.todos| == |s.todos|
    ensures forall i :: 0 <= i < |s.todos| ==>
      if s.todos[i].id == id
      then r.todos[i] == s.todos[i].(completed := !s.todos[i].completed)
      else r.todos[i] == s.todos[i]
    ensures r.newTodo == s.newTodo && r.editingId == s.editingId && r.editText == s.editText
  {
    s.(todos := Toggled(s.todos, id))
  }

  /** `startEdit`: opens an edit session on `t`, replacing any earlier one. */
  function StartEdit(s: State, t: Todo): (r: State)
    ensures r.editingId == Some(t.id) && r.editText == t.text
    ensures r.todos == s.todos && r.newTodo == s.newTodo
  {
    s.(editingId := Some(t.id), editText := t.text)
  }

  /** `saveEdit`: unless the edit draft is blank, writes it into the tasks whose
      id is the edited one and closes the session; the draft itself is kept. */
  function SaveEdit(s: State): (r: State)
    ensures IsBlank(s.editText) ==> r == s
    ensures !IsBlank(s.editText) ==>
      && |r.todos| == |s.todos|
      && (forall i :: 0 <= i < |s.todos| ==>
            if s.editingId == Some(s.todos[i].id)
            then r.todos[i] == s.todos[i].(text := s.editText)
            else r.todos[i] == s.todos[i])
      && r.editingId == None
      && r.editText == s.editText
      && r.newTodo == s.newTodo
  {
    if Trim(s.editText) != "" then
      s.(todos := Retexted(s.todos, s.editingId, s.editText), editingId := None)
    else
      s
  }

  /** `cancelEdit`: closes the session; tasks and the edit draft stay. */
  function CancelEdit(s: State): (r: State)
    ensures r.editingId == None
    ensures r.todos == s.todos && r.newTodo == s.newTodo && r.editText == s.editText
  {
    s.(editingId := None)
  }
}
