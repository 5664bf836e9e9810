# Todo list state machine

A Dafny model of the `TodoList` component of a small React todo application
(`todo-list.tsx`). The component's state is a record of four parts:

- the ordered list of tasks `Todo {id, text, completed}`;
- the add draft `newTodo`;
- the id of the task being edited, `editingId`, or `null`;
- the edit draft `editText`.

Six handlers move this state forward: `addTodo`, `deleteTodo`,
`toggleComplete`, `startEdit`, `saveEdit` and `cancelEdit`. Each handler is
modelled as a pure function from the old `State` (plus its argument) to the
new one.

Files:

- `js_string.dfy` (module `JsString`) models the blankness test
  `s.trim() !== ""`. `IsWhiteSpace` is the ECMAScript WhiteSpace and
  LineTerminator set, `Trim` strips it from both ends, and `IsBlank` says that
  a string is whitespace only. `Trim(s)` is empty exactly when `IsBlank(s)`.
- `todo_list.dfy` (module `TodoList`) holds the state datatypes, the list
  transformations behind `filter` and `map`, and the six handlers. The handlers
  test `Trim(...) != ""`, as the code does. Their contracts are stated with
  `IsBlank`.
- `todo_properties.dfy` (module `TodoProperties`) holds the lemmas:
  - deletion is an order-preserving selection;
  - toggling twice is the identity;
  - the effect of edit sessions;
  - preservation of the data-model invariants (unique ids, non-blank texts, an
    edit target that exists);
  - the end-to-end scenario add → toggle → edit → delete.

The code keeps some quirks, and the model keeps them too:

- `addTodo` stores the raw draft, not its trimmed form.
- `saveEdit` and `cancelEdit` leave `editText` as it was.
- `saveEdit` with no session open clears `editingId` and changes no task.

`deleteTodo` leaves `editingId` on a deleted task, so the invariant that an
open edit session refers to a listed task is broken.
`DeleteUnderEditLeavesDanglingTarget` shows such a state.
`DeleteTodoPreservesValid` proves that every other delete keeps the
invariants.

The id of a new task comes from `Date.now()`. The model turns it into the
`freshId` parameter of `AddTodo`. Ids are only assumed to be unique where a
lemma says so in its precondition (`AddTodoPreservesValid`).

## Model

| member | source | states |
|---|---|---|
| JsString.TrimStart | todo-list.tsx:23 | the result is a suffix of the input, the dropped prefix is all whitespace, and the result does not start with whitespace |
| JsString.TrimEnd | todo-list.tsx:23 | the result is a prefix of the input, the dropped suffix is all whitespace, and the result does not end with whitespace |
| JsString.Trim | todo-list.tsx:52 | `trim()` returns a string no longer than the input that starts and ends with non-whitespace; it is empty exactly when the input is whitespace only |
| TodoList.Without | todo-list.tsx:36 | the filtered list holds exactly the tasks whose id differs from `id`; its length is the old length minus the number of matches; it is the original list when no task matches |
| TodoList.Toggled | todo-list.tsx:41 | the mapped list has the same length, ids and texts; `completed` is flipped exactly at positions whose id matches |
| TodoList.Retexted | todo-list.tsx:53 | the mapped list has the same length, ids and completion flags; text is replaced exactly where the id equals the target, and a null target matches nothing |
| TodoList.AddTodo | todo-list.tsx:22-32 | a blank draft leaves the whole state unchanged; otherwise exactly one task is appended at the end, with the given id, the raw draft and `completed == false`; the earlier tasks and the edit session are untouched and the draft becomes empty |
| TodoList.DeleteTodo | todo-list.tsx:35-37 | no task with `id` remains; every other task is kept; the length drops by the number of matches; an absent id is a no-op; the drafts and `editingId` are untouched |
| TodoList.ToggleComplete | todo-list.tsx:40-42 | the length is kept; each task with `id` has only its `completed` flipped; every other task and the rest of the state are untouched |
| TodoList.StartEdit | todo-list.tsx:45-48 | the session targets `t.id` with draft `t.text`, replacing any earlier session; the tasks and the add draft are untouched |
| TodoList.SaveEdit | todo-list.tsx:51-56 | a blank edit draft leaves the state unchanged and the session open; otherwise the draft becomes the text of exactly the tasks whose id is `editingId`, ids and flags are kept, the session closes and the draft stays |
| TodoList.CancelEdit | todo-list.tsx:59-61 | the session closes; the tasks and both drafts are untouched |
| TodoProperties.KeptIndices | todo-list.tsx:36 | the kept positions are in range and strictly increasing, and they are exactly the positions whose id differs from `id` |
| TodoProperties.DeleteSelectsInOrder | todo-list.tsx:36 | the filtered list is the tasks at the kept positions, in their original order |
| TodoProperties.DeleteRemovesOneWhenUnique | todo-list.tsx:35-37 | with unique ids, deleting a listed id shortens the list by exactly one |
| TodoProperties.ToggleTwiceRestores | todo-list.tsx:40-42 | toggling the same id twice gives back the original state |
| TodoProperties.StartEditThenCancel | todo-list.tsx:45-61 | opening a session and then cancelling it keeps the tasks and the add draft, and leaves no session open |
| TodoProperties.StartEditThenSaveKeepsTodos | todo-list.tsx:45-56 | with unique ids, saving right after opening a session on a listed task leaves the tasks unchanged |
| TodoProperties.EditCommit | todo-list.tsx:45-56 | after opening a session and typing a draft, saving writes a non-blank draft into the edited task (keeping its flag) and closes the session; a blank draft is a no-op and the session stays on that task |
| TodoList.Initial | todo-list.tsx:16-19 | the mount state: no tasks, empty add and edit drafts, no edit session |
| TodoProperties.InitialIsValid | todo-list.tsx:16-19 | the state the component mounts with satisfies the data-model invariants |
| TodoProperties.AddTodoPreservesValid | todo-list.tsx:22-32 | adding with an id no task carries keeps ids unique, texts non-blank and the edit target present |
| TodoProperties.DeletePreservesUniqueIds | todo-list.tsx:36 | filtering a list with unique ids yields a list with unique ids |
| TodoProperties.DeletePreservesNoBlankTexts | todo-list.tsx:36 | filtering a list of non-blank texts yields a list of non-blank texts |
| TodoProperties.DeleteTodoPreservesValid | todo-list.tsx:35-37 | deleting an id other than the edited one keeps the state valid |
| TodoProperties.DeleteUnderEditLeavesDanglingTarget | todo-list.tsx:35-37 | deleting the task under edit keeps `editingId` on the deleted id, so a valid state becomes invalid |
| TodoProperties.ToggleCompletePreservesValid | todo-list.tsx:40-42 | toggling keeps the state valid |
| TodoProperties.StartEditPreservesValid | todo-list.tsx:45-48 | opening a session on a listed task keeps the state valid |
| TodoProperties.SaveEditPreservesValid | todo-list.tsx:51-56 | saving keeps the state valid; in particular no blank text is ever stored |
| TodoProperties.CancelEditPreservesValid | todo-list.tsx:59-61 | cancelling keeps the state valid |
| TodoProperties.Scenario | todo-list.tsx:22-61 | add "Buy milk" → toggle → edit to "Buy oat milk" → delete: the task appears incomplete, becomes complete, takes the new text with its flag kept, and the list ends empty with no session |

## Left out

- Rendering (lines 63-193): the JSX tree, styling, the empty-list placeholder and the footer year from `new Date()`. These are presentation only.
- React `useState` semantics: batching, stale closures and re-render scheduling. Each handler is one atomic state step.
- `Date.now()`: the clock is replaced by the `freshId` parameter of `AddTodo`. Ids are unbounded integers. The code does no arithmetic on ids, so their width does not matter.
- The input `onChange` setters (`setNewTodo`, `setEditText` at lines 83 and 127) and the Enter-key and click wiring. In the lemmas, typing is a direct update of the draft field.
- JsString.IsWhiteSpace: fixes the space-separator category as of Unicode 15. Later Unicode versions could add characters to it.
- Strings are sequences of Unicode scalar values, not UTF-16 code units. A string holding a lone surrogate is outside the model. Every character `trim` strips lies in the Basic Multilingual Plane and is not a surrogate.
- The UI components from `@/components/ui/*` and the icons from `lucide-react`.
