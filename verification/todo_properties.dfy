/** Properties of the todo-list state machine: what each handler keeps, how
    handlers compose, and the well-formedness the handlers are meant to keep. */
module TodoProperties {
  import opened JsString
  import opened TodoList

  /** No two tasks share an id. */
  predicate UniqueIds(todos: seq<Todo>) {
    forall i, j :: 0 <= i < j < |todos| ==> todos[i].id != todos[j].id
  }

  /** Every stored text survived the blank check. */
  predicate NoBlankTexts(todos: seq<Todo>) {
    forall i :: 0 <= i < |todos| ==> !IsBlank(todos[i].text)
  }

  /** An open edit session points at a task that exists. */
  predicate EditTargetPresent(s: State) {
    s.editingId.Some? ==> HasId(s.todos, s.editingId.value)
  }

  /** The data-model invariants: unique ids, non-blank texts and an edit
      session that refers to a listed task. */
  predicate Valid(s: State) {
    UniqueIds(s.todos) && NoBlankTexts(s.todos) && EditTargetPresent(s)
  }

  /** Positions, in increasing order, of the tasks whose id differs from `id`. */
  function KeptIndices(todos: seq<Todo>, id: int): (k: seq<int>)
    ensures forall m :: 0 <= m < |k| ==> 0 <= k[m] < |todos|
    ensures forall m, n :: 0 <= m < n < |k| ==> k[m] < k[n]
    ensures forall i :: 0 <= i < |todos| ==> (i in k <==> todos[i].id != id)
  {
    if todos == [] then []
    else
      var init := todos[..|todos| - 1];
      var k' := KeptIndices(init, id);
      assert forall i :: 0 <= i < |init| ==> init[i] == todos[i];
      k' + (if todos[|todos| - 1].id != id then [|todos| - 1] else [])
  }

  /** Deleting yields exactly the tasks at the kept positions, in their
      original order: an order-preserving selection of the list. */
  lemma {:induction false} DeleteSelectsInOrder(todos: seq<Todo>, id: int)
    ensures |KeptIndices(todos, id)| == |Without(todos, id)|
    ensures forall m :: 0 <= m < |Without(todos, id)| ==>
      Without(todos, id)[m] == todos[KeptIndices(todos, id)[m]]
  {
    if todos != [] {
      var init := todos[..|todos| - 1];
      var last := todos[|todos| - 1];
      DeleteSelectsInOrder(init, id);
      var r, k := Without(todos, id), KeptIndices(todos, id);
      var r', k' := Without(init, id), KeptIndices(init, id);
      if last.id != id {
        assert r == r' + [last] && k == k' + [|todos| - 1];
      } else {
        assert r == r' && k == k';
      }
      forall m | 0 <= m < |r| ensures r[m] == todos[k[m]] {
        if m < |r'| {
          assert r[m] == r'[m] && k[m] == k'[m] && todos[k'[m]] == init[k'[m]];
        }
      }
    }
  }

  /** With unique ids, deleting a listed id removes exactly one task. */
  lemma {:induction false} DeleteRemovesOneWhenUnique(todos: seq<Todo>, id: int)
    requires UniqueIds(todos) && HasId(todos, id)
    ensures |Without(todos, id)| == |todos| - 1
  {
    var init := todos[..|todos| - 1];
    var last := todos[|todos| - 1];
    assert forall i :: 0 <= i < |init| ==> init[i] == todos[i];
    if last.id == id {
      assert !HasId(init, id);
      assert CountId(init, id) == 0 by { CountAbsent(init, id); }
    } else {
      var i :| 0 <= i < |todos| && todos[i].id == id;
      assert init[i].id == id;
      DeleteRemovesOneWhenUnique(init, id);
    }
  }

  lemma {:induction false} CountAbsent(todos: seq<Todo>, id: int)
    requires !HasId(todos, id)
    ensures CountId(todos, id) == 0
  {
    if todos != [] {
      var init := todos[..|todos| - 1];
      assert forall i :: 0 <= i < |init| ==> init[i] == todos[i];
      CountAbsent(init, id);
    }
  }

  /** Toggling the same id twice gives back the original state. */
  lemma ToggleTwiceRestores(s: State, id: int)
    ensures ToggleComplete(ToggleComplete(s, id), id) == s
  {
    var r := ToggleComplete(ToggleComplete(s, id), id);
    assert r.todos == s.todos;
  }

  /** Opening an edit session and cancelling it leaves the tasks and the add
      draft as they were and returns to no session. */
  lemma StartEditThenCancel(s: State, t: Todo)
    ensures var r := CancelEdit(StartEdit(s, t));
            r.todos == s.todos && r.newTodo == s.newTodo && r.editingId == None
  {
  }

  lemma SameIdSameIndex(todos: seq<Todo>, i: int, j: int)
    requires UniqueIds(todos) && 0 <= i < |todos| && 0 <= j < |todos|
    requires todos[i].id == todos[j].id
    ensures i == j
  {
  }

  /** Saving an edit session straight after opening it on a listed task, with
      unique ids, leaves the tasks unchanged, whether or not the text is blank. */
  lemma StartEditThenSaveKeepsTodos(s: State, t: Todo)
    requires UniqueIds(s.todos) && t in s.todos
    ensures SaveEdit(StartEdit(s, t)).todos == s.todos
  {
    var e := StartEdit(s, t);
    var r := SaveEdit(e);
    var j :| 0 <= j < |s.todos| && s.todos[j] == t;
    forall i | 0 <= i < |s.todos| ensures r.todos[i] == s.todos[i] {
      if s.todos[i].id == t.id {
        SameIdSameIndex(s.todos, i, j);
      }
    }
  }

  /** Begin an edit, type `draft`, commit: a non-blank draft becomes the text of
      the task carrying `t.id` (its completion flag kept) and the session
      closes; a blank draft changes nothing and the session stays on `t`. */
  lemma EditCommit(s: State, t: Todo, draft: string, i: int)
    requires 0 <= i < |s.todos| && s.todos[i].id == t.id
    ensures var e := StartEdit(s, t).(editText := draft);
            var r := SaveEdit(e);
            if IsBlank(draft) then r == e && r.editingId == Some(t.id)
            else r.todos[i] == s.todos[i].(text := draft) && r.editingId == None
  {
  }

  lemma InitialIsValid()
    ensures Valid(Initial())
  {
  }

  /** Adding with an id no task carries keeps the state valid. */
  lemma AddTodoPreservesValid(s: State, freshId: int)
    requires Valid(s) && !HasId(s.todos, freshId)
    ensures Valid(AddTodo(s, freshId))
  {
    var r := AddTodo(s, freshId);
    if !IsBlank(s.newTodo) {
      forall i | 0 <= i < |s.todos| ensures r.todos[i] == s.todos[i] {
        assert r.todos[..|s.todos|][i] == r.todos[i];
      }
      if s.editingId.Some? {
        var j :| 0 <= j < |s.todos| && s.todos[j].id == s.editingId.value;
        assert r.todos[j].id == s.editingId.value;
      }
    }
  }

  /** Deleting keeps ids unique: the kept tasks sit at increasing positions. */
  lemma DeletePreservesUniqueIds(todos: seq<Todo>, id: int)
    requires UniqueIds(todos)
    ensures UniqueIds(Without(todos, id))
  {
    var r := Without(todos, id);
    DeleteSelectsInOrder(todos, id);
    var k := KeptIndices(todos, id);
    forall m, n | 0 <= m < n < |r| ensures r[m].id != r[n].id {
      assert k[m] < k[n];
      assert r[m] == todos[k[m]] && r[n] == todos[k[n]];
    }
  }

  lemma DeletePreservesNoBlankTexts(todos: seq<Todo>, id: int)
    requires NoBlankTexts(todos)
    ensures NoBlankTexts(Without(todos, id))
  {
    var r := Without(todos, id);
    forall m | 0 <= m < |r| ensures !IsBlank(r[m].text) {
      assert r[m] in todos;
    }
  }

  /** Deleting keeps the state valid as long as the deleted id is not the one
      under edit. */
  lemma DeleteTodoPreservesValid(s: State, id: int)
    requires Valid(s) && s.editingId != Some(id)
    ensures Valid(DeleteTodo(s, id))
  {
    var r := DeleteTodo(s, id);
    DeletePreservesUniqueIds(s.todos, id);
    DeletePreservesNoBlankTexts(s.todos, id);
    if s.editingId.Some? {
      var j :| 0 <= j < |s.todos| && s.todos[j].id == s.editingId.value;
      assert s.todos[j] in r.todos;
      var m :| 0 <= m < |r.todos| && r.todos[m] == s.todos[j];
    }
  }

  /** Deleting the task under edit leaves `editingId` pointing at no task: the
      source does not close the session, so the invariant breaks. */
  lemma DeleteUnderEditLeavesDanglingTarget()
    ensures var s := State([Todo(1, "Buy milk", false)], "", Some(1), "Buy milk");
            Valid(s) && DeleteTodo(s, 1).editingId == Some(1) && !Valid(DeleteTodo(s, 1))
  {
    var s := State([Todo(1, "Buy milk", false)], "", Some(1), "Buy milk");
    assert !IsWhiteSpace("Buy milk"[0]);
    assert s.todos[0].id == 1;
  }

  lemma ToggleCompletePreservesValid(s: State, id: int)
    requires Valid(s)
    ensures Valid(ToggleComplete(s, id))
  {
    var r := ToggleComplete(s, id);
    if s.editingId.Some? {
      var j :| 0 <= j < |s.todos| && s.todos[j].id == s.editingId.value;
      assert r.todos[j].id == s.editingId.value;
    }
  }

  lemma StartEditPreservesValid(s: State, t: Todo)
    requires Valid(s) && t in s.todos
    ensures Valid(StartEdit(s, t))
  {
    var j :| 0 <= j < |s.todos| && s.todos[j] == t;
    assert s.todos[j].id == t.id;
  }

  lemma SaveEditPreservesValid(s: State)
    requires Valid(s)
    ensures Valid(SaveEdit(s))
  {
    var r := SaveEdit(s);
    if !IsBlank(s.editText) {
      forall i | 0 <= i < |r.todos| ensures !IsBlank(r.todos[i].text) {
      }
    }
  }

  lemma CancelEditPreservesValid(s: State)
    requires Valid(s)
    ensures Valid(CancelEdit(s))
  {
  }

  /** The end-to-end run: add "Buy milk", toggle it, edit it to "Buy oat milk",
      delete it; the list ends empty with no session. */
  lemma Scenario(stamp: int)
    ensures var s0 := Initial().(newTodo := "Buy milk");
            var s1 := AddTodo(s0, stamp);
            var s2 := ToggleComplete(s1, stamp);
            var s3 := StartEdit(s2, s2.todos[0]).(editText := "Buy oat milk");
            var s4 := SaveEdit(s3);
            var s5 := DeleteTodo(s4, stamp);
            && s1.todos == [Todo(stamp, "Buy milk", false)] && s1.newTodo == ""
            && s2.todos == [Todo(stamp, "Buy milk", true)]
            && s4.todos == [Todo(stamp, "Buy oat milk", true)] && s4.editingId == None
            && s5.todos == [] && s5.editingId == None
  {
    assert !IsWhiteSpace("Buy milk"[0]);
    assert !IsWhiteSpace("Buy oat milk"[0]);
  }
}
