/**
 * TodoProvider of src/lib/store.tsx: the `todos` state, the synchronous
 * primitives that replace it, and the actions that validate, replace it,
 * write the new list through to storage and report a TodoActionState.
 */
module Provider {
  import opened Wrappers
  import opened Text
  import opened TodoList
  import opened Storage

  /** TodoActionState as the actions fill it in. */
  datatype ActionState = ActionState(success: bool, error: Option<string>)

  const Succeeded := ActionState(true, None)
  const TextRequired: string := "Todo text is required"
  const TextCannotBeEmpty: string := "Todo text cannot be empty"

  /** The text check of addTodoAction: the form field is missing, empty, or
      nothing but whitespace. */
  predicate MissingText(formText: Option<string>) {
    formText.None? || formText.value == "" || Trim(formText.value) == ""
  }

  class TodoProvider {
    var todos: seq<Todo>
    const storage: LocalStorage

    /** The stored copy is the in-memory list (where there is storage at all). */
    predicate Persisted()
      reads this, storage
    {
      storage.hasWindow ==> storage.saved == Some(todos)
    }

    /** Mounting the provider. The state starts as []; the load effect reads
        loadTodos() and schedules it as the new state; the save effect then
        runs with the initial [], and runs again once the loaded list has
        been rendered. */
    constructor(storage: LocalStorage)
      modifies storage
      ensures this.storage == storage
      ensures todos == old(storage.Load())
      ensures Persisted()
      ensures !storage.hasWindow ==> storage.saved == old(storage.saved)
    {
      this.storage := storage;
      todos := [];
      new;
      var loaded := storage.Load();
      storage.Save(todos);
      todos := loaded;
      storage.Save(todos);
    }

    /** The save effect: whenever the state has changed, the whole list is
        written to storage. */
    method SaveEffect()
      modifies storage
      ensures todos == old(todos) && Persisted()
      ensures !storage.hasWindow ==> storage.saved == old(storage.saved)
    {
      storage.Save(todos);
    }

    // ---- Synchronous primitives: the state only -----------------------

    method AddTodo(text: string, now: int, isoNow: string)
      modifies this
      ensures todos == Added(old(todos), now, isoNow, text)
    {
      todos := Added(todos, now, isoNow, text);
    }

    method DeleteTodo(id: int)
      modifies this
      ensures todos == Without(old(todos), id)
    {
      todos := Without(todos, id);
    }

    method ToggleTodo(id: int)
      modifies this
      ensures todos == Toggled(old(todos), id)
    {
      todos := Toggled(todos, id);
    }

    method UpdateTodo(id: int, text: string)
      modifies this
      ensures todos == Updated(old(todos), id, text)
    {
      todos := Updated(todos, id, text);
    }

    // ---- Actions: validate, replace the state, write it through -------

    /** Replaces the state with `newTodos` and saves that same list, as the
        updater passed to setTodos by each action does. */
    method Commit(newTodos: seq<Todo>)
      modifies this, storage
      ensures todos == newTodos && Persisted()
      ensures !storage.hasWindow ==> storage.saved == old(storage.saved)
    {
      storage.Save(newTodos);
      todos := newTodos;
    }

    method AddTodoAction(formText: Option<string>, now: int, isoNow: string) returns (r: ActionState)
      modifies this, storage
      ensures r.success <==> formText.Some? && !IsBlank(formText.value)
      ensures !r.success ==>
        r == ActionState(false, Some(TextRequired)) && todos == old(todos) && storage.saved == old(storage.saved)
      ensures r.success ==>
        r == Succeeded && todos == Added(old(todos), now, isoNow, formText.value) && Persisted()
      ensures !storage.hasWindow ==> storage.saved == old(storage.saved)
    {
      if MissingText(formText) {
        return ActionState(false, Some(TextRequired));
      }
      Commit(Added(todos, now, isoNow, formText.value));
      r := Succeeded;
    }

    method DeleteTodoAction(id: int) returns (r: ActionState)
      modifies this, storage
      ensures r == Succeeded
      ensures todos == Without(old(todos), id) && Persisted()
      ensures !storage.hasWindow ==> storage.saved == old(storage.saved)
    {
      Commit(Without(todos, id));
      r := Succeeded;
    }

    method ToggleTodoAction(id: int) returns (r: ActionState)
      modifies this, storage
      ensures r == Succeeded
      ensures todos == Toggled(old(todos), id) && Persisted()
      ensures !storage.hasWindow ==> storage.saved == old(storage.saved)
    {
      Commit(Toggled(todos, id));
      r := Succeeded;
    }

    method UpdateTodoAction(id: int, text: string) returns (r: ActionState)
      modifies this, storage
      ensures r.success <==> !IsBlank(text)
      ensures !r.success ==>
        r == ActionState(false, Some(TextCannotBeEmpty)) && todos == old(todos) && storage.saved == old(storage.saved)
      ensures r.success ==>
        r == Succeeded && todos == Updated(old(todos), id, text) && Persisted()
      ensures !storage.hasWindow ==> storage.saved == old(storage.saved)
    {
      if Trim(text) == "" {
        return ActionState(false, Some(TextCannotBeEmpty));
      }
      Commit(Updated(todos, id, text));
      r := Succeeded;
    }
  }
}
