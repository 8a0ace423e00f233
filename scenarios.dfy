/**
 * Client runs of the provider, from an empty browser storage: what a caller
 * can conclude from the contracts of the actions alone.
 */
module Scenarios {
  import opened Wrappers
  import opened Text
  import opened TodoList
  import opened Storage
  import opened Provider

  /** Add "Buy milk", toggle it, delete it: the list and the stored copy
      follow each step, and a provider mounted afresh over the same storage
      (a page reload) sees what the first one left. */
  method AddToggleDelete(now: int, isoNow: string)
    returns (afterAdd: seq<Todo>, savedAfterAdd: Option<seq<Todo>>,
             afterToggle: seq<Todo>, savedAfterToggle: Option<seq<Todo>>,
             afterDelete: seq<Todo>, saved: Option<seq<Todo>>, reloaded: seq<Todo>)
    ensures afterAdd == [Todo(now, "Buy milk", false, isoNow)] && savedAfterAdd == Some(afterAdd)
    ensures afterToggle == [Todo(now, "Buy milk", true, isoNow)] && savedAfterToggle == Some(afterToggle)
    ensures afterDelete == [] && saved == Some([]) && reloaded == []
  {
    var storage := new LocalStorage(true, None);
    var p := new TodoProvider(storage);
    AddFirst(p, "Buy milk", now, isoNow);
    afterAdd, savedAfterAdd := p.todos, storage.saved;
    ToggleOnly(p, afterAdd[0]);
    afterToggle, savedAfterToggle := p.todos, storage.saved;
    DeleteOnly(p, afterToggle[0]);
    afterDelete, saved := p.todos, storage.saved;
    var q := new TodoProvider(storage);
    reloaded := q.todos;
  }

  /** Adding untrimmed text to an empty provider stores the one record
      holding that text. */
  method AddFirst(p: TodoProvider, text: string, now: int, isoNow: string)
    requires p.todos == [] && p.storage.hasWindow
    requires text != [] && !IsWhitespace(text[0]) && !IsWhitespace(text[|text| - 1])
    modifies p, p.storage
    ensures p.todos == [Todo(now, text, false, isoNow)] && p.storage.saved == Some(p.todos)
  {
    UntrimmedAdded([], now, isoNow, text);
    assert [] + [Todo(now, text, false, isoNow)] == [Todo(now, text, false, isoNow)];
    var r := p.AddTodoAction(Some(text), now, isoNow);
  }

  /** Toggling the one record of a provider flips it, and stores that. */
  method ToggleOnly(p: TodoProvider, t: Todo)
    requires p.todos == [t] && p.storage.hasWindow
    modifies p, p.storage
    ensures p.todos == [t.(completed := !t.completed)] && p.storage.saved == Some(p.todos)
  {
    ToggledSingle(t);
    var r := p.ToggleTodoAction(t.id);
  }

  /** Deleting the one record of a provider empties it, and stores that. */
  method DeleteOnly(p: TodoProvider, t: Todo)
    requires p.todos == [t] && p.storage.hasWindow
    modifies p, p.storage
    ensures p.todos == [] && p.storage.saved == Some([])
  {
    WithoutSingle(t, t.id);
    var r := p.DeleteTodoAction(t.id);
  }

  /** Adding untrimmed text appends the record holding that very text. */
  lemma UntrimmedAdded(xs: seq<Todo>, now: int, isoNow: string, text: string)
    requires text != [] && !IsWhitespace(text[0]) && !IsWhitespace(text[|text| - 1])
    ensures !IsBlank(text)
    ensures Added(xs, now, isoNow, text) == xs + [Todo(now, text, false, isoNow)]
  {
    TrimUntrimmed(text);
  }

  /** Toggling the one record of a singleton list flips it. */
  lemma ToggledSingle(t: Todo)
    ensures Toggled([t], t.id) == [t.(completed := !t.completed)]
  {
    assert Toggled([t], t.id)[0] == t.(completed := !t.completed);
  }

  /** The page's checkbox handler: an optimistic toggleTodo followed by
      toggleTodoAction on the same id. Both flip the same list, so the click
      ends with the list it started from, and that list stored. */
  method CheckboxClick(p: TodoProvider, id: int) returns (r: ActionState)
    modifies p, p.storage
    ensures r == Succeeded
    ensures p.todos == old(p.todos) && p.Persisted()
  {
    p.ToggleTodo(id);
    r := p.ToggleTodoAction(id);
    ToggleTwice(old(p.todos), id);
  }

  /** Add x, add y, toggle the first: the order stays [x, y], and only the
      first record is done (for any two texts, as long as the two adds read
      different clock values). */
  lemma OrderPreserved(t1: int, t2: int, iso1: string, iso2: string, x: string, y: string)
    requires t1 != t2
    ensures Toggled(Added(Added([], t1, iso1, x), t2, iso2, y), t1)
         == [Todo(t1, Trim(x), true, iso1), Todo(t2, Trim(y), false, iso2)]
  {
    var a, b := NewTodo(t1, iso1, x), NewTodo(t2, iso2, y);
    assert Added([], t1, iso1, x) == [a];
    assert Added([a], t2, iso2, y) == [a] + [b];
    ToggledFirst(a, b);
  }

  /** Toggling the first of two records with different ids flips only it. */
  lemma ToggledFirst(a: Todo, b: Todo)
    requires a.id != b.id
    ensures Toggled([a] + [b], a.id) == [a.(completed := !a.completed), b]
  {
    var r := Toggled([a] + [b], a.id);
    assert r[0] == a.(completed := !a.completed) && r[1] == b;
  }

  /** "   " and a missing form field are refused with the same message,
      and the list and the stored copy stay as the mount left them. */
  method BlankRefused(now: int, isoNow: string)
    returns (blank: ActionState, missing: ActionState, todos: seq<Todo>, saved: Option<seq<Todo>>)
    ensures blank == missing == ActionState(false, Some("Todo text is required"))
    ensures todos == [] && saved == Some([])
  {
    var storage := new LocalStorage(true, None);
    var p := new TodoProvider(storage);
    assert IsBlank("   ");
    blank := p.AddTodoAction(Some("   "), now, isoNow);
    missing := p.AddTodoAction(None, now, isoNow);
    todos := p.todos;
    saved := storage.saved;
  }

  /** "  buy milk  " is stored as "buy milk". */
  method TrimmedOnAdd(now: int, isoNow: string) returns (todos: seq<Todo>, saved: Option<seq<Todo>>)
    ensures todos == [Todo(now, "buy milk", false, isoNow)] && saved == Some(todos)
  {
    var storage := new LocalStorage(true, None);
    var p := new TodoProvider(storage);
    var padded := PaddedMilk();
    PaddedAdded(now, isoNow, padded, "buy milk");
    var r := p.AddTodoAction(Some(padded), now, isoNow);
    todos, saved := p.todos, storage.saved;
  }

  /** "  buy milk  ", which trims to "buy milk". */
  function PaddedMilk(): (s: string)
    ensures Trim(s) == "buy milk"
  {
    var pad, milk := "  ", "buy milk";
    assert IsBlank(pad);
    TrimUntrimmed(milk);
    TrimPadded(pad, milk, pad);
    pad + milk + pad
  }

  /** Adding text that trims to `trimmed` (not empty) to the empty list gives
      the one record holding `trimmed`. */
  lemma PaddedAdded(now: int, isoNow: string, text: string, trimmed: string)
    requires Trim(text) == trimmed && trimmed != []
    ensures !IsBlank(text)
    ensures Added([], now, isoNow, text) == [Todo(now, trimmed, false, isoNow)]
  {
  }
}
