/**
 * The todo records and the list transformations of src/lib/store.tsx:
 * append a new record, filter one id out, and the two map-by-id updates
 * (flip `completed`, replace `text`). Everything here is a pure function of
 * the previous list, as the updaters passed to setTodos are.
 */
module TodoList {
  import opened Text

  /** A todo record (TodoWithDate): `id` is the millisecond clock reading at
      creation, `createdAt` the ISO-8601 timestamp string of that moment. */
  datatype Todo = Todo(id: int, text: string, completed: bool, createdAt: string)

  /** The record addTodo and addTodoAction build from the clock and the raw text. */
  function NewTodo(now: int, isoNow: string, text: string): Todo
  {
    Todo(now, Trim(text), false, isoNow)
  }

  /** The list after an add: the earlier records, untouched and in place,
      followed by exactly one new record at the end. */
  function Added(todos: seq<Todo>, now: int, isoNow: string, text: string): (r: seq<Todo>)
    ensures |r| == |todos| + 1 && r[..|todos|] == todos
    ensures r[|todos|].id == now && r[|todos|].createdAt == isoNow
    ensures r[|todos|].text == Trim(text) && !r[|todos|].completed
  {
    todos + [NewTodo(now, isoNow, text)]
  }

  /** Number of records whose id is `id`. */
  function CountId(todos: seq<Todo>, id: int): (n: nat)
    ensures n <= |todos|
  {
    if todos == [] then 0
    else (if todos[0].id == id then 1 else 0) + CountId(todos[1..], id)
  }

  /** The list after a delete (Array.prototype.filter with `todo.id !== id`):
      one record fewer per record that carries the id (WithoutMembers says
      which records remain, WithoutConcat and WithoutSingle in what order). */
  function Without(todos: seq<Todo>, id: int): (r: seq<Todo>)
    ensures |r| == |todos| - CountId(todos, id)
  {
    if todos == [] then []
    else if todos[0].id != id then [todos[0]] + Without(todos[1..], id)
    else Without(todos[1..], id)
  }

  /** The list after a toggle (a map that rebuilds matching records with
      `completed` negated): same length, and record by record the same id,
      text and creation time, with `completed` flipped exactly where the id
      matches. */
  function Toggled(todos: seq<Todo>, id: int): (r: seq<Todo>)
    ensures |r| == |todos|
    ensures forall i :: 0 <= i < |todos| ==>
      && r[i].id == todos[i].id && r[i].text == todos[i].text && r[i].createdAt == todos[i].createdAt
      && (r[i].completed != todos[i].completed <==> todos[i].id == id)
  {
    if todos == [] then []
    else
      var t := todos[0];
      [if t.id == id then t.(completed := !t.completed) else t] + Toggled(todos[1..], id)
  }

  /** The list after an edit (a map that rebuilds matching records with the
      trimmed text): same length, and record by record the same id,
      completion and creation time, with the text replaced by trim(text)
      exactly on the records whose id matches. */
  function Updated(todos: seq<Todo>, id: int, text: string): (r: seq<Todo>)
    ensures |r| == |todos|
    ensures forall i :: 0 <= i < |todos| ==>
      && r[i].id == todos[i].id && r[i].completed == todos[i].completed && r[i].createdAt == todos[i].createdAt
      && r[i].text == (if todos[i].id == id then Trim(text) else todos[i].text)
  {
    if todos == [] then []
    else
      var t := todos[0];
      [if t.id == id then t.(text := Trim(text)) else t] + Updated(todos[1..], id, text)
  }

  // ---- Delete ----------------------------------------------------------

  /** Deleting from a concatenation is concatenating the deletions: the
      survivors of the front part still precede those of the back part, so
      a delete never reorders records. With WithoutSingle this determines
      Without completely. */
  lemma {:induction false} WithoutConcat(xs: seq<Todo>, ys: seq<Todo>, id: int)
    ensures Without(xs + ys, id) == Without(xs, id) + Without(ys, id)
  {
    if xs == [] {
      assert xs + ys == ys;
    } else {
      assert (xs + ys)[0] == xs[0] && (xs + ys)[1..] == xs[1..] + ys;
      WithoutConcat(xs[1..], ys, id);
    }
  }

  /** A single record survives a delete exactly when its id differs. */
  lemma WithoutSingle(t: Todo, id: int)
    ensures Without([t], id) == if t.id != id then [t] else []
  {
    assert [t][1..] == [];
  }

  /** A record survives a delete exactly when it was there and its id differs. */
  lemma {:induction false} WithoutMembers(xs: seq<Todo>, id: int)
    ensures forall t :: t in Without(xs, id) <==> t in xs && t.id != id
  {
    if xs != [] {
      WithoutMembers(xs[1..], id);
      assert xs == [xs[0]] + xs[1..];
    }
  }

  /** Deleting an id no record carries leaves the list as it was. */
  lemma {:induction false} WithoutAbsent(xs: seq<Todo>, id: int)
    requires forall t :: t in xs ==> t.id != id
    ensures Without(xs, id) == xs
  {
    if xs != [] {
      WithoutAbsent(xs[1..], id);
    }
  }

  /** Deleting the same id twice is deleting it once, so a retried delete is harmless. */
  lemma WithoutIdempotent(xs: seq<Todo>, id: int)
    ensures Without(Without(xs, id), id) == Without(xs, id)
  {
    WithoutMembers(xs, id);
    WithoutAbsent(Without(xs, id), id);
  }

  // ---- Toggle and update -------------------------------------------------

  /** Toggling the same id twice restores the list: the optimistic toggle's
      rollback (toggle again) is exact. */
  lemma {:induction false} ToggleTwice(xs: seq<Todo>, id: int)
    ensures Toggled(Toggled(xs, id), id) == xs
  {
    if xs != [] {
      ToggleTwice(xs[1..], id);
    }
  }

  /** Applying the same edit twice is applying it once. */
  lemma {:induction false} UpdateIdempotent(xs: seq<Todo>, id: int, text: string)
    ensures Updated(Updated(xs, id, text), id, text) == Updated(xs, id, text)
  {
    if xs != [] {
      var u := Updated(xs, id, text);
      assert u[1..] == Updated(xs[1..], id, text);
      TrimIdempotent(text);
      UpdateIdempotent(xs[1..], id, text);
    }
  }

  /** A delete of one id and a toggle of another (or the same) id give the
      same list in either order: neither operation disturbs the other. */
  lemma {:induction false} DeleteToggleCommute(xs: seq<Todo>, a: int, b: int)
    ensures Without(Toggled(xs, b), a) == Toggled(Without(xs, a), b)
  {
    if xs != [] {
      DeleteToggleCommute(xs[1..], a, b);
    }
  }

  // ---- Ids ----------------------------------------------------------------

  /** No two records share an id. The code does not enforce this. */
  predicate DistinctIds(xs: seq<Todo>) {
    forall i, j :: 0 <= i < j < |xs| ==> xs[i].id != xs[j].id
  }

  /** An add keeps ids distinct when the clock reading is newer than every
      id already in the list; nothing else guarantees it. */
  lemma AddedKeepsDistinct(xs: seq<Todo>, now: int, isoNow: string, text: string)
    requires DistinctIds(xs)
    requires forall t :: t in xs ==> t.id < now
    ensures DistinctIds(Added(xs, now, isoNow, text))
  {
    var r := Added(xs, now, isoNow, text);
    forall i, j | 0 <= i < j < |r| ensures r[i].id != r[j].id {
      if j == |xs| {
        assert r[i] == xs[i];
      } else {
        assert r[i] == xs[i] && r[j] == xs[j];
      }
    }
  }

  /** Two adds within the same millisecond produce two records with the same id. */
  lemma SameMillisecondAddsCollide(now: int, isoNow: string, a: string, b: string)
    ensures !DistinctIds(Added(Added([], now, isoNow, a), now, isoNow, b))
  {
    var r := Added(Added([], now, isoNow, a), now, isoNow, b);
    assert r[0].id == now == r[1].id;
  }

  /** Deleting keeps ids distinct. */
  lemma {:induction false} WithoutKeepsDistinct(xs: seq<Todo>, id: int)
    requires DistinctIds(xs)
    ensures DistinctIds(Without(xs, id))
  {
    if xs != [] {
      WithoutKeepsDistinct(xs[1..], id);
      WithoutMembers(xs[1..], id);
      var rest := Without(xs[1..], id);
      forall t | t in rest ensures t.id != xs[0].id {
        var j :| 0 <= j < |xs[1..]| && xs[1..][j] == t;
        assert xs[j + 1] == t;
      }
    }
  }

  /** Toggling and editing keep ids distinct: neither touches an id. */
  lemma MapsKeepDistinct(xs: seq<Todo>, id: int, text: string)
    requires DistinctIds(xs)
    ensures DistinctIds(Toggled(xs, id)) && DistinctIds(Updated(xs, id, text))
  {
  }

  // ---- Texts ---------------------------------------------------------------

  /** Every record has text that is not blank. The actions keep this; the
      synchronous addTodo and updateTodo do not check it. */
  predicate NonBlankTexts(xs: seq<Todo>) {
    forall t :: t in xs ==> !IsBlank(t.text)
  }

  /** An add or an edit with text that is not blank (what the validated
      actions let through) keeps every text non-blank. */
  lemma ValidatedEditsKeepNonBlank(xs: seq<Todo>, now: int, isoNow: string, id: int, text: string)
    requires NonBlankTexts(xs) && !IsBlank(text)
    ensures NonBlankTexts(Added(xs, now, isoNow, text))
    ensures NonBlankTexts(Updated(xs, id, text))
  {
    var r := Added(xs, now, isoNow, text);
    forall t | t in r ensures !IsBlank(t.text) {
      if t != r[|xs|] { assert t in r[..|xs|]; }
    }
    var up := Updated(xs, id, text);
    forall t | t in up ensures !IsBlank(t.text) {
      var i :| 0 <= i < |up| && up[i] == t;
      assert xs[i] in xs;
    }
  }

  /** A delete or a toggle keeps every text non-blank, whatever the id:
      neither writes a text. */
  lemma DeleteToggleKeepNonBlank(xs: seq<Todo>, id: int)
    requires NonBlankTexts(xs)
    ensures NonBlankTexts(Without(xs, id))
    ensures NonBlankTexts(Toggled(xs, id))
  {
    WithoutMembers(xs, id);
    var tg := Toggled(xs, id);
    forall t | t in tg ensures !IsBlank(t.text) {
      var i :| 0 <= i < |tg| && tg[i] == t;
      assert xs[i] in xs;
    }
  }

  /** The synchronous add accepts whitespace-only text and stores an empty text. */
  lemma UnvalidatedAddStoresEmptyText(xs: seq<Todo>, now: int, isoNow: string, text: string)
    requires IsBlank(text)
    ensures Added(xs, now, isoNow, text)[|xs|].text == ""
    ensures !NonBlankTexts(Added(xs, now, isoNow, text))
  {
    var r := Added(xs, now, isoNow, text);
    assert Trim(text) == "";
    assert r[|xs|] in r;
  }

  /** The synchronous edit accepts whitespace-only text too, and empties the
      text of the record it edits. */
  lemma UnvalidatedEditStoresEmptyText(xs: seq<Todo>, i: nat, text: string)
    requires IsBlank(text) && i < |xs|
    ensures Updated(xs, xs[i].id, text)[i].text == ""
    ensures !NonBlankTexts(Updated(xs, xs[i].id, text))
  {
    var r := Updated(xs, xs[i].id, text);
    assert Trim(text) == "";
    assert r[i] in r;
  }
}
