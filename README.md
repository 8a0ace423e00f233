# minimal-todos: the todo store, modelled in Dafny

This project models the todo collection manager of `src/lib/store.tsx`. It covers the `todos` state of
`TodoProvider`, an ordered list of `{id, text, completed, createdAt}` records, and the four synchronous
primitives that replace that list: `addTodo`, `deleteTodo`, `toggleTodo` and `updateTodo`. It also covers
the four actions that validate, replace the list, write it through to `localStorage`, and return a
`TodoActionState`. The last part is the `loadTodos` / `saveTodos` adapter over the one storage slot
under the key `"todos-next-app"`.

Modules, leaves first:

- `Wrappers` (`wrappers.dfy`): `Option`.
- `Text` (`text.dfy`): JavaScript's `String.prototype.trim` over a fixed whitespace set. It also holds the
  "blank" test the actions apply.
- `TodoList` (`todo_list.dfy`): the `Todo` record, and the list transformations as pure functions: append
  (`Added`), filter (`Without`), and the two map-by-id updates (`Toggled`, `Updated`). It also holds their
  lemmas: order, involution, idempotence, commutation, id distinctness and non-blank texts.
- `Storage` (`storage.dfy`): a class for the storage slot, with `Load` (loadTodos) and `Save` (saveTodos).
- `Provider` (`provider.dfy`): the `TodoProvider` class. Its `todos` field is replaced by every operation.
  The actions also overwrite the storage slot with the complete new list.
- `Scenarios` (`scenarios.dfy`): client runs that draw conclusions from the contracts alone.

The system's intended invariants are stronger than what the code enforces in three places. The model follows the code:

- Ids are `Date.now()` readings, so they are not guaranteed unique. `AddedKeepsDistinct` states
  distinctness only under the condition that the clock reading exceeds every existing id.
  `SameMillisecondAddsCollide` shows two adds in one millisecond sharing an id.
- Texts are not guaranteed non-blank. Only the actions validate. The synchronous `addTodo` and `updateTodo`
  store whatever `trim` leaves, so any whitespace-only text becomes `""` (`UnvalidatedAddStoresEmptyText`,
  `UnvalidatedEditStoresEmptyText`).
- `loadTodos` calls `JSON.parse` without a guard, so a corrupt stored value would raise. The model has no
  encoding and claims nothing about that case.

On mount, the save effect first runs with the initial `[]`, after the load effect has read the storage
and before the loaded list is rendered. The model's constructor does the same. The slot therefore ends
up holding the loaded list. A browser without a saved value ends up with `[]` stored.

The page's checkbox handler (`src/app/page.tsx`) calls `toggleTodo(id)` and then `toggleTodoAction(id)`.
Both queue a flip of the same id over the same list. By `ToggleTwice`, a click therefore ends with the list
it started from (`Scenarios.CheckboxClick`). This follows from the contracts alone.

## Model

| member | source | states |
|---|---|---|
| `Text.TrimStart` | src/lib/store.tsx:71 | the result is the suffix of the input after its leading whitespace: everything dropped is whitespace, and the result is empty or starts with a non-whitespace character |
| `Text.TrimEnd` | src/lib/store.tsx:71 | the result is the prefix of the input before its trailing whitespace: everything dropped is whitespace, and the result is empty or ends with a non-whitespace character |
| `Text.Trim` | src/lib/store.tsx:71 | `trim` yields the empty string exactly when the input is blank; otherwise the result starts and ends with a non-whitespace character, and it is never longer than the input |
| `Text.TrimSlice` | src/lib/store.tsx:71 | the trimmed text is a contiguous slice of the input, and everything before and after that slice is whitespace |
| `Text.TrimUnique` | src/lib/store.tsx:71 | any slice with blank margins and non-whitespace ends (or the empty slice of a blank string) is the one `trim` returns |
| `Text.TrimStartAt` | src/lib/store.tsx:71 | the leading strip stops exactly at the first character that is not whitespace |
| `Text.TrimEndAt` | src/lib/store.tsx:71 | the trailing strip stops exactly after the last character that is not whitespace |
| `Text.TrimUntrimmed` | src/lib/store.tsx:71 | text without surrounding whitespace is left unchanged by `trim` |
| `Text.TrimIdempotent` | src/lib/store.tsx:71 | trimming twice gives the same text as trimming once |
| `Text.TrimPadded` | src/lib/store.tsx:111 | whitespace added before and after a text is removed again by `trim` (so "  buy milk  " is stored as "buy milk") |
| `TodoList.Added` | src/lib/store.tsx:68-76 | an add appends exactly one record at the end, leaves every earlier record in place, and gives the new record the clock's id and timestamp, the trimmed text and `completed == false` |
| `TodoList.Without` | src/lib/store.tsx:78-80 | a delete removes one record per record that carries the id, and no more |
| `TodoList.WithoutMembers` | src/lib/store.tsx:79 | a record survives a delete exactly when it was in the list and its id differs from the deleted id |
| `TodoList.WithoutConcat` | src/lib/store.tsx:79 | deleting from a concatenation gives the two deletions concatenated, so the survivors keep their relative order |
| `TodoList.WithoutSingle` | src/lib/store.tsx:79 | a single record survives a delete exactly when its id differs; with `WithoutConcat` this determines the delete completely |
| `TodoList.WithoutAbsent` | src/lib/store.tsx:79 | deleting an id that no record carries leaves the list unchanged |
| `TodoList.WithoutIdempotent` | src/lib/store.tsx:128-135 | deleting the same id twice gives the same list as deleting it once |
| `TodoList.Toggled` | src/lib/store.tsx:82-88 | a toggle keeps length and order; each record keeps its id, text and creation time; `completed` flips exactly on the records with the id |
| `TodoList.ToggleTwice` | src/lib/store.tsx:82-88 | toggling the same id twice restores the original list |
| `TodoList.Updated` | src/lib/store.tsx:90-96 | an edit keeps length and order; each record keeps its id, completion and creation time; the text becomes the trimmed input exactly on the records with the id |
| `TodoList.UpdateIdempotent` | src/lib/store.tsx:90-96 | applying the same edit twice gives the same list as applying it once |
| `TodoList.DeleteToggleCommute` | src/lib/store.tsx:78-88 | a delete and a toggle give the same list in either order, for any two ids |
| `TodoList.AddedKeepsDistinct` | src/lib/store.tsx:109-117 | if ids are distinct and the clock reading is larger than every id, ids stay distinct after the add |
| `TodoList.SameMillisecondAddsCollide` | src/lib/store.tsx:110 | two adds that read the same millisecond produce two records with the same id |
| `TodoList.WithoutKeepsDistinct` | src/lib/store.tsx:79 | deleting keeps ids distinct |
| `TodoList.MapsKeepDistinct` | src/lib/store.tsx:82-96 | toggling and editing keep ids distinct |
| `TodoList.ValidatedEditsKeepNonBlank` | src/lib/store.tsx:104-171 | an add or an edit whose text is not blank, as the validated actions require, keeps every text non-blank |
| `TodoList.DeleteToggleKeepNonBlank` | src/lib/store.tsx:128-149 | a delete or a toggle keeps every text non-blank, for any id |
| `TodoList.UnvalidatedAddStoresEmptyText` | src/lib/store.tsx:68-76 | the synchronous add turns any whitespace-only input into a record with empty text, so the list no longer has only non-blank texts |
| `TodoList.UnvalidatedEditStoresEmptyText` | src/lib/store.tsx:90-96 | the synchronous edit with any whitespace-only text empties the text of the record it edits, so the list no longer has only non-blank texts |
| `Storage.LocalStorage.Load` | src/lib/store.tsx:42-46 | loadTodos returns `[]` without a window or when nothing is saved, and the saved collection otherwise (`Save` states the round trip) |
| `Storage.LocalStorage.Save` | src/lib/store.tsx:48-51 | saveTodos overwrites the slot with the whole collection, so the next load returns it; without a window nothing changes |
| `Provider.TodoProvider.constructor` | src/lib/store.tsx:56-66 | after mounting, the state is what storage held and the stored copy equals the state; without a window the slot is not touched |
| `Provider.TodoProvider.SaveEffect` | src/lib/store.tsx:64-66 | the save effect leaves the state alone and makes the stored copy equal to it |
| `Provider.TodoProvider.AddTodo` | src/lib/store.tsx:68-76 | the state becomes the list with the new record appended; storage is not touched |
| `Provider.TodoProvider.DeleteTodo` | src/lib/store.tsx:78-80 | the state becomes the list without the records carrying the id |
| `Provider.TodoProvider.ToggleTodo` | src/lib/store.tsx:82-88 | the state becomes the list with `completed` flipped on the records carrying the id |
| `Provider.TodoProvider.UpdateTodo` | src/lib/store.tsx:90-96 | the state becomes the list with the trimmed text on the records carrying the id, whether or not that text is empty |
| `Provider.TodoProvider.Commit` | src/lib/store.tsx:116-120 | the setTodos updater of an action: the state becomes the new list, and the stored copy becomes that same list |
| `Provider.TodoProvider.AddTodoAction` | src/lib/store.tsx:99-126 | success exactly when the form text is present and not blank. On failure the result is `{success:false, error:"Todo text is required"}` and neither the state nor storage changes. On success the new record is appended and the full new list is stored |
| `Provider.TodoProvider.DeleteTodoAction` | src/lib/store.tsx:128-139 | always `{success:true}`; the state becomes the filtered list and the stored copy equals it |
| `Provider.TodoProvider.ToggleTodoAction` | src/lib/store.tsx:141-154 | always `{success:true}`; the state becomes the toggled list and the stored copy equals it |
| `Provider.TodoProvider.UpdateTodoAction` | src/lib/store.tsx:156-176 | success exactly when the text is not blank. On failure the result is `{success:false, error:"Todo text cannot be empty"}` and nothing changes. On success the edited list becomes the state and is stored |
| `Scenarios.AddToggleDelete` | src/lib/store.tsx:99-154 | add "Buy milk", toggle it, then delete it, starting from empty storage. After the add the list and the stored copy are the one open record; after the toggle, that record done; after the delete, `[]`; and a fresh provider over the same storage loads `[]` |
| `Scenarios.CheckboxClick` | src/app/page.tsx:90-100 | the optimistic toggle followed by the toggle action leaves the list as it was, stored, and reports success |
| `Scenarios.OrderPreserved` | src/lib/store.tsx:109-150 | adding any text x, then any text y at a different clock reading, then toggling x gives `[x (done), y]`, in that order, each text trimmed |
| `Scenarios.BlankRefused` | src/lib/store.tsx:104-107 | whitespace-only and missing form text are refused with "Todo text is required", and the list and the stored copy stay as they were |
| `Scenarios.TrimmedOnAdd` | src/lib/store.tsx:109-122 | adding "  buy milk  " gives the one record whose text is "buy milk", and the stored copy equals that list |

## Left out

- The JSON encoding of the slot: the slot holds the collection itself. Storage keys other than `"todos-next-app"` are not modelled. A stored value that fails to parse is not modelled either.
- Storage failures: `localStorage.getItem` and `setItem` can throw with a window present (quota exceeded, access denied). `Save` always writes when there is a window. In the source such a throw would happen inside the `setTodos` updater, outside the action's `catch`, so the action would still report success with nothing stored; the model does not capture this.
- `Date.now()` and `new Date().toISOString()`: both clock readings are parameters of the add operations.
- Ids are JavaScript numbers, modelled as unbounded integers. Precision loss above 2^53 is not modelled.
- Asynchrony: promises, React's batching of setTodos updaters, and effect scheduling beyond the mount sequence and an explicit `SaveEffect` call. Each updater is applied at once, in call order.
- The `catch` branches returning "Failed to …" messages: every list operation here is total, so they cannot be reached.
- The `prevState` parameter of `addTodoAction` (never read) and the `todos?` field of `TodoActionState` (never set by the store).
- `useTodoStore` and its missing-provider error: React context plumbing.
- `trim` works on UTF-16 code units in JavaScript and on Unicode scalar values here. Every character `trim` removes lies in the Basic Multilingual Plane, so the two agree.
- `src/app/page.tsx` (the UI and its optimistic toggle and delete handlers), `src/components/ErrorBoundary.tsx` and `src/app/layout.tsx`: presentation, with no todo logic of their own. Only the checkbox handler's pair of toggles is modelled (`Scenarios.CheckboxClick`); `ToggleTwice` is also the fact the handler's rollback relies on.
