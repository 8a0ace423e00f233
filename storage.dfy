/**
 * The persistence adapter of src/lib/store.tsx: loadTodos and saveTodos
 * over the browser's localStorage. Only the one slot under the fixed key
 * "todos-next-app" is modelled, holding the collection itself rather than
 * its JSON text.
 */
module Storage {
  import opened Wrappers
  import opened TodoList

  /** The localStorage slot. `hasWindow` is false when the code runs outside
      a browser (`typeof window === "undefined"`); then there is no storage
      to read or write. `saved` is None while the key is absent. */
  class LocalStorage {
    const hasWindow: bool
    var saved: Option<seq<Todo>>

    constructor(hasWindow: bool, saved: Option<seq<Todo>>)
      ensures this.hasWindow == hasWindow && this.saved == saved
    {
      this.hasWindow := hasWindow;
      this.saved := saved;
    }

    /** loadTodos: the empty list without a window or without a saved
        value, and otherwise the saved collection. */
    function Load(): (r: seq<Todo>)
      reads this
      ensures !hasWindow || saved == None ==> r == []
      ensures hasWindow && saved.Some? ==> r == saved.value
    {
      if hasWindow && saved.Some? then saved.value else []
    }

    /** saveTodos: overwrites the slot with the whole collection (nothing
        happens without a window), so that the next Load returns it. */
    method Save(todos: seq<Todo>)
      modifies this
      ensures hasWindow ==> saved == Some(todos)
      ensures !hasWindow ==> saved == old(saved)
      ensures Load() == if hasWindow then todos else []
    {
      if !hasWindow {
        return;
      }
      saved := Some(todos);
    }
  }
}
