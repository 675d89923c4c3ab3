# rustido: the todo list and its controller loop, in Dafny

rustido is a terminal todo-list manager. Its tasks (a title and a
description each) live in a JSON file. The screen shows the titles on the
left, with one highlighted by a selection cursor, and the selected task's
description on the right. The user moves the cursor with the arrow keys or
`j`/`k`, adds a placeholder task with `a`, removes the selected task with
`d`, and quits with `q` or Ctrl+C.

This project models two parts of the program:

- **The `TodoList`** of `src/todos/list.rs`, in `todos.dfy` (module
  `Todos`). Its state has three parts: the cached items `todos`, the
  optional cursor (tui's `ListState` selection), and the persisted
  collection `store`, which stands for the JSON file behind
  `read_db`/`write_db`. Every operation is first defined on a value
  (`ListModel`), and properties of those definitions are proved as lemmas.
  The class `TodoList` then does the same operations in place, on fields
  `todos`, `cursor` and `store`. Each method's postcondition ties its new
  state to the value-level definition.
- **The key dispatch and the loop** of `src/main.rs`, in `app.dfy` (module
  `App`). `Dispatch` is the `match` on `(modifiers, code)`. `NextState` is
  one pass of the loop: draw (which reloads the cache), receive an event,
  act on it. `Run` is the loop over a stream of events, until the first
  quit key. `Step` and `MainLoop` do the same things on a `TodoList` object.

`decimal.dfy` models Rust's `{}` formatting of the item number in the
placeholder texts "Task N" and "description N", together with the parser
that inverts it. `wrappers.dfy` holds `Option`.

The source has several quirks, and the model keeps them:

- Navigation works on the cached `todos`. Only `render` reloads the cache.
- `add` changes only the store. The cache and the cursor stay as they were.
- `remove` checks the cached length. It then removes from a fresh read of
  the store, and moves the cursor according to the selection rather than
  according to the index it removes.
- `select_next_todo` wraps only from exactly `len - 1`. A stale cursor
  past the end is just incremented.
- The cursor is only ever set to `Some(_)`.

The main result is `App.CursorInvariant`. Whenever the loop is about to
draw, there is a cursor, and it is either a valid index into the store or 0
on an empty store. `NextState` and `Run` preserve it. As a consequence,
`selected().unwrap()` and the `Vec::remove` in `remove` cannot panic, as
long as nothing else writes the file.

## Model

| member | source | states |
|---|---|---|
| `Decimal.NatToString` | src/todos/list.rs:118-119 | the number in a placeholder text is written as a non-empty run of decimal digits with no leading zero, one digit exactly when it is below 10 |
| `Decimal.ParseNatToString` | src/todos/list.rs:118-119 | reading the digits back gives the number, so the written form loses nothing |
| `Decimal.NatToStringInjective` | src/todos/list.rs:118-119 | different numbers are written differently |
| `Todos.NextCursor` | src/todos/list.rs:98-112 | `select_next_todo` changes nothing on an empty cache or without a cursor; otherwise it keeps the cursor present, keeps a valid cursor valid, and moves any index other than `len - 1` to the next one |
| `Todos.PrevCursor` | src/todos/list.rs:83-97 | `select_prev_todo` changes nothing on an empty cache or without a cursor; otherwise it keeps a valid cursor valid, wraps 0 to `len - 1`, and moves any other index, even one past the end, back by one |
| `Todos.NextIsSuccessor` | src/todos/list.rs:104-110 | on a valid index, the next cursor is the index plus one modulo the length |
| `Todos.PrevIsPredecessor` | src/todos/list.rs:89-95 | on a valid index, the previous cursor is the index minus one modulo the length |
| `Todos.NextThenPrev` | src/todos/list.rs:83-112 | from a valid index, next then previous gives the index back |
| `Todos.PrevThenNext` | src/todos/list.rs:83-112 | from a valid index, previous then next gives the index back |
| `Todos.NavigateIsOffset` | src/todos/list.rs:83-112 | after any sequence of next/previous moves from a valid index, the cursor is the start index plus the number of forward moves minus the number of backward ones, modulo the length |
| `Todos.NavigateStaysValid` | src/todos/list.rs:83-112 | any sequence of moves keeps a present cursor present and a valid cursor valid |
| `Todos.PlaceholderRoundTrip` | src/todos/list.rs:116-120 | the number can be read back out of the placeholder title "Task N" |
| `Todos.PlaceholderInjective` | src/todos/list.rs:116-120 | placeholders made from different numbers have different titles and different descriptions |
| `Todos.RemoveAt` | src/todos/list.rs:131 | `Vec::remove(i)` keeps the elements before `i`, shifts the ones after it down by one, and drops exactly one copy of the element at `i` |
| `Todos.Appended` | src/todos/list.rs:115-121 | the store after `add` keeps its old contents as a prefix and ends in a placeholder whose number is the new length |
| `Todos.RemoveUndoesAppend` | src/todos/list.rs:114-139 | removing the item `add` appended gives back the old store |
| `Todos.RemovedCursor` | src/todos/list.rs:133-135 | `remove` keeps the cursor present, keeps a valid cursor valid, moves it only when it is on the last cached index, and then steps it back with wrap-around: to `len - 2`, or to 0 when the cache held one item |
| `Todos.SelectedItem` | src/todos/list.rs:141-145 | `get_selected_item` gives the cached item at the cursor exactly when the cursor is below the cache length, and nothing otherwise |
| `Todos.CursorNeverCleared` | src/todos/list.rs:27-139 | `init` sets a cursor, and no operation clears a present cursor |
| `Todos.NavigationRoundTrip` | src/todos/list.rs:83-112 | on a valid cursor, next then previous (and previous then next) gives the whole list state back: cache and store untouched |
| `Todos.EmptyCacheNoOps` | src/todos/list.rs:83-139 | on an empty cache, next, previous and remove change nothing |
| `Todos.AddGrowsStore` | src/todos/list.rs:114-123 | `add` makes the store its old contents followed by "Task N+1" / "description N+1", with the cache and the cursor unchanged |
| `Todos.RemoveShrinksStore` | src/todos/list.rs:125-139 | `remove(i)` on a non-empty cache shortens the store by one, dropping the element at `i`, leaves the cache alone, and keeps a valid cursor valid |
| `Todos.RemoveLastSelected` | src/todos/list.rs:125-139 | removing the selected last item leaves the cursor on the new last item, or on 0 when the store is now empty |
| `Todos.RemoveScenarioThree` | src/todos/list.rs:125-139 | three items with the cursor on index 2: `remove(2)` leaves two items and the cursor on 1 |
| `Todos.RemoveScenarioOne` | src/todos/list.rs:125-145 | one item: `remove(0)` empties the store, and after the reload nothing is selected and "No todo selected" is shown |
| `Todos.AddScenarioEmpty` | src/todos/list.rs:114-123 | `add` on an empty store stores exactly "Task 1" / "description 1" |
| `Todos.TodoList.Init` | src/todos/list.rs:27-34 | `init` loads the cache from the store and puts the cursor on 0 |
| `Todos.TodoList.WriteDb` | src/db.rs:12-15 | `write_db` replaces the store wholesale and returns what it wrote |
| `Todos.TodoList.Reload` | src/todos/list.rs:36-38 | `x` sets the cache to the store and changes nothing else |
| `Todos.TodoList.Render` | src/todos/list.rs:40-78 | `render` reloads the cache, lists the stored titles in order, and shows the selected item's description or "No todo selected" |
| `Todos.TodoList.SelectTodoAtIndex` | src/todos/list.rs:80-82 | the cursor becomes `Some(index)` |
| `Todos.TodoList.SelectPrevTodo` | src/todos/list.rs:83-97 | the in-place method changes only the cursor, as `PrevCursor` on the cached length says |
| `Todos.TodoList.SelectNextTodo` | src/todos/list.rs:98-112 | the in-place method changes only the cursor, as `NextCursor` on the cached length says |
| `Todos.TodoList.Add` | src/todos/list.rs:114-123 | the in-place `add` changes only the store, appending the placeholder |
| `Todos.TodoList.Remove` | src/todos/list.rs:125-139 | the in-place `remove` does what `AfterRemove` says, with the source's precondition that the index is in the store |
| `Todos.TodoList.GetSelectedItem` | src/todos/list.rs:141-145 | the object's query agrees with `SelectedItem` and needs a cursor (the `expect`) |
| `App.Dispatch` | src/main.rs:147-174 | Ctrl+C or plain `q` quits, plain `a` adds, plain `d` removes, plain Down/`j` moves next, plain Up/`k` moves back, and a tick or any other key or modifier combination does nothing |
| `App.Start` | src/main.rs:110-111 | the loop starts with the popup hidden, the cache equal to the store, and the cursor invariant holding |
| `App.RemoveIsSafe` | src/main.rs:160-162 | under the cursor invariant, after the draw `selected().unwrap()` has a value and `remove` at it cannot panic |
| `App.NextState` | src/main.rs:113-174 | one pass keeps the cursor invariant, never hides a shown popup, leaves the cache equal to the store as drawn, and quits exactly on a quit key |
| `App.NextStateEffects` | src/main.rs:147-174 | per action: quit and ignored events change only the cache (by the draw); `a` shows the popup and appends to the store; `d` removes the selected item from a non-empty store; Down/Up move the cursor on the stored length and leave the store and the popup flag alone |
| `App.Run` | src/main.rs:113-175 | over any stream of events the cursor invariant holds, the popup never closes, the loop ends exactly when some event is a quit key, and the popup is only shown if some event was `a` |
| `App.PopupShownByAdd` | src/main.rs:156-159 | when no quit key comes, the popup is shown at the end exactly when it was shown before or some event was `a` |
| `App.Step` | src/main.rs:113-174 | one pass on a `TodoList` object does what `NextState` says |
| `App.MainLoop` | src/main.rs:110-175 | the loop, from `TodoList::init` on, ends in the state `Run` gives for the same events |

## Left out

- The JSON file and serde (src/db.rs:6-15): the store is a field of
  `TodoList`. `read_db` returns it and `write_db` replaces it. Read, parse
  and write errors abort the program in the source, and the model does not
  represent them. Nothing outside the program writes the store, so the race
  between reloading and saving is not modelled.
- The input thread, its `mpsc` channel and the 200 ms tick timing
  (src/main.rs:82-103): the loop receives a finite sequence of events
  instead, which stands for the first events of the infinite stream.
- The terminal (src/main.rs:105-108, 114-145), widgets, styles and layout
  (src/todos/list.rs:41-77): `Render` returns only the titles and the
  description text. The quit sequence of `disable_raw_mode`, `show_cursor`
  and `clear` is reduced to the quit flag.
- src/todos/popup.rs: `centered_rect` is tui layout arithmetic and
  `add_popup` is never called. The popup's only state, `show_popup`, is
  the `showPopup` flag of `App`.
- `usize` overflow: indices and lengths are unbounded naturals, so the
  overflow of `current_index + 1` or `len() + 1` at `usize::MAX` is not
  modelled. The cursor invariant keeps the cursor below the store length,
  so no reachable state comes near that bound.
- The `Error` enum of src/main.rs:42-48 only wraps the I/O and parse
  failures above, and it is left out with them.
