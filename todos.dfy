/**
 * The todo list and its selection cursor (src/todos/list.rs).
 *
 * The list keeps three pieces of state: a cached copy `todos` of the
 * items, an optional cursor (the `ListState` selection), and the persisted
 * collection `store` behind `read_db`/`write_db`. The first part of the
 * module describes each operation on a value `ListModel`; the class
 * `TodoList` at the end performs the same operations in place and is
 * proved to agree with them.
 */
module Todos {
  import opened Wrappers
  import Decimal

  /** One task: a title and a description (the `Todo` record of src/main.rs). */
  datatype Todo = Todo(title: string, description: string)

  /** The state of a `TodoList`: the cache, the cursor and the persisted store. */
  datatype ListModel = ListModel(todos: seq<Todo>, cursor: Option<nat>, store: seq<Todo>)

  // ---------------------------------------------------------------------
  // The cursor
  // ---------------------------------------------------------------------

  /**
   * The cursor after `select_next_todo` on a cache of `len` items: it wraps
   * only from exactly `len - 1`; any other index, even one past the end,
   * is incremented.
   */
  function NextCursor(len: nat, c: Option<nat>): (r: Option<nat>)
    ensures len == 0 || c.None? ==> r == c
    ensures r.Some? <==> c.Some?
    ensures c.Some? && c.value < len ==> r.Some? && r.value < len
    ensures len > 0 && c.Some? && c.value != len - 1 ==> r == Some(c.value + 1)
  {
    if len == 0 then c
    else match c
      case None => None
      case Some(i) => if i == len - 1 then Some(0) else Some(i + 1)
  }

  /** The cursor after `select_prev_todo`: `0` wraps to `len - 1`, any other index steps back. */
  function PrevCursor(len: nat, c: Option<nat>): (r: Option<nat>)
    ensures len == 0 || c.None? ==> r == c
    ensures r.Some? <==> c.Some?
    ensures c.Some? && c.value < len ==> r.Some? && r.value < len
    ensures len > 0 && c == Some(0) ==> r == Some(len - 1)
    ensures len > 0 && c.Some? && c.value > 0 ==> r == Some(c.value - 1)
  {
    if len == 0 then c
    else match c
      case None => None
      case Some(i) => if i == 0 then Some(len - 1) else Some(i - 1)
  }

  /** On a valid index, moving forward is adding one modulo the length. */
  lemma NextIsSuccessor(len: nat, i: nat)
    requires i < len
    ensures NextCursor(len, Some(i)) == Some((i + 1) % len)
  {
  }

  /** On a valid index, moving back is subtracting one modulo the length. */
  lemma PrevIsPredecessor(len: nat, i: nat)
    requires i < len
    ensures PrevCursor(len, Some(i)) == Some((i - 1) % len)
  {
  }

  /** Next then previous returns to a valid starting index. */
  lemma NextThenPrev(len: nat, i: nat)
    requires i < len
    ensures PrevCursor(len, NextCursor(len, Some(i))) == Some(i)
  {
  }

  /** Previous then next returns to a valid starting index. */
  lemma PrevThenNext(len: nat, i: nat)
    requires i < len
    ensures NextCursor(len, PrevCursor(len, Some(i))) == Some(i)
  {
  }

  /** A navigation key: `select_next_todo` or `select_prev_todo`. */
  datatype Move = Next | Prev

  /** The cursor after a sequence of moves on a cache of fixed length. */
  function Navigate(len: nat, c: Option<nat>, moves: seq<Move>): Option<nat>
    decreases |moves|
  {
    if moves == [] then c
    else Navigate(len, if moves[0].Next? then NextCursor(len, c) else PrevCursor(len, c), moves[1..])
  }

  /** How far one move shifts the cursor: +1 forward, -1 back. */
  function Delta(m: Move): int {
    if m.Next? then 1 else -1
  }

  /** The number of forward moves minus the number of backward moves. */
  function Net(moves: seq<Move>): int
    decreases |moves|
  {
    if moves == [] then 0 else Delta(moves[0]) + Net(moves[1..])
  }

  /** Euclidean remainders are unique: a quotient and a remainder in range determine `x % n`. */
  lemma ModUnique(x: int, n: int, q: int, r: int)
    requires n > 0 && x == n * q + r && 0 <= r < n
    ensures x % n == r
  {
    var k := q - x / n;
    assert n * k == x % n - r;
    MulAtLeast(n, k);
    MulAtLeast(n, -k);
  }

  lemma MulAtLeast(n: int, k: int)
    requires n > 0
    ensures k >= 1 ==> n * k >= n
  {
  }

  lemma ModAddLeft(a: int, b: int, n: int)
    requires n > 0
    ensures (a % n + b) % n == (a + b) % n
  {
    var q, r := a / n, a % n;
    var q2, r2 := (r + b) / n, (r + b) % n;
    assert a + b == n * (q + q2) + r2 by {
      assert r + b == n * q2 + r2;
      assert n * q + n * q2 == n * (q + q2);
    }
    ModUnique(a + b, n, q + q2, r2);
  }

  /** One move from a valid index: the cursor shifted by the move, modulo the length. */
  lemma MoveIsShift(len: nat, i: nat, m: Move)
    requires i < len
    ensures (if m.Next? then NextCursor(len, Some(i)) else PrevCursor(len, Some(i))) == Some((i + Delta(m)) % len)
  {
  }

  /**
   * On a non-empty cache and a valid cursor, any sequence of moves keeps the
   * cursor valid, and lands on the start index shifted by the net number of
   * forward moves, modulo the length.
   */
  lemma {:induction false} NavigateIsOffset(len: nat, i: nat, moves: seq<Move>)
    requires i < len
    ensures Navigate(len, Some(i), moves) == Some((i + Net(moves)) % len)
    decreases |moves|
  {
    if moves == [] {
      ModUnique(i, len, 0, i);
    } else {
      var rest := moves[1..];
      var shifted := i + Delta(moves[0]);
      var j: nat := shifted % len;
      assert Navigate(len, Some(i), moves) == Navigate(len, Some(j), rest) by {
        MoveIsShift(len, i, moves[0]);
      }
      assert Navigate(len, Some(j), rest) == Some((j + Net(rest)) % len) by {
        NavigateIsOffset(len, j, rest);
      }
      assert (j + Net(rest)) % len == (i + Net(moves)) % len by {
        ModAddLeft(shifted, Net(rest), len);
      }
    }
  }

  /**
   * A present cursor stays present under any sequence of moves, and on a
   * non-empty cache a valid cursor stays valid.
   */
  lemma {:induction false} NavigateStaysValid(len: nat, c: Option<nat>, moves: seq<Move>)
    ensures Navigate(len, c, moves).Some? <==> c.Some?
    ensures c.Some? && c.value < len ==> Navigate(len, c, moves).value < len
    decreases |moves|
  {
    if moves != [] {
      var c' := if moves[0].Next? then NextCursor(len, c) else PrevCursor(len, c);
      NavigateStaysValid(len, c', moves[1..]);
    }
  }

  // ---------------------------------------------------------------------
  // Items
  // ---------------------------------------------------------------------

  const TitlePrefix: string := "Task "
  const DescriptionPrefix: string := "description "

  /** The item `add` appends as the `n`-th one: "Task n" / "description n". */
  function Placeholder(n: nat): Todo {
    Todo(TitlePrefix + Decimal.NatToString(n), DescriptionPrefix + Decimal.NatToString(n))
  }

  /** Reads the number back out of a placeholder title, if it is one. */
  function PlaceholderNumber(t: Todo): Option<nat> {
    var title := t.title;
    if |title| > |TitlePrefix| && title[..|TitlePrefix|] == TitlePrefix && Decimal.IsDigits(title[|TitlePrefix|..])
    then Some(Decimal.ParseDigits(title[|TitlePrefix|..]))
    else None
  }

  /** A placeholder's title gives back the number it was made from. */
  lemma PlaceholderRoundTrip(n: nat)
    ensures PlaceholderNumber(Placeholder(n)) == Some(n)
  {
    var title := Placeholder(n).title;
    assert title[..|TitlePrefix|] == TitlePrefix;
    assert title[|TitlePrefix|..] == Decimal.NatToString(n);
    Decimal.ParseNatToString(n);
  }

  /** Placeholders made from different numbers differ, title and description alike. */
  lemma PlaceholderInjective(n: nat, m: nat)
    ensures Placeholder(n).title == Placeholder(m).title ==> n == m
    ensures Placeholder(n).description == Placeholder(m).description ==> n == m
  {
    PlaceholderRoundTrip(n);
    PlaceholderRoundTrip(m);
    var p := |DescriptionPrefix|;
    assert Placeholder(n).description[p..] == Decimal.NatToString(n);
    assert Placeholder(m).description[p..] == Decimal.NatToString(m);
    if Placeholder(n).description == Placeholder(m).description {
      Decimal.NatToStringInjective(n, m);
    }
  }

  /** `Vec::remove`: the sequence without the element at `i`. */
  function RemoveAt(s: seq<Todo>, i: nat): (r: seq<Todo>)
    requires i < |s|
    ensures |r| == |s| - 1
    ensures forall j :: 0 <= j < i ==> r[j] == s[j]
    ensures forall j :: i <= j < |r| ==> r[j] == s[j + 1]
    ensures multiset(r) + multiset{s[i]} == multiset(s)
  {
    assert s == s[..i] + [s[i]] + s[i + 1..];
    s[..i] + s[i + 1..]
  }

  /** The store after `add`: its old contents and one placeholder numbered by the new length. */
  function Appended(s: seq<Todo>): (r: seq<Todo>)
    ensures |r| == |s| + 1 && r[..|s|] == s
    ensures PlaceholderNumber(r[|s|]) == Some(|r|)
  {
    PlaceholderRoundTrip(|s| + 1);
    s + [Placeholder(|s| + 1)]
  }

  /** Removing the item `add` just appended gives the store back. */
  lemma RemoveUndoesAppend(s: seq<Todo>)
    ensures RemoveAt(Appended(s), |s|) == s
  {
  }

  // ---------------------------------------------------------------------
  // The operations of `TodoList`, on values
  // ---------------------------------------------------------------------

  /** `TodoList::init`: the cache is loaded from the store and the cursor is on index 0. */
  function Initial(store: seq<Todo>): ListModel {
    ListModel(store, Some(0), store)
  }

  /** `x`, called by `render`: the cache is reloaded from the store. */
  function Reloaded(m: ListModel): ListModel {
    m.(todos := m.store)
  }

  function AfterSelectNext(m: ListModel): ListModel {
    m.(cursor := NextCursor(|m.todos|, m.cursor))
  }

  function AfterSelectPrev(m: ListModel): ListModel {
    m.(cursor := PrevCursor(|m.todos|, m.cursor))
  }

  /** `add` rewrites the store only: the cache and the cursor are left as they were. */
  function AfterAdd(m: ListModel): ListModel {
    m.(store := Appended(m.store))
  }

  /** What `remove(i)` needs so that its `Vec::remove` does not panic. */
  predicate CanRemove(m: ListModel, i: nat) {
    |m.todos| > 0 && m.cursor.Some? ==> i < |m.store|
  }

  /**
   * The cursor after `remove`: it steps back (wrapping) exactly when the
   * selection is the last index of the cache, whichever index is removed.
   */
  function RemovedCursor(len: nat, c: Option<nat>): (r: Option<nat>)
    ensures r.Some? <==> c.Some?
    ensures len > 0 && c.Some? && c.value < len ==> r.value < len
    ensures len > 0 && c.Some? && c.value + 1 != len ==> r == c
    ensures len > 0 && c == Some(len - 1) ==> r == Some(if len >= 2 then len - 2 else 0)
  {
    if len > 0 && c.Some? && c.value == len - 1 then PrevCursor(len, c) else c
  }

  /**
   * `remove(i)`: nothing when the cache is empty or there is no cursor;
   * otherwise item `i` of the store (read afresh, not the cache) is removed
   * and the cursor is adjusted. The cache itself is not touched.
   */
  function AfterRemove(m: ListModel, i: nat): ListModel
    requires CanRemove(m, i)
  {
    if |m.todos| == 0 || m.cursor.None? then m
    else m.(store := RemoveAt(m.store, i), cursor := RemovedCursor(|m.todos|, m.cursor))
  }

  /** `get_selected_item`: `Vec::get` at the cursor, which must be present (the `expect`). */
  function SelectedItem(m: ListModel): (r: Option<Todo>)
    requires m.cursor.Some?
    ensures r.Some? <==> m.cursor.value < |m.todos|
    ensures r.Some? ==> r.value == m.todos[m.cursor.value]
  {
    if m.cursor.value < |m.todos| then Some(m.todos[m.cursor.value]) else None
  }

  const NoTodoSelected: string := "No todo selected"

  /** The text of the description pane `render` builds. */
  function ShownDescription(m: ListModel): string
    requires m.cursor.Some?
  {
    match SelectedItem(m)
    case None => NoTodoSelected
    case Some(t) => t.description
  }

  // ---------------------------------------------------------------------
  // Properties of the operations
  // ---------------------------------------------------------------------

  /** The cursor is never cleared: every operation keeps a present cursor present. */
  lemma CursorNeverCleared(m: ListModel, i: nat)
    requires m.cursor.Some?
    requires CanRemove(m, i)
    ensures Initial(m.store).cursor.Some?
    ensures Reloaded(m).cursor.Some? && AfterAdd(m).cursor.Some?
    ensures AfterSelectNext(m).cursor.Some? && AfterSelectPrev(m).cursor.Some?
    ensures AfterRemove(m, i).cursor.Some?
  {
  }

  /** Navigation changes only the cursor, and each direction undoes the other. */
  lemma NavigationRoundTrip(m: ListModel)
    requires m.cursor.Some? && m.cursor.value < |m.todos|
    ensures AfterSelectPrev(AfterSelectNext(m)) == m
    ensures AfterSelectNext(AfterSelectPrev(m)) == m
  {
    NextThenPrev(|m.todos|, m.cursor.value);
    PrevThenNext(|m.todos|, m.cursor.value);
  }

  /** On an empty cache, navigation and removal change nothing. */
  lemma EmptyCacheNoOps(m: ListModel, i: nat)
    requires m.todos == []
    ensures AfterSelectNext(m) == m && AfterSelectPrev(m) == m
    ensures CanRemove(m, i) && AfterRemove(m, i) == m
  {
  }

  /** `add` grows the store by one placeholder numbered by the new length. */
  lemma AddGrowsStore(m: ListModel)
    ensures var r := AfterAdd(m);
      |r.store| == |m.store| + 1 && r.store[..|m.store|] == m.store
      && r.store[|m.store|] == Placeholder(|m.store| + 1)
      && r.todos == m.todos && r.cursor == m.cursor
  {
  }

  /**
   * `remove(i)` on a non-empty cache with a cursor shortens the store by
   * one, dropping exactly the element at `i`, and keeps a valid cursor valid.
   */
  lemma RemoveShrinksStore(m: ListModel, i: nat)
    requires |m.todos| > 0 && m.cursor.Some? && i < |m.store|
    ensures var r := AfterRemove(m, i);
      |r.store| == |m.store| - 1
      && multiset(r.store) + multiset{m.store[i]} == multiset(m.store)
      && r.todos == m.todos
      && (m.cursor.value < |m.todos| ==> r.cursor.value < |m.todos|)
  {
  }

  /**
   * When the selection is the last item and the cache matches the store,
   * removing it leaves the cursor on the new last item, or on 0 when the
   * store is now empty.
   */
  lemma RemoveLastSelected(m: ListModel)
    requires |m.todos| > 0 && m.todos == m.store && m.cursor == Some(|m.todos| - 1)
    ensures var r := AfterRemove(m, |m.todos| - 1);
      r.store == m.store[..|m.store| - 1]
      && r.cursor == Some(if |m.store| >= 2 then |m.store| - 2 else 0)
  {
  }

  /** Three items with the cursor on the last: removing it moves the cursor to 1. */
  lemma RemoveScenarioThree(a: Todo, b: Todo, c: Todo)
    ensures var m := Initial([a, b, c]).(cursor := Some(2));
      var r := AfterRemove(m, 2);
      r.store == [a, b] && r.cursor == Some(1)
  {
  }

  /** One item: removing it empties the store, and after the reload nothing is selected. */
  lemma RemoveScenarioOne(a: Todo)
    ensures var r := AfterRemove(Initial([a]), 0);
      r.store == [] && r.cursor == Some(0)
      && SelectedItem(Reloaded(r)) == None
      && ShownDescription(Reloaded(r)) == NoTodoSelected
  {
  }

  /** An empty store: `add` stores the single item "Task 1" / "description 1". */
  lemma AddScenarioEmpty()
    ensures AfterAdd(Initial([])).store == [Todo("Task 1", "description 1")]
  {
    assert Decimal.DigitChar(1) == '1';
    assert Decimal.NatToString(1) == "1";
    assert Placeholder(1) == Todo("Task 1", "description 1");
    assert Appended([]) == [Placeholder(1)];
  }

  // ---------------------------------------------------------------------
  // The list as an object
  // ---------------------------------------------------------------------

  class TodoList {
    /** The cached items that navigation and `render` work on. */
    var todos: seq<Todo>
    /** The `ListState` selection. */
    var cursor: Option<nat>
    /** The persisted collection behind `read_db` / `write_db`. */
    var store: seq<Todo>

    function Model(): ListModel
      reads this
    {
      ListModel(todos, cursor, store)
    }

    /** `TodoList::init`, reading the store that is already persisted. */
    constructor Init(persisted: seq<Todo>)
      ensures Model() == Initial(persisted)
    {
      todos := persisted;
      cursor := Some(0);
      store := persisted;
    }

    /** `read_db`: the whole persisted collection. */
    function ReadDb(): seq<Todo>
      reads this
    {
      store
    }

    /** `write_db`: replaces the persisted collection wholesale and hands it back. */
    method WriteDb(data: seq<Todo>) returns (r: seq<Todo>)
      modifies this`store
      ensures store == data && r == data
    {
      store := data;
      r := data;
    }

    /** `x`: reload the cache from the store. */
    method Reload()
      modifies this`todos
      ensures Model() == Reloaded(old(Model()))
    {
      todos := ReadDb();
    }

    /**
     * `render`, without the widgets: reload the cache, then give the titles
     * shown in the left pane and the description shown in the right pane.
     */
    method Render() returns (titles: seq<string>, description: string)
      requires cursor.Some?
      modifies this`todos
      ensures Model() == Reloaded(old(Model()))
      ensures |titles| == |store| && forall k :: 0 <= k < |titles| ==> titles[k] == store[k].title
      ensures description == ShownDescription(Model())
    {
      Reload();
      titles := [];
      var k := 0;
      while k < |todos|
        invariant 0 <= k <= |todos|
        invariant |titles| == k && forall j :: 0 <= j < k ==> titles[j] == todos[j].title
      {
        titles := titles + [todos[k].title];
        k := k + 1;
      }
      var selected := GetSelectedItem();
      match selected {
        case None => description := NoTodoSelected;
        case Some(t) => description := t.description;
      }
    }

    method SelectTodoAtIndex(index: nat)
      modifies this`cursor
      ensures cursor == Some(index)
    {
      cursor := Some(index);
    }

    method SelectPrevTodo()
      modifies this`cursor
      ensures Model() == AfterSelectPrev(old(Model()))
    {
      var todosLength := |todos|;
      if todosLength == 0 {
        return;
      }
      if cursor.Some? {
        var currentIndex := cursor.value;
        if currentIndex == 0 {
          SelectTodoAtIndex(todosLength - 1);
        } else {
          SelectTodoAtIndex(currentIndex - 1);
        }
      }
    }

    method SelectNextTodo()
      modifies this`cursor
      ensures Model() == AfterSelectNext(old(Model()))
    {
      var todosLength := |todos|;
      if todosLength == 0 {
        return;
      }
      if cursor.Some? {
        var currentIndex := cursor.value;
        if currentIndex == todosLength - 1 {
          SelectTodoAtIndex(0);
        } else {
          SelectTodoAtIndex(currentIndex + 1);
        }
      }
    }

    /** `add` takes `&self`: only the persisted store changes. */
    method Add()
      modifies this`store
      ensures Model() == AfterAdd(old(Model()))
    {
      var parsed := ReadDb();
      var tasksLength := |parsed| + 1;
      var newTodo := Placeholder(tasksLength);
      parsed := parsed + [newTodo];
      var _ := WriteDb(parsed);
    }

    method Remove(todoIndex: nat)
      requires CanRemove(Model(), todoIndex)
      modifies this`store, this`cursor
      ensures Model() == AfterRemove(old(Model()), todoIndex)
    {
      var todosLength := |todos|;
      if todosLength == 0 {
        return;
      }
      if cursor.Some? {
        var selected := cursor.value;
        var parsed := ReadDb();
        parsed := RemoveAt(parsed, todoIndex);
        if selected == todosLength - 1 {
          SelectPrevTodo();
        }
        var _ := WriteDb(parsed);
      }
    }

    /** `get_selected_item`, whose `expect` demands a cursor. */
    function GetSelectedItem(): (r: Option<Todo>)
      reads this
      requires cursor.Some?
      ensures r == SelectedItem(Model())
    {
      if cursor.value < |todos| then Some(todos[cursor.value]) else None
    }
  }
}
