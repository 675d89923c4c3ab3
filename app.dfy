/**
 * The controller loop of src/main.rs: draw the list, wait for the next
 * event, dispatch it to the list or quit. The input thread, its channel
 * and the terminal are not modelled; the events the loop receives are
 * given as a sequence.
 */
module App {
  import opened Todos

  /** crossterm's `KeyCode`. */
  datatype KeyCode =
    | Backspace | Enter | Left | Right | Up | Down | Home | End | PageUp | PageDown
    | Tab | BackTab | Delete | Insert | F(n: nat) | Char(c: char) | Null | Esc

  /** crossterm's `KeyModifiers` bit set. */
  datatype KeyModifiers = KeyModifiers(shift: bool, control: bool, alt: bool)

  /** `KeyModifiers::NONE`: no modifier held. */
  const NONE := KeyModifiers(false, false, false)
  /** `KeyModifiers::CONTROL`: exactly Control held. */
  const CONTROL := KeyModifiers(false, true, false)

  datatype KeyEvent = KeyEvent(modifiers: KeyModifiers, code: KeyCode)

  /** The loop's `Event`: a key from the input thread, or a tick. */
  datatype Event = Input(key: KeyEvent) | Tick

  /** What the loop does with an event. */
  datatype Action = Quit | AddTodo | RemoveSelected | SelectNext | SelectPrev | Ignore

  /**
   * The `match` on `(modifiers, code)`. Modifiers must match exactly, so a
   * key with Shift or Alt held (other than what is listed) is ignored.
   */
  function Dispatch(e: Event): (a: Action)
    ensures e.Tick? ==> a == Ignore
    ensures a == Quit <==> e == Input(KeyEvent(CONTROL, Char('c'))) || e == Input(KeyEvent(NONE, Char('q')))
    ensures a == AddTodo <==> e == Input(KeyEvent(NONE, Char('a')))
    ensures a == RemoveSelected <==> e == Input(KeyEvent(NONE, Char('d')))
    ensures a == SelectNext <==> e == Input(KeyEvent(NONE, Down)) || e == Input(KeyEvent(NONE, Char('j')))
    ensures a == SelectPrev <==> e == Input(KeyEvent(NONE, Up)) || e == Input(KeyEvent(NONE, Char('k')))
    ensures e.Input? && e.key.modifiers != NONE && e.key.modifiers != CONTROL ==> a == Ignore
  {
    match e
    case Tick => Ignore
    case Input(KeyEvent(modifiers, code)) =>
      if modifiers == CONTROL then
        (if code == Char('c') then Quit else Ignore)
      else if modifiers == NONE then
        match code
        case Char('q') => Quit
        case Char('a') => AddTodo
        case Char('d') => RemoveSelected
        case Down => SelectNext
        case Char('j') => SelectNext
        case Up => SelectPrev
        case Char('k') => SelectPrev
        case _ => Ignore
      else Ignore
  }

  /** The loop's state: the list, `popup.show_popup`, and whether the loop has broken out. */
  datatype AppState = AppState(list: ListModel, showPopup: bool, quit: bool)

  /**
   * What holds of the list each time the loop is about to draw: there is a
   * cursor, and it is a valid index into the store, or 0 on an empty store.
   */
  predicate CursorInvariant(m: ListModel) {
    m.cursor.Some? && (m.cursor.value < |m.store| || (m.store == [] && m.cursor.value == 0))
  }

  /** The state before the first pass: `Popup::new()` and `TodoList::init()`. */
  function Start(persisted: seq<Todo>): (s: AppState)
    ensures CursorInvariant(s.list) && !s.showPopup && !s.quit
    ensures s.list.todos == persisted && s.list.store == persisted
  {
    AppState(Initial(persisted), false, false)
  }

  /** The effect of an action once the frame has been drawn. */
  function Perform(s: AppState, a: Action): AppState
    requires a == RemoveSelected ==> s.list.cursor.Some? && CanRemove(s.list, s.list.cursor.value)
  {
    match a
    case Quit => s.(quit := true)
    case AddTodo => s.(showPopup := true, list := AfterAdd(s.list))
    case RemoveSelected => s.(list := AfterRemove(s.list, s.list.cursor.value))
    case SelectNext => s.(list := AfterSelectNext(s.list))
    case SelectPrev => s.(list := AfterSelectPrev(s.list))
    case Ignore => s
  }

  /**
   * After the draw has reloaded the cache, the `unwrap` of the selection
   * and the `Vec::remove` inside `remove` cannot panic.
   */
  lemma RemoveIsSafe(m: ListModel)
    requires CursorInvariant(m)
    ensures Reloaded(m).cursor.Some?
    ensures CanRemove(Reloaded(m), Reloaded(m).cursor.value)
  {
  }

  /**
   * One pass of the loop: draw (which reloads the cache from the store),
   * receive `e`, act on it. The cursor invariant is kept and the popup,
   * once shown, stays shown.
   */
  function NextState(s: AppState, e: Event): (r: AppState)
    requires CursorInvariant(s.list)
    ensures CursorInvariant(r.list)
    ensures s.showPopup ==> r.showPopup
    ensures r.list.todos == s.list.store
    ensures r.quit <==> s.quit || Dispatch(e) == Quit
  {
    RemoveIsSafe(s.list);
    Perform(s.(list := Reloaded(s.list)), Dispatch(e))
  }

  /** What each kind of event does to the list and the popup in one pass. */
  lemma NextStateEffects(s: AppState, e: Event)
    requires CursorInvariant(s.list)
    ensures var r := NextState(s, e); var m := s.list;
      && (Dispatch(e) in {Quit, Ignore} ==>
            r.list == Reloaded(m) && r.showPopup == s.showPopup)
      && (Dispatch(e) == AddTodo ==>
            r.showPopup && r.list.cursor == m.cursor && r.list.store == Appended(m.store))
      && (Dispatch(e) == RemoveSelected && m.store != [] ==>
            r.showPopup == s.showPopup
            && r.list.store == RemoveAt(m.store, m.cursor.value)
            && r.list.cursor == RemovedCursor(|m.store|, m.cursor))
      && (Dispatch(e) == RemoveSelected && m.store == [] ==>
            r.list == Reloaded(m) && r.showPopup == s.showPopup)
      && (Dispatch(e) == SelectNext ==>
            r.showPopup == s.showPopup && r.list.store == m.store && r.list.cursor == NextCursor(|m.store|, m.cursor))
      && (Dispatch(e) == SelectPrev ==>
            r.showPopup == s.showPopup && r.list.store == m.store && r.list.cursor == PrevCursor(|m.store|, m.cursor))
  {
  }

  /**
   * The loop over a stream of events: one pass per event until a quit key
   * breaks out; events after it are never read.
   */
  function Run(s: AppState, events: seq<Event>): (r: AppState)
    requires CursorInvariant(s.list)
    ensures CursorInvariant(r.list)
    ensures s.showPopup ==> r.showPopup
    ensures s.quit ==> r == s
    ensures !s.quit ==> (r.quit <==> exists k :: 0 <= k < |events| && Dispatch(events[k]) == Quit)
    ensures r.showPopup ==> s.showPopup || exists k :: 0 <= k < |events| && Dispatch(events[k]) == AddTodo
    decreases |events|
  {
    if events == [] || s.quit then s
    else
      var r := Run(NextState(s, events[0]), events[1..]);
      assert forall k :: 0 <= k < |events| - 1 ==> events[1..][k] == events[k + 1];
      r
  }

  /** The popup is shown after a run exactly when it was shown before or an `a` was handled. */
  lemma {:induction false} PopupShownByAdd(s: AppState, events: seq<Event>)
    requires CursorInvariant(s.list) && !s.quit
    requires forall k :: 0 <= k < |events| ==> Dispatch(events[k]) != Quit
    ensures Run(s, events).showPopup <==> s.showPopup || exists k :: 0 <= k < |events| && Dispatch(events[k]) == AddTodo
    decreases |events|
  {
    if events != [] {
      var s' := NextState(s, events[0]);
      assert forall k :: 0 <= k < |events| - 1 ==> events[1..][k] == events[k + 1];
      PopupShownByAdd(s', events[1..]);
    }
  }

  // ---------------------------------------------------------------------
  // The loop, on a `TodoList` object
  // ---------------------------------------------------------------------

  /** One pass of the `loop`: draw, then dispatch `e`. */
  method Step(list: TodoList, showPopup: bool, e: Event) returns (showPopupAfter: bool, quit: bool)
    requires CursorInvariant(list.Model())
    modifies list
    ensures AppState(list.Model(), showPopupAfter, quit) == NextState(AppState(old(list.Model()), showPopup, false), e)
  {
    var _, _ := list.Render();
    showPopupAfter, quit := showPopup, false;
    match Dispatch(e) {
      case Quit =>
        quit := true;
      case AddTodo =>
        showPopupAfter := true;
        list.Add();
      case RemoveSelected =>
        list.Remove(list.cursor.value);
      case SelectNext =>
        list.SelectNextTodo();
      case SelectPrev =>
        list.SelectPrevTodo();
      case Ignore =>
    }
  }

  /**
   * `main` from `TodoList::init` on: the loop consumes `events` in order
   * and stops at the first quit key, or when the events run out.
   */
  method MainLoop(persisted: seq<Todo>, events: seq<Event>) returns (list: TodoList, showPopup: bool, quit: bool)
    ensures AppState(list.Model(), showPopup, quit) == Run(Start(persisted), events)
  {
    showPopup := false;
    list := new TodoList.Init(persisted);
    quit := false;
    var k := 0;
    while k < |events| && !quit
      invariant 0 <= k <= |events|
      invariant CursorInvariant(list.Model())
      invariant Run(AppState(list.Model(), showPopup, quit), events[k..]) == Run(Start(persisted), events)
      decreases |events| - k
    {
      assert events[k..][1..] == events[k + 1..];
      showPopup, quit := Step(list, showPopup, events[k]);
      k := k + 1;
    }
  }
}
