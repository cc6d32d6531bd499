/**
 * The application state and the key dispatch of the event loop: the input
 * mode decides which keys are interpreted and how.  `Step` is the dispatch
 * of one key press as a function on values, with the source's panics made
 * explicit; `AppState.HandleKey` performs the same dispatch in place and is
 * tied to `Step` by its postcondition.
 */
module App {
  import opened Wrappers
  import opened StatefulLists

  /** The input modes.  Only `Normal` and `Update` do anything yet. */
  datatype Mode = Add | Delete | Update | Normal

  /**
   * The key codes the dispatch tells apart; `Other` stands for every other
   * key code (Right, Tab, Esc, function keys and so on), none of which is
   * interpreted in any mode.
   */
  datatype Key = Char(c: char) | Backspace | Enter | Left | Up | Down | Other

  /** The observable state of the application: the list and the mode. */
  datatype Snapshot = Snapshot(items: seq<Item>, selected: Option<nat>, mode: Mode)

  /** The result of dispatching one key press. */
  datatype Outcome =
    | Continue(state: Snapshot)  // the loop goes on with this state
    | Quit(state: Snapshot)      // the loop returns; the state is the one it ends with
    | Panic                      // the dispatch aborts the program

  /** The cursor, when present, designates an item. */
  predicate WellFormed(s: Snapshot) {
    s.selected.Some? ==> s.selected.value < |s.items|
  }

  /** The state `AppState::new` builds: the given items, no cursor, `Normal` mode. */
  function Initial(items: seq<Item>): (s: Snapshot)
    ensures s.items == items && s.selected == None && s.mode == Normal
    ensures WellFormed(s)
  {
    Snapshot(items, None, Normal)
  }

  /** The three entries the program seeds its list with. */
  const Seed: seq<Item> := ["Be a gangster", "Finish a project", "Be a coder"]

  /**
   * Dispatches one key press.  In `Update` mode a character is appended to
   * the selected item, which panics when no item is under the cursor:
   * nothing selected (the cursor is unwrapped), or a cursor past the end of
   * the list (the item is indexed); in `Normal` mode on an empty list, Down with any cursor and
   * Up with the cursor on 0 panic (the cursor arithmetic computes `len - 1`
   * on an unsigned integer).
   */
  function Step(s: Snapshot, key: Key): (r: Outcome)
    ensures r.Quit? <==> s.mode == Normal && key == Char('q')
    ensures r.Quit? ==> r.state == s
    ensures r.Panic? <==>
              (s.mode == Update && key.Char? && (s.selected.None? || s.selected.value >= |s.items|))
              || (s.mode == Normal && |s.items| == 0 &&
                  ((key == Down && s.selected.Some?) || (key == Up && s.selected == Some(0))))
    ensures WellFormed(s) ==> (r.Panic? <==> s.mode == Update && key.Char? && s.selected.None?)
    ensures !r.Panic? ==> |r.state.items| == |s.items|
    ensures !r.Panic? ==> (r.state.mode == Delete <==> s.mode == Delete)
    ensures s.mode == Add || s.mode == Delete ==> r == Continue(s)
    ensures WellFormed(s) && |s.items| > 0 && !r.Panic? ==> WellFormed(r.state)
  {
    match s.mode
    case Update =>
      (match key
       case Char(c) =>
         (match s.selected
          case None => Panic
          case Some(i) =>
            if i < |s.items| then Continue(s.(items := s.items[i := s.items[i] + [c]]))
            else Panic)
       case Backspace => Continue(s)
       case Enter => Continue(s.(mode := Normal))
       case _ => Continue(s))
    case Add => Continue(s)
    case Normal =>
      if key == Char('q') then Quit(s)
      else if key == Left then Continue(s.(selected := None))
      else if key == Down then
        if s.selected.Some? && |s.items| == 0 then Panic
        else Continue(s.(selected := Some(NextIndex(s.selected, |s.items|))))
      else if key == Up then
        if s.selected == Some(0) && |s.items| == 0 then Panic
        else Continue(s.(selected := Some(PreviousIndex(s.selected, |s.items|))))
      else if key == Char('a') then Continue(s.(mode := Add))
      else if key == Char('e') then Continue(s.(mode := Update))
      else Continue(s)
    case Delete => Continue(s)
  }

  /**
   * The states the event loop goes through when it is fed `keys` one after
   * the other: it stops at the first key that quits or panics, and the keys
   * after it are never read.
   */
  function Run(s: Snapshot, keys: seq<Key>): (r: Outcome)
    ensures !r.Panic? ==> |r.state.items| == |s.items|
    ensures r.Quit? ==> r.state.mode == Normal
    ensures keys == [] ==> r == Continue(s)
    decreases |keys|
  {
    if keys == [] then Continue(s)
    else
      match Step(s, keys[0])
      case Continue(t) => Run(t, keys[1..])
      case Quit(t) => Quit(t)
      case Panic => Panic
  }

  class AppState {
    const list: StatefulList
    var mode: Mode

    ghost predicate Valid()
      reads this, list
    {
      list.Valid()
    }

    /** The state as a value. */
    ghost function Snap(): (s: Snapshot)
      reads this, list
      ensures Valid() <==> WellFormed(s)
    {
      Snapshot(list.items, list.selected, mode)
    }

    /** `AppState::new`: the given items, nothing selected, `Normal` mode. */
    constructor New(items: seq<Item>)
      ensures Valid() && fresh(list)
      ensures list.items == items && list.selected == None && mode == Normal
    {
      list := new StatefulList.WithItems(items);
      mode := Normal;
    }

    /**
     * Handles one key press and reports whether the loop is to quit.  The
     * caller must not type a character in `Update` mode with nothing
     * selected (the source panics there), and the list must be non-empty
     * when Up or Down moves the cursor.
     */
    method HandleKey(key: Key) returns (quit: bool)
      requires Valid()
      requires mode == Update && key.Char? ==> list.selected.Some?
      requires mode == Normal && (key == Up || key == Down) ==> |list.items| > 0
      modifies this, list
      ensures Valid()
      ensures Step(old(Snap()), key) == if quit then Quit(Snap()) else Continue(Snap())
    {
      quit := false;
      match mode {
        case Update =>
          match key {
            case Char(c) =>
              var i := list.selected.value;
              list.items := list.items[i := list.items[i] + [c]];
            case Backspace =>
            case Enter =>
              mode := Normal;
            case _ =>
          }
        case Add =>
        case Normal =>
          if key == Char('q') {
            quit := true;
          } else if key == Left {
            list.Unselect();
          } else if key == Down {
            list.Next();
          } else if key == Up {
            list.Previous();
          } else if key == Char('a') {
            mode := Add;
          } else if key == Char('e') {
            mode := Update;
          }
        case Delete =>
      }
    }
  }

  /**
   * The editing session from the program's seed list: select the second
   * entry with two Down presses, enter `Update` mode, type `!` and leave
   * with Enter.
   */
  method EditSeedSession() returns (app: AppState)
    ensures fresh(app) && fresh(app.list)
    ensures app.list.items == [Seed[0], "Finish a project!", Seed[2]]
    ensures app.list.selected == Some(1) && app.mode == Normal
  {
    app := new AppState.New(Seed);
    var quit := app.HandleKey(Down);
    quit := app.HandleKey(Down);
    quit := app.HandleKey(Char('e'));
    quit := app.HandleKey(Char('!'));
    assert Seed[1] + ['!'] == "Finish a project!";
    quit := app.HandleKey(Enter);
  }
}
