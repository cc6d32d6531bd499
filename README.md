# To-do list terminal application: cursor and key dispatch

This project models the input handling of a small terminal to-do list
written in Rust. The screen shows a list of text items. The user moves a
cursor over it and edits the selected item in place. Two parts are modelled:

- **The selectable list** (`StatefulList`). It holds the items and an
  optional cursor. `next` and `previous` move the cursor with wrap-around,
  and `unselect` clears it. In Dafny this is the class
  `StatefulLists.StatefulList`, with fields `items: seq<string>` and
  `selected: Option<nat>`. The index arithmetic of `next` and `previous` is
  given by the pure functions `NextIndex` and `PreviousIndex`.
- **The mode state machine** inside the event loop. The modes are `Normal`,
  `Add`, `Update` and `Delete`, and the current mode decides how a key is
  treated. `App.Step` dispatches one key press as a function on a value
  `Snapshot` (items, cursor, mode). Its result is `Continue`, `Quit` or
  `Panic`. `App.AppState.HandleKey` performs the same dispatch in place on
  the class `App.AppState`, and its postcondition ties the new state and the
  quit flag to `Step`. `App.Run` feeds a sequence of keys to `Step` one after
  the other and stops at the first quit or panic, as the event loop does. It
  is used to state properties of whole key sequences.

The source can abort at two points, and `Step` gives both as `Panic`:

- Typing a character in `Update` mode with no item under the cursor
  (`src/main.rs:108`). Either nothing is selected, and the cursor is
  unwrapped, or the cursor is past the end of the list, and the item is
  indexed. Pressing `e` in `Normal` mode enters `Update` mode even with no
  selection, so the first case is reachable from the start
  (`AppProperties.TypingWithoutSelectionPanics`). On an empty list, Down
  selects 0, so the second case is reachable too
  (`AppProperties.TypingPastEmptyListPanics`).
- Computing `len - 1` on an empty list, where it underflows on an unsigned
  integer. `next` computes it whenever there is a cursor
  (`src/main.rs:37`), so Down with any cursor on an empty list panics.
  `previous` computes it only when the cursor is on 0 (`src/main.rs:52-53`),
  so only Up from 0 panics; Up from any other cursor steps back without
  reading the length (`AppProperties.UpOnEmptyList`). The model follows a
  debug build, where that subtraction panics.

Three behaviours of the code are easy to overlook:

- `e` enters `Update` mode whether or not an item is selected.
- `next` and `previous` select index 0 when nothing is selected, even on an
  empty list, where index 0 does not exist.
- Neither operation checks the list length before that first selection.

## Model

| member | source | states |
|---|---|---|
| `StatefulLists.NextIndex` | src/main.rs:34-47 | with no cursor it selects 0; from an index `i` of the list it selects `(i + 1) mod len`; on a non-empty list the result is always an index of the list; a present cursor needs a non-empty list (the `len - 1` underflow) |
| `StatefulLists.PreviousIndex` | src/main.rs:49-62 | with no cursor it selects 0; from an index `i` of the list it selects `(i - 1 + len) mod len`; on a non-empty list with the cursor in range the result is an index of the list; only a cursor on 0 needs a non-empty list (the `len - 1` of the wrap) |
| `StatefulLists.PreviousUndoesNext` | src/main.rs:34-62 | from any index, `previous` after `next` brings the cursor back |
| `StatefulLists.NextUndoesPrevious` | src/main.rs:34-62 | from any index, `next` after `previous` brings the cursor back |
| `StatefulLists.StatefulList.WithItems` | src/main.rs:27-32 | the list holds exactly the given items and nothing is selected |
| `StatefulLists.StatefulList.Next` | src/main.rs:34-47 | the items are unchanged and the cursor stays on an item; it moves from none to 0 and from `i` to `(i + 1) mod len` |
| `StatefulLists.StatefulList.Previous` | src/main.rs:49-62 | the items are unchanged and the cursor stays on an item; it moves from none to 0 and from `i` to `(i - 1 + len) mod len` |
| `StatefulLists.StatefulList.Unselect` | src/main.rs:64-66 | the items are unchanged and nothing is selected; with nothing selected already the list is left unchanged (idempotent) |
| `App.Initial` | src/main.rs:83-88 | the state `AppState::new` builds: exactly the given items, no cursor, `Normal` mode, and it is well-formed |
| `App.Step` | src/main.rs:105-125 | quits exactly on `q` in `Normal` mode, and then changes nothing; panics exactly when a character is typed in `Update` mode without a cursor on an item, or on an empty list in `Normal` mode for Down with a cursor or Up with the cursor on 0; on a well-formed state it panics exactly when a character is typed in `Update` mode with no selection; never changes the number of items; enters or leaves `Delete` mode never; `Add` and `Delete` ignore every key; on a non-empty list it keeps the cursor on an item |
| `App.Run` | src/main.rs:97-128 | the loop fed a key sequence stops at the first quit or panic; no key sequence changes the number of items; it only quits in `Normal` mode; the empty key sequence leaves the state as it is |
| `App.AppState.New` | src/main.rs:83-88 | the list holds the given items with nothing selected, and the mode is `Normal` |
| `App.AppState.HandleKey` | src/main.rs:105-125 | the new list, cursor and mode and the quit flag are those `Step` gives for the old state; the cursor stays on an item; callable exactly where the source does not panic (and, for Up and Down, on a non-empty list) |
| `App.EditSeedSession` | src/main.rs:215-219 | on the seed list, Down, Down, `e`, `!`, Enter on the object leaves `"Finish a project!"` as the second item, the other two unchanged, the cursor on 1 and the mode `Normal` |
| `AppProperties.NormalModeKeys` | src/main.rs:115-123 | on every `Normal` state, `q` quits, `a` and `e` switch to `Add` and `Update` and change nothing else, Left clears the cursor, Down and Up advance and retreat it wherever they do not underflow, and every other key changes nothing |
| `AppProperties.UpdateModeTyping` | src/main.rs:106-109 | in `Update` mode with a selection, any character, `q`, `a` and `e` included, is appended to the selected item only; the other items, the cursor and the mode are unchanged and the loop does not quit |
| `AppProperties.UpdateModeControlKeys` | src/main.rs:110-113 | in `Update` mode Enter returns to `Normal` and leaves the items alone; Backspace and the other keys change nothing |
| `AppProperties.RunAppend` | src/main.rs:97-128 | feeding two key sequences one after the other is feeding their concatenation; after a quit or a panic no further key is read |
| `AppProperties.PlaceholderModesAbsorb` | src/main.rs:105-125 | from `Add` or `Delete` mode every key sequence leaves the whole state unchanged |
| `AppProperties.DeleteUnreachable` | src/main.rs:105-125 | from any other mode, no key sequence reaches `Delete` mode |
| `AppProperties.RunKeepsWellFormed` | src/main.rs:105-125 | from a well-formed state on a non-empty list, every key sequence keeps the number of items and keeps the cursor on an item; if it panics, it got there by typing a character in `Update` mode with no selection |
| `AppProperties.DownPresses` | src/main.rs:34-47 | in `Normal` mode `k` Down presses move the cursor from `i` to `(i + k) mod len` |
| `AppProperties.UpPresses` | src/main.rs:49-62 | in `Normal` mode `k` Up presses move the cursor from `i` to `(i - k) mod len` |
| `AppProperties.FullCycleDown` | src/main.rs:34-47 | one Down press per item brings the state back to where it was |
| `AppProperties.FullCycleUp` | src/main.rs:49-62 | one Up press per item brings the state back to where it was |
| `AppProperties.SeedEditRoundTrip` | src/main.rs:215-219 | on the seed list, Down, Down, `e`, `!`, Enter yields `"Finish a project!"` as item 1, items 0 and 2 unchanged, the cursor on 1 and mode `Normal` |
| `AppProperties.UpOnEmptyList` | src/main.rs:34-62 | on an empty list Up from a cursor `j + 1` yields `j`, Up from 0 panics, and Down with any cursor panics |
| `AppProperties.TypingPastEmptyListPanics` | src/main.rs:108 | from an empty list, Down selects 0 and `e` enters `Update` mode, and any character typed next makes the dispatch panic on the index |
| `AppProperties.TypingWithoutSelectionPanics` | src/main.rs:108 | from the initial seed state, `e` enters `Update` mode with no selection, and any character typed next makes the dispatch panic |

## Left out

- StatefulLists.StatefulList.Next: requires a non-empty list so that the cursor stays on an item. The source, with nothing selected, selects 0 on an empty list too. `StatefulLists.NextIndex` and `App.Step` model that case.
- StatefulLists.StatefulList.Previous: requires a non-empty list and a cursor on an item, for the same reason. On an empty list the source selects 0 from no cursor, panics from 0 and steps back from any other cursor; `StatefulLists.PreviousIndex` and `App.Step` model these cases.
- App.AppState.HandleKey: Up and Down require a non-empty list, because they call `Next` and `Previous`. On an empty list, `Step` gives the source's behaviour.
- Integer width: the model does not cover release builds, where `len - 1` wraps on an empty list instead of panicking. The cursor index is otherwise not near the `usize` bound.
- The list widget's scroll offset: this part of the list state is used only for rendering.
- The event loop's timing: the tick interval, `poll` with a timeout, `event::read`, and non-key events (mouse, resize). These are wall-clock and blocking terminal I/O. `App.Run` takes the key sequence as a parameter.
- Key modifiers: the dispatch reads only the key code, so `Key` has no modifiers. Key codes that no mode interprets are collapsed into `Other`.
- The comparison `app.mode == Mode::Normal` after the dispatch (`src/main.rs:126`): its body is empty.
- Rendering (`ui`): the layout, widgets and caret placement of the `tui` crate are foreign library calls.
- `get_item_position`: the function is an empty stub.
- Terminal setup and teardown in `main`, and the propagation of I/O errors: these are crossterm I/O.
- Borrowed `&mut String` items and their lifetimes: the model owns its items as values, and the aliasing has no observable behaviour here.
