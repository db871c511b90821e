# console_menu navigation engine in Dafny

This project models the navigation engine of `console_menu.py` with the
curses drawing taken out. The engine has two parts:

- **The selection loop** (`Menu.run`). A cursor starts at entry 0 of a menu
  with `n` options. Entry `n` is the synthetic last line: "Exit" at the root,
  "Return to <parent title> menu" below it. Digit keys jump straight to an
  entry. Key code 258 (down) and 259 (up) move the cursor and wrap around.
  Enter returns the entry under the cursor. In a menu of at most eight
  options every other key is ignored; in a menu of nine or more options the
  digit test itself raises (see below).
- **The dispatch loop** (`Menu.process`). It acts on each confirmed index.
  The synthetic entry or an `exitmenu` option leaves the current level. A
  `function` option calls `funcs[fname]` and stays in the same menu. A `menu`
  option recurses into the child, with the current menu as its parent. An
  option of any other type does nothing, and the loop repeats.

Files:

- `menu_data.dfy`: module `MenuData`. It holds the menu tree
  (`MenuNode`, `MenuOption` with `Function`, `Submenu`, `ExitMenu` and
  `Unknown`), the Python exceptions the code can raise (`Fault`), and the
  rule for the last-entry label.
- `selection.dfy`: module `Selection`. `Step` is one key press. `Walk` and
  `RunFrom` are the specification functions for a sequence of keys. `Run`
  is the loop itself, a method proved equal to `RunFrom` from cursor 0.
- `navigation.dfy`: module `Navigation`. `Dispatch` acts on one confirmed
  index. `Session` is a whole interaction driven by the raw key stream.
  `Replay` is the same loop driven directly by confirmed indices. `Process`
  is the dispatch loop as a method over an explicit stack of open menus.

The recursion of `process` is an explicit stack here. The bottom of the stack
is the root, and each level is a submenu option of the level below it
(`IsChain`). `SessionNests` shows that the explicit stack acts like the
call stack. The levels below the running one are untouched. When a child
level is left, its parent resumes with the keys the child did not read.

Callbacks are opaque. The registry is the set of registered names, and a
session records the names it calls in order. Key input is a finite
sequence of key codes. A session that runs out of keys is `Blocked`,
because `getch` would still be waiting.

Behaviour of the code that the model keeps:

- The cursor is reset to 0 every time `run` is called
  (`console_menu.py:38`). So after a callback runs, or after a submenu
  returns, the highlight is back on the first entry. It is not preserved.
  `EnterConfirmsFirstEntry` and `Scenarios` pin this down.
- The digit test evaluates `ord(str(optioncount + 1))`
  (`console_menu.py:69`). With nine or more options that string has two
  characters, and `ord` raises `TypeError`. Python's `and` short-circuits,
  so only key codes of at least `ord('1')` reach it. In such a menu every
  key with a code of at least `ord('1')` raises: the digits 1 to 9, the
  letters and the arrow keys. Enter, `0` and the other keys below `'1'` do
  not raise and leave the cursor where it is. So only the first option can
  ever be confirmed (`LargeMenuConfirmsOnlyFirst`).
- A callback name missing from `funcs` raises `KeyError`
  (`console_menu.py:95`).
- `exitmenu` leaves one level only, the same as the synthetic entry.
- An option whose type is none of the three known ones is ignored, and the
  menu is shown again.

## Model

| member | source | states |
|---|---|---|
| `MenuData.LastOptionLabel` | console_menu.py:31-34 | the last entry reads "Exit" exactly when there is no parent |
| `MenuData.LabelNamesParent` | console_menu.py:31-34 | the label names the parent: reading it back gives the parent's title, and nothing at the root |
| `Selection.OrdOfCount` | console_menu.py:69 | `ord(str(n+1))` is defined exactly when `n + 1 <= 9`, and is then a digit code |
| `Selection.Step` | console_menu.py:68-76 | one key keeps the cursor within `0..n`; it raises TypeError exactly for a key code of at least `ord('1')` in a menu of nine or more options |
| `Selection.DownArrow` | console_menu.py:71-73 | down moves one entry further and wraps from `n` to 0; it raises TypeError when `n >= 9` |
| `Selection.UpArrow` | console_menu.py:74-76 | up moves one entry back and wraps from 0 to `n`; it raises TypeError when `n >= 9` |
| `Selection.ArrowsUndoEachOther` | console_menu.py:71-76 | up then down, and down then up, return to the same entry |
| `Selection.DigitJumps` | console_menu.py:69-70 | digit `k` with `1 <= k <= n+1 <= 9` selects entry `k-1` from any cursor |
| `Selection.OtherKeysIgnored` | console_menu.py:66-76 | any key other than an in-range digit or an arrow, Enter included, leaves the cursor unchanged (or raises when it reaches the failing digit test) |
| `Selection.Walk` | console_menu.py:66-76 | for any sequence of keys the cursor stays within `0..n` |
| `Selection.WalkFailsIff` | console_menu.py:69 | a key sequence raises exactly when `n >= 9` and some key code is at least `ord('1')`, and the fault is TypeError |
| `Selection.ArrowIsModular` | console_menu.py:71-76 | one arrow press is `pos ± 1` modulo `n + 1` |
| `Selection.ArrowsAreModular` | console_menu.py:71-76 | arrow keys alone put the cursor at start + downs − ups, modulo `n + 1` |
| `Selection.RunFrom` | console_menu.py:45-79 | a confirmed entry lies in `0..n` and consumes at least one key; a waiting cursor lies in `0..n`; a crash is a TypeError in a menu of nine or more options |
| `Selection.RunConfirmsAtFirstEnter` | console_menu.py:45-79 | the loop stops at the first Enter and returns the cursor that the keys before it lead to; the keys after it stay unread |
| `Selection.RunWaitsWithoutEnter` | console_menu.py:45 | with no Enter among the keys, the loop is still waiting at the cursor they lead to, or has raised as they do |
| `Selection.LargeMenuConfirmsOnlyFirst` | console_menu.py:69-70 | in a menu of nine or more options, only entry 0 can be confirmed |
| `Selection.Run` | console_menu.py:26-79 | the loop starts at cursor 0 and returns what `RunFrom` does from 0; a returned index is within `0..n` |
| `Navigation.Dispatch` | console_menu.py:85-106 | acting on an index fails exactly for an index past the synthetic entry, or for a function option whose name is not registered |
| `Navigation.LevelEndsExactlyOnExit` | console_menu.py:88-106 | the level ends exactly on the synthetic entry or an `exitmenu` option, and then only that level is left with the trace unchanged; an option of unknown type leaves the state unchanged; every other choice keeps the current level and those below it |
| `Navigation.FunctionChoiceStays` | console_menu.py:92-95 | a function option records its callback and stays in the same menu; a missing name is `KeyError(fname)` |
| `Navigation.SubmenuDescends` | console_menu.py:101-103 | a menu option opens the child above the current menu; the current menu becomes the child's parent, so the child's last entry names it |
| `Navigation.Session` | console_menu.py:81-106 | the call trace only grows; a session fails only with TypeError or with KeyError for an unregistered name (never IndexError); a waiting session waits at a valid entry of an open menu |
| `Navigation.EnterConfirmsFirstEntry` | console_menu.py:38 | whatever happened before, an immediate Enter confirms entry 0, because the cursor is not preserved |
| `Navigation.SessionNests` | console_menu.py:101-104 | the explicit stack acts like the recursion: levels below run untouched, and the parent resumes with the unread keys when the child returns |
| `Navigation.DispatchKeepsChain` | console_menu.py:101-103 | one dispatch keeps the open levels a chain of submenus from the root, and records only registered callbacks |
| `Navigation.SessionKeepsChain` | console_menu.py:88-106 | a whole session keeps the chain from the root and calls only registered callbacks |
| `Navigation.ChainWithinDepth` | console_menu.py:103 | the number of open levels never exceeds the depth of the menu tree |
| `Navigation.Replay` | console_menu.py:88-106 | the index-driven dispatch loop only extends the call trace |
| `Navigation.DigitThenEnterConfirms` | console_menu.py:69-70 | in a menu of at most eight options, digit `c+1` followed by Enter confirms entry `c` |
| `Navigation.DigitsFollowReplay` | console_menu.py:89-106 | a key stream that spells out a sequence of indices drives the session exactly as those indices drive the index-level loop |
| `Navigation.Process` | console_menu.py:81-106 | the explicit-stack loop computes `Session` from the root with an empty trace |
| `Navigation.ProcessStaysInTree` | console_menu.py:81-106 | a session from the root calls only registered callbacks; while waiting, its open levels are a chain from the root no deeper than the tree |
| `Navigation.Scenarios` | console_menu.py:38 | a worked session: back from a submenu the cursor is at 0, up wraps to Exit, and the session ends having called `b`; a missing callback name is a KeyError |

## Left out

- Curses setup and teardown (`initscr`, `noecho`, `cbreak`, `start_color`, `keypad`, `init_pair`, `endwin`): terminal I/O.
- `os.system('clear')` in `cleanup`: an external process call.
- All drawing: `border`, `addstr`, `refresh`, `clear`, highlight styles, the "Result of …" status line, `def_prog_mode`, `reset_prog_mode` and `curs_set`. These are rendering side effects and do not change which index is returned.
- The `oldpos` redraw suppression: it only decides when to redraw.
- The `parent` argument of `run` only affects the drawn label. `Selection.Run` does not take it. The label rule is `MenuData.LastOptionLabel`, applied to `Navigation.ParentOf` of the open levels.
- The bodies and results of user callbacks. Names are recorded in the trace instead. An exception raised inside a callback is not modelled.
- Blocking input: `getch` waits forever for a key. The model reads a finite key sequence and reports `Blocked` or `Waiting` when it runs out.
- Malformed menu dictionaries: a missing `title`, `type`, `options` or `fname` key. The datatypes always carry these fields, so the `KeyError`s those cases raise in Python are not modelled. Only the missing callback name is modelled.
- Menus are finite trees. In Python an option dict may be shared, or be an ancestor menu itself (a submenu holding its own parent), and then `process` (`console_menu.py:103`) recurses until Python raises `RecursionError`. A plain tree deeper than Python's recursion limit raises it as well. Cyclic or shared option dicts and the recursion limit are not modelled. `Navigation.ChainWithinDepth` holds only for trees.
- The demo `__main__` block and the unused `sleep` import.
