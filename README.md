# todo-list: a verified model of the task tracker's core

The program is a terminal to-do list. It keeps two lists of task titles,
*todos* (pending) and *dones* (completed), each with its own selection
cursor, plus a *focus* that says which list is on screen. It loads the lists
from a text file of `TODO: <title>` / `DONE: <title>` lines. Each iteration
draws the focused list with an immediate-mode drawing context (`Ui`) and then
applies one key:

- `w` / `s` move the cursor;
- Enter moves the selected task to the tail of the other list;
- Tab switches focus;
- `e` saves;
- `q` quits.

The model follows `src/main.rs` piece by piece:

| file | module | models |
|---|---|---|
| `wrappers.dfy` | `Wrappers` | `Option` |
| `items.dfy` | `Items` | `Status`, `Status::toggle`, `parse_item` |
| `codec.dfy` | `Codec` | the load loop (method `Load` over the spec function `Titles`), the save branch (method `SaveLines` over the spec function `Encode`) |
| `navigation.dfy` | `Navigation` | `list_up`, `list_down` (methods that update a cursor) |
| `task_store.dfy` | `TaskStore` | the key dispatch as a transition function `Apply` over a `Tasks` record, and the class `Store` whose `HandleKey` updates the lists, cursors and focus in place, proved equal to `Apply` |
| `render.dfy` | `Render` | the class `Ui` with fields `listCurr`, `row`, `col` and a log of the drawing calls it makes ((row, col, text, colour pair) entries) |
| `main_loop.dfy` | `MainLoop` | one frame's drawing, the key-by-key `Run` of the loop, and `Session`, the whole `main` (load, then draw, read a key and dispatch until `q`) |

Keys and file lines are parameters: `Session` takes the file's lines already
split and the keys as a sequence. A save is returned as the lines the file
receives, each of which `writeln!` terminates with a newline.

The usize underflow in the completed-list Enter path is modelled explicitly.
`dones.len() - 1` is evaluated when `dones` is empty and `done_curr > 0`, which
the initial `done_curr = 1` allows. The model gives this an explicit
`Underflow` outcome, which is the debug-build panic, and leaves the state
unchanged. `UnderflowExactly` shows this is the only failing step.
`UnderflowReachable` shows it happens after Tab, Enter on any file without
`DONE:` lines.

Three things one might expect of the program do not hold in the code,
and the model follows the code:

- not every navigation and move step is total: the completed-list Enter can
  panic as above;
- a cursor is not always inside its list or 0: `done_curr` starts at 1, so
  the invariant the model proves (`TaskStore.Bounded`) allows the completed
  cursor to be 1 on an empty or one-element list;
- completing a task and reopening it (Enter, Tab, Enter, Tab) does not in
  general bring that task back, for the same initial `done_curr = 1`. With one
  pending task and no completed ones, the second Enter finds the cursor past
  the one-element completed list, only clamps it to 0 and moves nothing
  (`TaskStore.CompleteThenReopenAtStart`). With two or more completed tasks
  at the start, it reopens the completed task at index 1 instead
  (`TaskStore.CompleteThenReopenOther`). The round trip holds when the
  completed cursor stands at the end of the completed list
  (`TaskStore.CompleteThenReopen`).

## Model

| member | source | states |
|---|---|---|
| `Items.Toggle` | src/main.rs:71-76 | toggling always yields the other status |
| `Items.ToggleInvolution` | src/main.rs:71-76 | toggling twice is the identity |
| `Items.ParseItem` | src/main.rs:88-98 | `parse_item`; no contract of its own: `ParseItemMeaning`, `ParsePrefixed` and `ParseRejectsOthers` state it |
| `Items.ParseItemMeaning` | src/main.rs:88-98 | a line parses iff it starts with `TODO: ` or `DONE: `, and a parsed line is exactly the prefix of the returned status followed by the returned title |
| `Items.ParsePrefixed` | src/main.rs:88-98 | `TODO: t` parses to `(Todo, t)` and `DONE: t` to `(Done, t)`, for every title `t` |
| `Items.ParseRejectsOthers` | src/main.rs:88-98 | `NOTE: x`, the empty line, `TODO:x` and `DONE` parse to None |
| `Codec.Titles` | src/main.rs:117-123 | the list the load loop builds for one status; no contract of its own: `Load` is proved equal to it, and `TitlesAppend`, `TitlesSnoc`, `IgnoredLine`, `RoundTrip` and `GroupedRoundTrip` state its properties |
| `Codec.Tagged` | src/main.rs:169-174 | one `for_each` of the save branch: exactly one line per title; `TaggedAt` and `TaggedSnoc` state each line's contents |
| `Codec.Encode` | src/main.rs:168-174 | the saved file: one line per task; `EncodeLayout`, `RoundTrip` and `GroupedRoundTrip` state its contents |
| `Codec.Load` | src/main.rs:117-123 | the load loop leaves in `todos` and `dones` exactly the titles of the `TODO: ` and `DONE: ` lines, each in line order |
| `Codec.TitlesAppend` | src/main.rs:117-123 | loading a concatenation of files concatenates the loaded lists |
| `Codec.IgnoredLine` | src/main.rs:118-121 | a line with neither prefix contributes nothing, wherever it appears |
| `Codec.TitlesSnoc` | src/main.rs:117-123 | one more line adds its own title, if any, at the tail of its list |
| `Codec.DecodeInterleaved` | src/main.rs:117-123 | `TODO: x`, `DONE: y`, `TODO: z` load as todos `[x, z]` and dones `[y]` |
| `Codec.EncodeLayout` | src/main.rs:168-174 | the saved file holds todo i on line i, then done i on line \|todos\| + i |
| `Codec.TaggedAt` | src/main.rs:169-173 | each title is written as one line, its prefix followed by the title |
| `Codec.TaggedSnoc` | src/main.rs:169-173 | one more title adds one more line at the end |
| `Codec.SaveLines` | src/main.rs:168-174 | the two `for_each` loops write exactly the save format |
| `Codec.TitlesTagged` | src/main.rs:168-174 | lines written with one prefix load back as their titles into that list and as nothing into the other |
| `Codec.RoundTrip` | src/main.rs:168-174 | loading a saved file gives back both lists exactly |
| `Codec.ResaveKeepsTitles` | src/main.rs:117-123 | load, save, load yields what the first load yielded |
| `Codec.GroupedRoundTrip` | src/main.rs:168-174 | a file whose lines all parse, with no `DONE:` line before a `TODO:` line, is reproduced line for line by load-then-save |
| `Codec.Regroup` | src/main.rs:168-174 | interleaved `TODO`/`DONE` lines are saved back regrouped, todos first, each list in order |
| `Navigation.ListUp` | src/main.rs:79-81 | the cursor becomes max(c - 1, 0) and never underflows |
| `Navigation.ListDown` | src/main.rs:82-86 | the cursor advances iff c + 1 < \|list\|, otherwise stays; an in-range cursor stays in range |
| `TaskStore.Initial` | src/main.rs:101-105 | the loop's state after loading; no contract of its own: `InitialBounded` and `Store.constructor` state it |
| `TaskStore.EnterPending` | src/main.rs:185-192 | Enter on the pending list; no contract of its own: `EnterPendingMoves` and `EnterPendingOutOfRange` state it |
| `TaskStore.EnterCompleted` | src/main.rs:193-200 | Enter on the completed list; no contract of its own: `EnterCompletedMoves`, `EnterCompletedOutOfRange` and `UnderflowExactly` state it |
| `TaskStore.Apply` | src/main.rs:165-204 | the key dispatch; no contract of its own: `Store.HandleKey` is proved equal to it, and `TabOnlyTogglesFocus`, `MoveKeepsLists`, the Enter lemmas, `SaveRestores`, `OtherKeysIgnored`, `ApplyKeepsPool` and `ApplyKeepsBounded` state it |
| `TaskStore.RemoveAt` | src/main.rs:187 | `Vec::remove` shortens the list by one and removes exactly that element from its multiset |
| `TaskStore.Store.constructor` | src/main.rs:101-105 | the loop starts with todo cursor 0, done cursor 1 and the pending focus |
| `TaskStore.Store.HandleKey` | src/main.rs:165-204 | the in-place update of lists, cursors and focus, and the returned outcome, are those of `Apply` |
| `TaskStore.TabOnlyTogglesFocus` | src/main.rs:202 | Tab changes only the focus, and Tab twice restores the whole state |
| `TaskStore.MoveKeepsLists` | src/main.rs:176-183 | `w`/`s` leave both lists and the focus alone; `w` sets the focused cursor to max(c - 1, 0), `s` advances it iff c + 1 is below its list's length; the other cursor stays, and in-range cursors stay in range |
| `TaskStore.EnterPendingMoves` | src/main.rs:185-192 | Enter on pending with an in-range cursor removes the selected todo, appends it to dones and keeps the multiset of all titles; the todo cursor stays when it was below the last index, steps back one from the last element, and is 0 when the list empties |
| `TaskStore.EnterPendingOutOfRange` | src/main.rs:186 | Enter on pending with an out-of-range cursor changes nothing |
| `TaskStore.EnterCompletedMoves` | src/main.rs:193-200 | Enter on completed with an in-range cursor moves the selected done to the tail of todos and keeps the multiset of all titles; the done cursor stays when it was below the last index, steps back one from the last element, and is 0 when the list empties |
| `TaskStore.EnterCompletedOutOfRange` | src/main.rs:193-200 | with an out-of-range cursor nothing moves, but the cursor is still clamped onto the last element, or underflows when dones is empty and the cursor is positive |
| `TaskStore.UnderflowExactly` | src/main.rs:197-199 | a key panics iff it is Enter on the completed focus with empty dones and a positive cursor |
| `TaskStore.SaveRestores` | src/main.rs:167-175 | `e` changes no state and hands out a file from which loading restores both lists |
| `TaskStore.OtherKeysIgnored` | src/main.rs:203 | every key other than `q e w s`, Enter and Tab leaves the state as it is |
| `TaskStore.ApplyKeepsPool` | src/main.rs:184-201 | no key creates, loses or duplicates a title: the multiset of todos ++ dones is unchanged |
| `TaskStore.InitialBounded` | src/main.rs:102-104 | the starting cursors satisfy the cursor bounds |
| `TaskStore.ApplyKeepsBounded` | src/main.rs:176-201 | every key keeps each cursor inside its list or 0 (the done cursor may still be 1), so `list_down`'s `+ 1` cannot overflow |
| `TaskStore.CompleteThenReopen` | src/main.rs:184-201 | Enter, Tab, Enter, Tab, with the done cursor at the end of the done list, brings the selected todo back to the tail of todos and restores dones |
| `TaskStore.CompleteThenReopenAtStart` | src/main.rs:184-201 | from the start state with one pending task and no completed ones, Enter, Tab, Enter, Tab leaves the task completed, with the completed cursor clamped to 0 |
| `TaskStore.CompleteThenReopenOther` | src/main.rs:184-201 | from the start state with one pending task and two or more completed ones, the same keys reopen the completed task at index 1, not the one just completed, and append the new one to the completed list |
| `TaskStore.EnterCompletedSaturating` | src/main.rs:197-199 | the clamp written as `saturating_sub(1)` agrees with the code wherever it does not underflow, never panics, and leaves the cursor in range or 0 |
| `Render.Ui.constructor` | src/main.rs:15-20 | `Ui::default()` has no open list, position (0, 0) and an empty screen |
| `Render.Ui.Begin` | src/main.rs:23-26 | the write position is reset to (row, col), nothing else changes |
| `Render.Ui.BeginList` | src/main.rs:27-30 | requires no open list (the `assert!`) and opens one carrying the id to highlight |
| `Render.Ui.ListElement` | src/main.rs:32-45 | requires an open list (the `expect`), draws one row with the highlight pair iff the id equals the open id, moves one row down and returns false |
| `Render.Ui.EndList` | src/main.rs:47-49 | closes the list and leaves position and screen alone |
| `Render.Ui.Label` | src/main.rs:54-61 | draws the text with the given pair at the current position, then row + 1, same column |
| `Render.Erase` | src/main.rs:138 | `erase()` blanks the screen and leaves the `Ui` fields alone |
| `Render.ListRows` | src/main.rs:145-149 | what one list loop draws: one row per element; `ListRowAt` and `ListHighlight` state each row's position, text and colour |
| `Render.ListRowAt` | src/main.rs:32-45 | element k of a list opened at (row, col) is drawn at (row + k, col), highlighted iff k is the open id |
| `Render.ListHighlight` | src/main.rs:36-43 | in the rows of a list exactly the selected one is highlighted, and one is iff the selection is in range |
| `MainLoop.FrameLog` | src/main.rs:139-162 | what one frame draws; no contract of its own: `RenderFrame` is proved to draw it, and `FrameLayout` states its layout |
| `MainLoop.DrawList` | src/main.rs:145-149 | drawing a list appends its rows, advances `row` by the list length and closes the list |
| `MainLoop.RenderFrame` | src/main.rs:139-162 | one frame appends the header, the rule and the focused list's rows, and leaves no list open |
| `MainLoop.FrameLayout` | src/main.rs:139-162 | a frame is one column of consecutive rows from row 1; log entry 2 + i, drawn on row 3 + i, shows element i of the focused list, and the only highlighted row is the one under the focused cursor |
| `MainLoop.Run` | src/main.rs:137-205 | the loop over a key sequence; no contract of its own: `Session` is proved equal to it, and `RunStep`, `RunKeeps`, `PanicOnlyAtInitialCursor` and `UnderflowReachable` state it |
| `MainLoop.RunStep` | src/main.rs:164-204 | each loop iteration either ends the run (quit, panic) or continues with the next key, recording a save |
| `MainLoop.RunKeeps` | src/main.rs:137-205 | over any key sequence the cursor bounds and the multiset of all titles are preserved |
| `MainLoop.PanicOnlyAtInitialCursor` | src/main.rs:193-200 | a run panics only in the completed view with no dones and the cursor still at its initial 1 |
| `MainLoop.UnderflowReachable` | src/main.rs:197-199 | a file with only pending tasks, then Tab and Enter, panics |
| `MainLoop.Session` | src/main.rs:100-205 | load, then draw and dispatch one key per iteration, gives exactly `Run` from the initial state, and never opens a list while one is open |

## Findings

| source | as written | input that shows it | evidently intended | confidence | as-written member | corrected member |
|---|---|---|---|---|---|---|
| src/main.rs:197-199 | the clamp `done_curr = dones.len() - 1` runs even when nothing was removed, and underflows when `dones` is empty and `done_curr > 0` | a file with no `DONE:` lines; press Tab, then Enter (`done_curr` is still its initial 1) | clamp to `dones.len().saturating_sub(1)`, or clamp only after a removal as the pending path does | high (proved; not executed) | `MainLoop.UnderflowReachable` | `TaskStore.EnterCompletedSaturating` |

`Apply`, `Store.HandleKey` and `Session` keep the as-written behaviour, so
that they follow `src/main.rs` line for line, and report the panic as the
`Underflow` outcome. `EnterCompletedSaturating` is proved equal to the
as-written path on every input where it does not underflow.

## Left out

- The ncurses calls (`initscr`, `noecho`, `curs_set`, `start_color`, `init_pair`, `refresh`, `mv`, `attron`/`attroff`, `addstr`, `getch`, `endwin`) are a foreign terminal library. Drawing is the `Ui` log and `erase` clears it; keys are a parameter.
- `mv(self.row as i32, self.col as i32)` truncates to 32 bits; rows are unbounded naturals here, which differs only for lists of more than 2^31 rows.
- Reading and writing files (`read_to_string(...).unwrap()`, `File::create("TODO")`, `writeln!`, their panics on failure) are left out. A save is the sequence of lines written to the fixed file `TODO`; the newline after each line is not represented.
- `str::lines()` splitting, including CR stripping, is left out: the file is taken as its sequence of lines. The round trip therefore does not cover titles containing a line break, which `lines()` would split.
- Command-line handling (`env::args`, `eprintln!`, `exit(1)`) is left out.
- The key conversion `key as u8 as char` is left out: keys are `char`s.
- `getch` blocks forever when no key comes; `Run` and `Session` instead stop with `KeysExhausted` when the key sequence ends.
- `Ui.End` is an empty method, as in the source, and has no contract.
- Release builds wrap `0 - 1` to `usize::MAX` instead of panicking; the model follows the debug build and stops with `Underflow`.
