# snipped_rustui core, modelled in Dafny

snipped_rustui is a terminal tool for writing short code snippets ("notes").
Each note has a title, a language and contents. It is stored as a serialised
record in a file `root/language/title.md`, and every save is followed by a
background git sync. This project models the interactive core of the tool:

- `key.dfy`, module `Key`: the five input modes, the constant `modes` table,
  and the `next_mode` / `previous_mode` cycle.
- `view.dfy`, module `View`: the `StatefulList` cursor. It has two separate
  selections: the one callers read (`selected_num`) and the list widget's own
  (`state`). `next` and `previous` read the widget's selection and set both;
  `unselect` clears only the widget's.
- `notes.dfy`, module `Notes`: `Note`, `Note::new` and its path derivation,
  and `check_file_exist`, `delete`, `save` and `load`. They act on a file
  store: a map from paths to file contents, plus the order the files were
  created in.
- `app.dfy`, module `App`, for `src/app.rs`:
  - `update_input_buffer`;
  - the directory scan `load_all_markdown`;
  - the fuzzy title filter of the search box;
  - one iteration of the `run_app` loop, written as `Step`. It maps a
    session and an input event to the next session and the iteration's
    effects: a sync with its commit message, or the end of the loop.
- `loop.dfy`, module `Loop`: runs of the loop over event sequences, and the
  properties that link consecutive key presses. It ends with an editing
  session from the empty store to one saved and synced note.
- `wrappers.dfy`, module `Wrappers`: `Option` and `Result`.

Modelling choices:

- A panic of the program is a precondition. `Step` requires `Safe`: no index
  out of bounds, no unsigned underflow in `next`/`previous`, and no failing
  scan when the search box empties.
- The fuzzy matcher and the file-extension test are parameters of the model,
  given as fields of `Env`.
- A file that does not decode as a note record is
  `Unreadable`. Loading it fails; `load_all_markdown` then panics.
- The directory walk visits files in the order they were created.

Behaviour of the code worth knowing:

- `save` deletes only the file at the note's new path. After a rename, the
  file at the old path stays behind (`RenameLeavesOrphan`).
- The search filter does not repair the selection. A selection can point
  past the end of the filtered list, and a following Ctrl-s then panics
  (`FilterLeavesSelectionStale`).
- `delete` of `StatefulList` has no selection repair and no key bound to it.

## Model

| member | source | states |
|---|---|---|
| Key.Index | src/key.rs:19 | every mode has a position in the `modes` table |
| Key.IndexInjective | src/key.rs:19 | the table lists each mode once: equal positions mean equal modes |
| Key.NextMode | src/key.rs:21-29 | `next_mode` moves one place forward in the `modes` table, wrapping from EditingCode to Normal, and never returns the same mode |
| Key.PreviousMode | src/key.rs:30-38 | `previous_mode` moves one place backward in the table, wrapping from Normal to EditingCode, and never returns the same mode |
| Key.NextFollowsTable | src/key.rs:19-29 | for every table position `i`, `next_mode` of entry `i` is entry `i + 1`, modulo five |
| Key.NextPreviousInverse | src/key.rs:21-38 | `previous_mode` undoes `next_mode`, and `next_mode` undoes `previous_mode` |
| Key.AdvanceIndex | src/key.rs:21-29 | `n` applications of `next_mode` move `n` places around the table |
| Key.AdvanceReturns | src/key.rs:19-29 | `n` applications of `next_mode` return to the start exactly when five divides `n` |
| Key.CyclePeriod | src/key.rs:19-29 | the mode cycle has period exactly five: five steps return, one to four never do |
| Key.UnitTests | src/key.rs:45-79 | the six mode transitions the unit tests check |
| View.WithItems | src/view.rs:31-37 | a new list holds the given items with neither selection set |
| View.SetSelectedNum | src/view.rs:26-29 | both the caller-visible and the widget selection become `n`; the items do not change |
| View.Next | src/view.rs:39-50 | from a valid position `i`, `next` selects `(i + 1) mod len`; with no selection or a stale one it selects 0; both selections agree afterwards and stay in range |
| View.Previous | src/view.rs:52-63 | from a valid position `i`, `previous` selects `(i - 1) mod len`; with no selection it selects 0; a stale selection past the end only steps back by one, even on an empty list; only a selection of 0 on an empty list is refused, where `len - 1` underflows |
| View.Delete | src/view.rs:65-67 | removing index `i` keeps the items before `i`, shifts the later ones down by one, and loses only that item (multiset); selections are not repaired |
| View.Unselect | src/view.rs:69-71 | `unselect` clears the widget selection, and the caller-visible selection and the items survive |
| View.StepInverse | src/view.rs:39-63 | from a valid selection, `previous` after `next` returns to it, and so does `next` after `previous` |
| View.NextTimesPosition | src/view.rs:39-50 | `n` calls of `next` from position `i` select `(i + n) mod len` |
| View.NextFullCircle | src/view.rs:39-50 | calling `next` once per item comes back to the starting selection |
| View.UnselectKeepsSaveTarget | src/view.rs:69-71 | after `unselect`, the selection that save reads is still the old index |
| Notes.New | src/note.rs:36-48 | `Note::new` copies title, language and contents and derives the path `root/language/title.md` |
| Notes.CreateNew | src/note.rs:69-73 | creating a file fails with AlreadyExists at a taken path and changes nothing; otherwise it adds exactly that file |
| Notes.Delete | src/note.rs:54-62 | `delete` succeeds exactly when the file exists and then removes only it; otherwise it fails with NotFound and changes nothing; afterwards the file never exists |
| Notes.Save | src/note.rs:64-79 | `save` returns the note's path, and afterwards that path holds the note's record while every other file is kept; the file moves to the end of the creation order; the store stays consistent |
| Notes.Load | src/note.rs:81-100 | `load` succeeds exactly when the file holds a note record, and returns that record |
| Notes.LoadAfterSave | src/note.rs:147-155 | loading the path a note was saved to gives the note back |
| Notes.SaveIdempotent | src/note.rs:64-79 | saving the same note twice leaves the same store as saving it once, creation order included |
| Notes.SaveLeavesOtherPaths | src/note.rs:64-79 | `save` neither adds, removes nor changes any file at another path |
| Notes.RenameLeavesOrphan | src/note.rs:64-66 | after a note is saved under a new title, its file under the old title is still there and still loads |
| Notes.NewUnitTest | src/note.rs:128-137 | the path and fields the `Note::new` unit test expects |
| Notes.Lifecycle | src/note.rs:157-169 | an unsaved note cannot be deleted; after a save it exists, and deleting it succeeds and restores the earlier files |
| App.UpdateInputBuffer | src/app.rs:25-46 | typed characters (no modifier or Shift) are appended; Backspace drops the last character; Tab advances the mode; Esc returns to Normal; every other key changes nothing |
| App.BackspaceUndoesTyping | src/app.rs:31-39 | Backspace right after typing a character restores the buffer |
| App.MarkdownPaths | src/app.rs:54-58 | the walk keeps exactly the paths whose extension is `md`, and never more paths than it visits |
| App.MarkdownAppend | src/app.rs:54-58 | the extension filter distributes over concatenation of walks, so the kept paths stay in walk order |
| App.ScanPaths | src/app.rs:54-66 | the scan succeeds exactly when every markdown path holds a note record, and returns one note per markdown path, in walk order |
| App.Scan | src/app.rs:52-68 | `load_all_markdown` succeeds exactly when every markdown file decodes, and a note is in the result exactly when some markdown file holds it |
| App.FilterByTitle | src/app.rs:142-149 | the filter keeps exactly the notes whose title matches the query, and never lengthens the list |
| App.FilterAppend | src/app.rs:142-149 | filtering a concatenation filters each part, in order |
| App.FilterIdempotent | src/app.rs:142-149 | filtering twice with the same query equals filtering once |
| App.CommitMessage | src/app.rs:105 | the commit message of a save is `update: `, the note's language, `, ` and the note's title, in that order |
| App.Init | src/app.rs:75-78 | the loop starts in Normal mode with an empty scratch note under the root, no search text, and the scanned notes with nothing selected |
| App.SaveSelected | src/app.rs:99-118 | Ctrl-s with a selection replaces the selected item by a note rebuilt from the scratch note, stores its record at the derived path (which then loads back), and starts one sync named "update: language, title"; without a selection nothing happens |
| App.Navigate | src/app.rs:122-135 | after Down or Up the scratch note is a copy of the newly selected item |
| App.NormalKey | src/app.rs:85-137 | the Normal-mode commands: Enter edits the title, Tab cycles the mode, Ctrl-q quits, Ctrl-n appends and selects a blank note, Ctrl-s saves, Left unselects, Down/Up move and load the note; every other key does nothing; only Ctrl-s with a selection syncs |
| App.SearchKey | src/app.rs:139-155 | the search box edits the query; Enter replaces the list by the matching items; an empty query reloads the list from a new scan; selections are not touched |
| App.EditNote | src/app.rs:156-172 | the title, language and code boxes edit the scratch note's field of the current mode; Enter in the code box also appends a line break |
| App.Step | src/app.rs:79-176 | one loop iteration keeps the store consistent; it quits exactly on Ctrl-q in Normal mode; it syncs only on Ctrl-s in Normal mode; without a sync the store is unchanged; non-key events change nothing |
| Loop.RunWith | src/app.rs:79-82 | a run starts at most one sync per event and can quit only after some event |
| Loop.RunWithAppend | src/app.rs:79-82 | running two event sequences one after the other equals running their concatenation |
| Loop.Run | src/app.rs:79-176 | a run of the loop, which a quit or a panic ends, starts at most one sync per event, and leaves the store as it was when it starts none |
| Loop.QuietRunKeepsStore | src/app.rs:99-118 | files change only through Ctrl-s: a run without a sync keeps the store |
| Loop.RunAppend | src/app.rs:79-82 | running two event sequences one after the other equals running their concatenation, with the syncs concatenated; two panic-free runs make a panic-free run |
| Loop.StepTab | src/app.rs:89 | Tab advances the mode in every mode and leaves the note, search text and store alone |
| Loop.TabsCycle | src/app.rs:89 | `n` presses of Tab advance the mode `n` places, start no sync, and leave the note, the store and the search text alone |
| Loop.FiveTabsReturn | src/app.rs:89 | five presses of Tab return to the starting mode with note and store untouched |
| Loop.StepTyped | src/app.rs:156-159 | in an editing mode, a typed character is appended to that mode's buffer and nothing else changes |
| Loop.TypingAppends | src/app.rs:156-159 | in an editing mode, typing a string appends the whole string to that mode's buffer |
| Loop.StepLeft | src/app.rs:119-121 | Left in Normal mode clears the widget selection and changes nothing else |
| Loop.LeftThenSave | src/app.rs:99-121 | after Left clears the widget selection, Ctrl-s still overwrites and syncs the note at the old index |
| Loop.DownThenUp | src/app.rs:122-135 | from a valid selection, Down then Up selects the same note again and loads it as the scratch note |
| Loop.FilterThenClear | src/app.rs:139-155 | clearing the query after a filter restores the full scan of the store, not the pre-filter list |
| Loop.FilterLeavesSelectionStale | src/app.rs:142-149 | the filter can leave the selection past the end of the list, so a following Ctrl-s would index out of bounds |
| Loop.StepEsc | src/app.rs:41-43 | Esc in a note box returns to Normal mode and changes nothing else |
| Loop.StepSave | src/app.rs:99-104 | Ctrl-s in Normal mode is the save of the selected note |
| Loop.EscThenSave | src/app.rs:99-118 | from a note box, Esc then Ctrl-s writes the scratch note over the selected item and into the store, and starts exactly one sync |
| Loop.StepTabNote | src/app.rs:40 | Tab in a note box only advances the mode |
| Loop.StepOpeningNew | src/app.rs:91-98 | on the empty store, Ctrl-n appends the blank note and selects it |
| Loop.StepOpeningEnter | src/app.rs:86-88 | Enter in Normal mode starts editing the title |
| Loop.FillingWith | src/app.rs:156-159 | from the title box, typing a title, Tab, a language, Tab and code fills in the three fields and ends in the code box |
| Loop.ScenarioStart | src/app.rs:86-98 | on the empty store, Ctrl-n then Enter leads to the title box of a new, selected blank note |
| Loop.ScenarioCompose | src/app.rs:156-172 | on the empty store, the opening keys and the three typed fields leave a filled-in scratch note and nothing stored |
| Loop.EndToEnd | src/app.rs:71-177 | a whole session from the empty store stores exactly one note, at `root/language/title.md`, which loads back, and starts exactly one sync with the message "update: language, title" |
| Loop.DemoSession | src/app.rs:105 | the example note "demo" in "go" under "/notes" lives at "/notes/go/demo.md" and syncs as "update: go, demo" |

## Left out

- The git synchronisation (`src/git.rs`): pull at start-up, and add, commit and push in a background thread after a save. A sync is an effect of the step that carries its commit message.
- The terminal drawing (`ui`), `refresh_ui`, and the environment bootstrap in `src/env.rs` and `src/main.rs`.
- The clipboard: Ctrl-c and Ctrl-v in the code box have empty bodies in the code, and the model treats them as ordinary keys.
- Serialisation bytes: a stored file is modelled as a decoded note record or as undecodable content. JSON itself is not modelled.
- The fuzzy matcher (SkimMatcherV2), `Path::join`, and the `.md` extension test as `Path::extension` computes it. The matcher and the extension test are parameters; path joining is concatenation with "/".
- WalkDir's visiting order: the model walks files in creation order.
- Notes.Save: permission errors, a full disk, directory creation failures and serialisation failures are not modelled, so `save` always succeeds in the model.
- Notes.Load: the panic for an absent path is a precondition. A read error other than undecodable content is not modelled.
- App.Step: the panics of the loop are preconditions, not outcomes. They are: an out-of-range index on Ctrl-s, Down or Up; the `len - 1` underflow of `next`/`previous` on an empty list; and a failing scan when the search box empties.
- App.Init: a scan failure at start-up is a panic in the code and a precondition here.
- The code has no delete-selected command (`StatefulList::delete` is never bound to a key), and `save` does not remove a renamed note's old file; the model has neither.
- The end of `run_app` by an I/O error: `terminal.draw(...)?` and `event::read()?` (src/app.rs:80, 82) return early on a terminal error. The model has no terminal, so a run ends only by a quit or a panic.
- `GetSelectedNum` and `CheckFileExist` only read a field or test membership, so they have no contract of their own. They appear in the contracts of `Unselect`, `SetSelectedNum`, `Delete` and `Lifecycle`.
