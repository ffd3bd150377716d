# postit, modelled in Dafny

postit is a terminal kanban board. A `Board` holds an ordered list of columns. Each column has an id, a name, an optional WIP limit and an ordered list of note ids. The board also holds a map from note id to note, and offers three mutation primitives: `add_note`, `move_note` and `update_note`. An interactive `App` sits on top of the board: it keeps a selection, an interaction mode (browsing, a create or edit form, a delete confirmation) and three views (board, timeline, project). Its key handlers move the selection, move and delete notes, and edit notes through a four-field form whose fields are small text editors with a UTF-8 byte cursor.

The project models:

- the board primitives of `src/model.rs`;
- the non-rendering core of `src/ui.rs`;

and proves what they promise.

Modules:

- `Model` (model.dfy): the board entities.
  - `AddNoteSpec`, `MoveNoteSpec` and `UpdateNoteSpec` are specification functions on a `State` value. Each comes with its error contract and its "nothing else changes" contract.
  - Lemmas prove referential integrity, exclusive placement and that a repeated move changes nothing.
  - The `Board` class performs each primitive in place and is proved to reach the state its specification function describes.
- `AppState` (appstate.dfy):
  - the value part of the UI state: the view, the timeline and project selection states and their focus machines;
  - the re-clamping done by `ensure_timeline_bounds` and `ensure_project_bounds`;
  - the note each view regards as selected;
  - `delete_note` as a function on the board state.
- `Viewport` (viewport.dfy): `adjust_offset` over `usize`, with its saturating operations written out.
- `TextLines` (textlines.dfy): the line and column structure of a buffer, counted in characters. It is the reference for the vertical cursor moves.
- `TextField` (textfield.dfy): `FieldValue` as a class. The buffer is a `seq<char>` and `Utf8Width` gives each character's encoded length. The cursor is a byte offset, and the class invariant `Valid` keeps it on a character boundary. The loop helpers `prev_grapheme`, `next_grapheme`, `line_state` and `index_at_col` are methods with loop invariants.
- `TagList` (tags.dfy): `str::trim` and `parse_tags`. A lemma proves `parse_tags` equal to an independent single-pass tokenizer.
- `Form` (form.dfy): `NoteForm` with its focus cycle, the form part of `process_form_key` as a function `FormKey` and as a method, and the submission checks.
- `Order` (order.dfy): the orderings the projections sort by, and a verified insertion sort that stands for `sort_by_key`.
- `Views` (views.dfy): the read-only projections `timeline_lists`, `project_tags` and `first_due_on_cursor`, written as the loops the source uses. They are proved against order-independent descriptions of their results.
- `App` (app.dfy): the `App` class with the key handlers of every mode and view, the `move_selected`/`move_to_column` and `delete_note` operations, and note creation and editing from the form. Each handler's effect is a predicate relating two `AppSnapshot` values, the app apart from its mode (the board's name included), before and after the key (`BoardKeyEffect`, `ViewKeyEffect`, `NormalKeyEffect`, `ConfirmEffect`, `FormOutcomeEffect`), so the dispatchers pass on everything their callees prove.
- `Keys` (keys.dfy) and `Wrappers` (wrappers.dfy): key events and `Option`.

Things the model takes as parameters:

- **The clock and chrono:** `Utc::now` is a `now` parameter; times are seconds since the epoch, as `int`. chrono's due-date parser and formatter are functions in an `Env` value. The day `TimelineState::new` starts the calendar on is a constructor argument.
- **The new note's id:** the id `generate_id` would draw is also in `Env`.
- **Saving:** `persist` is counted in the field `saves`.

## Model

| member | source | states |
|---|---|---|
| Model.NewNote | src/model.rs:150-167 | a new note carries the given fields, and its creation and update times are both `now` |
| Model.DefaultColumns | src/model.rs:46-77 | the default board has exactly the four empty, unlimited columns todo, doing, waiting, done, in that order |
| Model.Board.DefaultNamed | src/model.rs:46-77 | a fresh board has the given name, the default columns and no notes |
| Model.FindColumnIndex | src/model.rs:79-81 | the result is the first column whose id matches, and it is `None` exactly when no column id matches |
| Model.FirstColumnIsFound | src/model.rs:79-81 | whichever index is the first match, the scan returns that one |
| Model.FindNoteColumnIndex | src/model.rs:83-87 | the result is the first column whose list contains the id, and it is `None` exactly when no column lists it |
| Model.FirstHolderIsFound | src/model.rs:83-87 | whichever index is the first holder, the scan returns that one |
| Model.EnsureWip | src/model.rs:137-146 | the only error is `WipLimitReached` with the column's id, and it occurs exactly when the column has a limit and at least that many ids, for lists shorter than 2^32 |
| Model.RemoveAll | src/model.rs:113-116 | `retain` removes every occurrence of the id and keeps every other element with its multiplicity; a list without the id is unchanged |
| Model.RemoveAllAppend | src/model.rs:113-116 | `retain` distributes over concatenation, so the remaining ids keep their order |
| Model.AddNoteSpec | src/model.rs:89-97 | an unknown column gives `ColumnNotFound` and a full one `WipLimitReached`, neither changing anything; otherwise the note is stored under its id, its id is appended to the first matching column, and every other column is unchanged |
| Model.AddKeepsColumnCount | src/model.rs:89-97 | adding a note neither adds nor removes a column |
| Model.AddNotePreservesIntegrity | src/model.rs:89-97 | adding keeps every listed id a key of `notes` |
| Model.AddNotePreservesExclusive | src/model.rs:89-97 | adding a note whose id no column lists keeps every id in at most one column |
| Model.AddToDefaultBoard | src/model.rs:46-97 | adding a note to "todo" on a new default board succeeds, and the note becomes that column's only id and the board's only note |
| Model.Board.AddNote | src/model.rs:89-97 | the in-place insert reaches exactly the step `AddNoteSpec` describes, and the name is kept |
| Model.MoveNoteSpec | src/model.rs:99-118 | the errors come in the source's order: `NoteNotFound`, then `ColumnNotFound`, `NoteLocationMissing` and `WipLimitReached`; each leaves the state unchanged. A note already in its destination gives Ok with nothing changed and no limit check. Otherwise every occurrence of the id leaves its first holder, the id is appended to the destination, the note's update time becomes `now`, and nothing else changes |
| Model.MoveKeepsColumns | src/model.rs:99-118 | a move keeps the number of columns and every column's id |
| Model.MoveNotePreservesIntegrity | src/model.rs:99-118 | moving keeps every listed id a key of `notes` |
| Model.MoveNoteExclusivePlacement | src/model.rs:99-118 | when each id sat in at most one column, a successful move leaves the note in exactly the destination column, and placement stays exclusive |
| Model.MovedColumnsPlacement | src/model.rs:113-116 | removing the id from its only holder and appending it to another column leaves that column its only holder |
| Model.MoveNoteIdempotent | src/model.rs:110-112 | when no id is listed by two columns, repeating a successful move, at any later time, returns Ok and changes nothing |
| Model.MoveTwiceNeedsExclusive | src/model.rs:110-112 | with an id listed by two columns, a second identical move changes the board again |
| Model.Board.MoveNote | src/model.rs:99-118 | the in-place move reaches exactly the step `MoveNoteSpec` describes |
| Model.UpdateNoteSpec | src/model.rs:120-131 | a missing id gives `NoteNotFound` and changes nothing; otherwise only that note changes, becoming the mutator's result with the update time `now`, and the columns are untouched |
| Model.UpdateNotePreservesIntegrity | src/model.rs:120-131 | updating keeps every listed id a key of `notes` |
| Model.Board.UpdateNote | src/model.rs:120-131 | the in-place update reaches exactly the step `UpdateNoteSpec` describes |
| Model.TouchStampsOnly | src/model.rs:120-135 | `touch` fails with `NoteNotFound` for a missing id and otherwise changes only the note's update time, stamping it even though the mutator does nothing |
| Model.Board.Touch | src/model.rs:133-135 | the in-place touch reaches exactly the step of `update_note` with the do-nothing mutator |
| AppState.TimelineNextPrevInverse | src/ui.rs:107-121 | `prev_focus` undoes `next_focus` and the other way round |
| AppState.TimelineFocusCycle | src/ui.rs:107-121 | three `next_focus` steps return to the start, and no shorter walk does |
| AppState.ClampIndex | src/ui.rs:1473-1527 | the clamped row is inside a non-empty list (0 for an empty one), is unchanged when already valid, and is otherwise the last row |
| AppState.ClampTimeline | src/ui.rs:1473-1504 | both list indices and offsets end inside their lists, or 0 when a list is empty; valid indices, the focus and the calendar cursor are kept |
| AppState.ClampTimelineIdempotent | src/ui.rs:1473-1504 | re-clamping a clamped timeline state changes nothing |
| AppState.TimelineSelectionAfterClamp | src/ui.rs:1354-1385 | after re-clamping, the timeline view selects a note exactly when a list pane is focused and its list is not empty |
| AppState.ClampProject | src/ui.rs:1506-1527 | with no tags everything is reset to the tag pane; otherwise the tag index is clamped to the tags and the note index to the selected bucket, and the focus goes back to Tags when that bucket is empty |
| AppState.ClampProjectIdempotent | src/ui.rs:1506-1527 | re-clamping a clamped project state changes nothing |
| AppState.ProjectSelectionAfterClamp | src/ui.rs:1354-1385 | after re-clamping, the project view selects a note exactly when the notes pane is focused, and the note is a board note carrying the selected tag |
| AppState.ClampProjectWellDefined | src/ui.rs:1447-1527 | the clamped project state is the same whatever order the note map was walked in |
| AppState.BoardSelectionUnderIntegrity | src/ui.rs:1354-1385 | under referential integrity, the board view selects a note exactly when the selected column and row exist |
| AppState.MoveTarget | src/ui.rs:1281-1308 | the destination column is the current column plus the step, clamped to the existing columns |
| AppState.ShiftCalendar | src/ui.rs:1529-1537 | only the calendar cursor changes, by exactly the given number of days |
| AppState.TimelineKey | src/ui.rs:355-405 | only the calendar pane moves the cursor, by one day or one week; each list index moves by at most one row and only in its own pane, except that Enter on the calendar jumps to the first note due that day in the assigned list; offsets are untouched |
| AppState.TimelineTabBackTab | src/ui.rs:355-405 | Tab followed by Shift-Tab restores the timeline state |
| AppState.CalendarMovesCancel | src/ui.rs:355-405 | on the calendar, Left undoes Right and Up undoes Down |
| AppState.ListDownThenUp | src/ui.rs:355-405 | in a list pane, Up undoes Down |
| AppState.ProjectKey | src/ui.rs:407-441 | the tag index moves by at most one and only from the tag pane, and a tag change selects the bucket's first note; otherwise the note index moves by at most one, only from the notes pane; Tab switches the pane; Left and Right focus tags and notes |
| AppState.ProjectTabTwice | src/ui.rs:143-149 | Tab twice restores the project state |
| AppState.DeleteNoteSpec | src/ui.rs:1339-1352 | deletion fails, changing nothing, exactly when no column lists the id; otherwise the note is dropped from the map and every occurrence leaves its first holder, other columns unchanged |
| AppState.DeletePreservesIntegrity | src/ui.rs:1339-1352 | with exclusive placement, deleting keeps referential integrity and exclusivity, and no column lists the id afterwards |
| AppState.DeleteNeedsExclusive | src/ui.rs:1339-1352 | without exclusive placement, an id listed by two columns is left dangling in the second |
| Viewport.AdjustOffset | src/ui.rs:1738-1762 | an empty viewport or list scrolls to 0; the offset never passes the last full page; a selected row that exists is always visible |
| Viewport.AdjustOffsetKeepsMargin | src/ui.rs:1738-1762 | when the viewport is taller than twice the margin, the margin rows above and below the selection stay visible unless the window is pinned to the top or bottom |
| Viewport.AdjustOffsetIdempotent | src/ui.rs:1738-1762 | adjusting an adjusted offset again changes nothing |
| TextLines.LineStart | src/ui.rs:1805-1824 | the start of a position's line is at or before it, with no break in between, right after a break or at 0 |
| TextLines.LineEnd | src/ui.rs:1830-1844 | the end of a position's line is the next break or the buffer's end, with no break in between |
| TextLines.LineStarts | src/ui.rs:1806-1811 | the line starts are 0 and exactly the positions after a break, strictly increasing |
| TextLines.LineIndexOf | src/ui.rs:1812-1819 | the last line start at or before a position is the start of that position's line |
| TextLines.NextLine | src/ui.rs:210-217 | a next line exists exactly when the line ends in a break, and it starts right after it |
| TextLines.PreviousLine | src/ui.rs:201-208 | the previous line starts where the line of the break before this line starts |
| TextLines.UpTargetOnPreviousLine | src/ui.rs:201-208 | moving up stays put on the first line; otherwise it lands on the previous line at the same column, or at that line's end when it is shorter, never past its break |
| TextLines.DownTargetOnNextLine | src/ui.rs:210-217 | moving down stays put on the last line; otherwise it lands on the next line at the same column, or at that line's end when it is shorter |
| TextField.Utf8Width | src/ui.rs:228-231 | every character takes 1 to 4 bytes, and exactly the ASCII ones take 1 |
| TextField.OffsetOrder | src/ui.rs:173-238 | byte offsets strictly increase with the character position, so each boundary names one position |
| TextField.InsertThenDelete | src/ui.rs:219-231 | deleting the character just inserted restores the buffer, and the insertion advances the cursor by that character's width |
| TextField.PrevGrapheme | src/ui.rs:1779-1791 | the previous boundary before the cursor, or 0 at the start of the buffer; from a boundary it steps back exactly one character |
| TextField.NextGrapheme | src/ui.rs:1793-1803 | the next boundary after the cursor, or the end of the buffer; from a boundary it steps forward exactly one character |
| TextField.BreakOffsetsOfLineStarts | src/ui.rs:1806-1811 | what the first loop has collected after each prefix is the byte offsets of that prefix's line starts |
| TextField.ByteStarts | src/ui.rs:1806-1811 | the first loop collects exactly the byte offsets of all line starts |
| TextField.LastStartAtOrBefore | src/ui.rs:1812-1819 | the second loop finds the last line start at or before the cursor |
| TextField.LineState | src/ui.rs:1805-1824 | `line_state` returns the line starts, the index of the cursor's line and the cursor's column in characters |
| TextField.IndexAtCol | src/ui.rs:1830-1844 | the byte offset of the given character column on a line, or of the line's end when the line is shorter |
| TextField.UpViaLineStarts | src/ui.rs:201-208 | reading `line_state` as `move_up` does lands on the reference target one line up |
| TextField.DownViaLineStarts | src/ui.rs:210-217 | reading `line_state` as `move_down` does lands on the reference target one line down |
| TextField.UpCursor | src/ui.rs:201-208 | the new cursor of `move_up` is the boundary of the reference target one line up |
| TextField.DownCursor | src/ui.rs:210-217 | the new cursor of `move_down` is the boundary of the reference target one line down |
| TextField.FieldValue.constructor | src/ui.rs:180-185 | a new field holds the text with the cursor on the boundary at its end |
| TextField.FieldValue.MoveLeft | src/ui.rs:187-192 | one character left, or no move at the start; the text is kept and the cursor stays on a boundary |
| TextField.FieldValue.MoveRight | src/ui.rs:194-199 | one character right, or no move at the end; the text is kept and the cursor stays on a boundary |
| TextField.FieldValue.MoveUp | src/ui.rs:201-208 | the cursor moves to the reference target one line up, on a boundary |
| TextField.FieldValue.MoveDown | src/ui.rs:210-217 | the cursor moves to the reference target one line down, on a boundary |
| TextField.FieldValue.Backspace | src/ui.rs:219-226 | no change at the start; otherwise exactly the character before the cursor is removed and the cursor steps back over it |
| TextField.FieldValue.InsertChar | src/ui.rs:228-231 | the character is inserted at the cursor, which advances by its UTF-8 width |
| TextField.FieldValue.WithCaret | src/ui.rs:233-237 | the display text is the buffer with the caret inserted at the cursor |
| TextField.InsertThenBackspace | src/ui.rs:219-231 | inserting any character and pressing Backspace restores both the buffer and the byte cursor |
| TagList.TrimStart | src/ui.rs:1540-1543 | the suffix left after dropping leading white space, starting with a character that is not white space |
| TagList.TrimEnd | src/ui.rs:1540-1543 | the prefix left after dropping trailing white space, ending with a character that is not white space |
| TagList.TrimEmptyIff | src/ui.rs:1540-1543 | the trimmed text is empty exactly when the text is all white space |
| TagList.TrimIsInnerSlice | src/ui.rs:1540-1543 | the trim is the inner slice between white-space ends |
| TagList.TrimIdempotent | src/ui.rs:1540-1543 | trimming twice is trimming once |
| TagList.Split | src/ui.rs:1710-1716 | the pieces between separators contain no separator, and there is at least one piece |
| TagList.ParseTags | src/ui.rs:1710-1716 | no tag is empty or contains white space or a comma |
| TagList.ParseTagsIsTokens | src/ui.rs:1710-1716 | the tags are exactly the maximal non-empty runs of characters that are neither white space nor ',', in input order |
| TagList.ParseTagsKeepsLetters | src/ui.rs:1710-1716 | the tags together spell the input with its separators removed |
| TagList.ParseJoinedTags | src/ui.rs:1620-1628 | tags joined with spaces, as the edit form shows them, parse back to the same tags when none is empty or holds a separator |
| Form.NextPrevInverse | src/ui.rs:1630-1646 | `prev_field` undoes `next_field` and the other way round |
| Form.FieldCycle | src/ui.rs:1630-1646 | Tab visits Title, Body, Tags, Due and returns after four presses, and no shorter walk returns |
| Form.NewField | src/ui.rs:180-185 | a new field's cursor is the boundary at the end of its text |
| Form.WithField | src/ui.rs:1648-1655 | replacing one field leaves the other fields and the focus alone |
| Form.EditField | src/ui.rs:493-531 | an editing key keeps the field's cursor on a boundary |
| Form.FormKey | src/ui.rs:493-531 | Esc cancels exactly; Enter submits exactly when Ctrl is held or the body is not focused; cancel and submit leave the form as it is; Tab and Shift-Tab move the focus; no key touches a field other than the focused one |
| Form.EnterInBody | src/ui.rs:511-518 | Enter without Ctrl in the body inserts a line break at the cursor and keeps the form open |
| Form.ModifiedCharIgnored | src/ui.rs:520-527 | a character typed with Ctrl or Alt held changes nothing |
| Form.TypeThenBackspace | src/ui.rs:520-527 | typing a character and pressing Backspace restores the form |
| Form.SubmittedTitle | src/ui.rs:1540-1543 | a title that is only white space is refused; otherwise the trimmed, non-empty title is used |
| Form.SubmittedBody | src/ui.rs:1549-1553 | a blank body is stored as none; otherwise the body is kept as typed |
| Form.ParseDue | src/ui.rs:1700-1708 | a blank field means no due date; other text is trimmed and parsed, and a parse failure is an error |
| Form.EditFormRoundTrip | src/ui.rs:1620-1628 | opening a note in the edit form and submitting it untouched gives back its title, body and tags when they are already in normal form |
| Form.NoteForm.New | src/ui.rs:1610-1618 | a new form has four distinct empty fields and the title focused |
| Form.NoteForm.FromNote | src/ui.rs:1620-1628 | an edit form holds the note's title, body, space-joined tags and formatted due date, with the title focused |
| Form.NoteForm.NextField | src/ui.rs:1630-1637 | the focus moves to the next field and the field objects are kept |
| Form.NoteForm.PrevField | src/ui.rs:1639-1646 | the focus moves to the previous field and the field objects are kept |
| Form.NoteForm.HandleKey | src/ui.rs:493-531 | the form's new state and the reported outcome are exactly what `FormKey` gives |
| Form.NoteForm.EditActive | src/ui.rs:493-531 | only the focused field changes, as `EditField` says |
| Form.ApplyKey | src/ui.rs:493-531 | each editing key calls the matching `FieldValue` method, as `EditField` says |
| Order.StrLeTotal | src/ui.rs:1447-1471 | any two strings are ordered one way or the other |
| Order.StrLeTrans | src/ui.rs:1447-1471 | the string order is transitive |
| Order.StrLeAntisym | src/ui.rs:1447-1471 | strings ordered both ways are equal |
| Order.Least | src/ui.rs:1447-1463 | every non-empty set of tag names has a least element |
| Order.InsertSorted | src/ui.rs:1465-1469 | inserting into a sorted list gives a sorted list with exactly one more element |
| Order.SortByKey | src/ui.rs:1465-1469 | the result is sorted by the key and is a permutation of the input |
| Views.TimelineLists | src/ui.rs:1394-1409 | every note lands exactly once in one list, chosen by whether it has a due date; the unassigned list is sorted by (creation time, lowercase title) and the assigned list by (due time, lowercase title) |
| Views.PartitionByDue | src/ui.rs:1394-1409 | the loop puts each note exactly once into the list for its kind, and nothing else |
| Views.TimelineMembership | src/ui.rs:1394-1409 | a note is in the assigned list exactly when it has a due date, and in the unassigned list otherwise; every entry is a board note |
| Views.TimelineViewUnique | src/ui.rs:1394-1409 | whatever order the map is walked in, the two lists hold the same notes |
| Views.FirstDueOnCursor | src/ui.rs:1439-1445 | the first row of the assigned list due on the cursor's day, or none exactly when no row is due that day |
| Views.WeightPositive | src/ui.rs:1449-1463 | a note goes into a bucket exactly when the bucket is one of its tags, or "(untagged)" for a note without tags |
| Views.Push | src/ui.rs:1449-1463 | `entry(tag).or_default().push` adds one copy of the entry to exactly that bucket |
| Views.AddNoteToBuckets | src/ui.rs:1449-1463 | a note is pushed once per occurrence of each of its tags, or once into "(untagged)" |
| Views.PushEach | src/ui.rs:1449-1463 | the inner loop pushes the entry once per listed tag |
| Views.CollectBuckets | src/ui.rs:1449-1463 | the bucket loop builds, for every bucket name, exactly the notes that carry it, once per occurrence |
| Views.BucketFacts | src/ui.rs:1449-1463 | every bucket is a tag of some note, is not empty, and holds each board note as often as it carries the tag |
| Views.SortedNames | src/ui.rs:1465-1469 | the bucket names in `BTreeMap` order: strictly ascending, exactly the keys |
| Views.SortedBucketsAreView | src/ui.rs:1465-1469 | the buckets walked in ascending name order, each sorted, make the projection |
| Views.ProjectTags | src/ui.rs:1447-1471 | one pair per bucket in strictly ascending tag order; each bucket holds every note once per occurrence of its tag (untagged notes once in "(untagged)") and nothing else, sorted by (update time, lowercase title) |
| Views.ProjectViewUnique | src/ui.rs:1447-1471 | whatever order the map is walked in, the projection has the same tags in the same order with the same notes in each bucket |
| Views.AscendingUnique | src/ui.rs:1465-1469 | two strictly ascending lists of the same names are equal |
| App.CheckForm | src/ui.rs:1539-1597 | a blank title is refused first, then an unparsable due date; otherwise the submission is the trimmed title, the body unless blank, the parsed tags and the due date |
| App.ViewOfKey | src/ui.rs:288-299 | the keys that pick a view are handled by `handle_normal_key` itself |
| App.App.constructor | src/ui.rs:241-258 | a new app browses the board view with the first row of the first column selected, fresh view states and no saves |
| App.App.PrevColumn | src/ui.rs:1253-1258 | one column left with the row reset to 0, or nothing at the first column |
| App.App.NextColumn | src/ui.rs:1260-1265 | one column right with the row reset to 0, or nothing at the last column; never past the last column |
| App.App.PrevNote | src/ui.rs:1267-1271 | one row up, staying at the first row |
| App.App.NextNote | src/ui.rs:1273-1279 | one row down, never past the last row of the selected column |
| App.App.CurrentNote | src/ui.rs:1354-1385 | the note the active view selects, always a note of the board |
| App.App.EnsureTimelineBounds | src/ui.rs:1473-1504 | the timeline state is re-clamped to the current lists and nothing else changes |
| App.App.EnsureProjectBounds | src/ui.rs:1506-1527 | the project state is re-clamped to the current tag list and nothing else changes |
| App.App.Persist | src/ui.rs:1599-1606 | one save, then both view states re-clamped; the selection, mode and view are kept |
| App.App.SetView | src/ui.rs:484-491 | the view is switched and both view states re-clamped, without a save |
| App.App.MoveToColumn | src/ui.rs:1310-1337 | without a selected note nothing happens; a destination past the last column is refused; otherwise the board does `MoveNoteSpec` to the destination's id, and on success the selection follows the note to the last row of the destination; the board's name is kept |
| App.App.ApplyMove | src/ui.rs:1328-1336 | the board does the move, and the selection follows the note exactly when it succeeds; the board's name is kept |
| App.App.MoveOnBoard | src/ui.rs:1328 | the board does `MoveNoteSpec` and keeps its column count and its name |
| App.App.MoveSelected | src/ui.rs:1281-1308 | `MoveEffect`: in the board view, with no columns, no selected note, or a clamped destination equal to the current column, nothing changes; otherwise the board does `MoveNoteSpec` of the selected note to the clamped destination; a successful move saves, re-clamps both view states and selects the last row of the destination; a refused move changes nothing |
| App.App.DeleteNote | src/ui.rs:1339-1352 | the board changes as `DeleteNoteSpec` says; a failure keeps the row; on success the row is clamped to the length of the column the note left; the board's name is kept |
| App.App.CreateNoteFromForm | src/ui.rs:1539-1567 | `CreateFormEffect`: a blank title, then a missing selected column, then an unparsable due date are refused and change nothing; otherwise the new note goes into the selected column through `AddNoteSpec`; a refusal changes nothing, and a success selects its last row, saves and re-clamps both view states |
| App.App.ApplyCreate | src/ui.rs:1555-1565 | `add_note` into the selected column; on success the last row is selected and the board saved, and on failure nothing changes; the board's name is kept |
| App.App.AddOnBoard | src/ui.rs:1556-1558 | the board does `AddNoteSpec` and keeps its column count and its name |
| App.App.EditNoteFromForm | src/ui.rs:1569-1597 | `EditFormEffect`: a blank title, then an unparsable due date are refused and change nothing; otherwise the note's title, body, tags and due date are overwritten and stamped through `UpdateNoteSpec`; the selection is kept, a refusal changes nothing, and a success saves and re-clamps both view states |
| App.App.ApplyEdit | src/ui.rs:1586-1596 | `update_note` with the overwriting mutator, then a save exactly on success; the board's name is kept |
| App.App.UpdateOnBoard | src/ui.rs:1586-1593 | the board does `UpdateNoteSpec` and keeps its columns and its name |
| App.App.HandleBoardKey | src/ui.rs:342-353 | `BoardKeyEffect`: the arrows and h, l change column, back to the first row and not past either end; k, j change row within the column; m, > and b, < are `MoveEffect` one column right or left, including its save and selection; every other key changes nothing |
| App.App.HandleTimelineKey | src/ui.rs:355-405 | the state becomes `TimelineKey` of the key, with the Enter target looked up in the current lists, then re-clamped; nothing else changes |
| App.App.HandleProjectKey | src/ui.rs:407-441 | the state becomes `ProjectKey` of the key, then re-clamped; nothing else changes |
| App.App.HandleConfirmKey | src/ui.rs:461-482 | `ConfirmEffect`: y or Enter deletes the note as `DeleteNoteSpec` says and, when that succeeds, clamps the selected row to the column the note left, saves and re-clamps both view states, and a refused deletion changes nothing; y, Enter, n and Esc return to browsing; any other key changes nothing |
| App.App.HandleFormKey | src/ui.rs:443-459 | the form takes the key as `FormKey` says; Esc closes it; a submission closes it exactly when the create or edit succeeds and otherwise keeps it unchanged; `FormOutcomeEffect`: a submission has the whole `CreateFormEffect` or `EditFormEffect`, including the save and the new selection, and any other key leaves the rest of the app as it was |
| App.App.FinishFormKey | src/ui.rs:443-459 | after the form has taken the key: cancel closes the form, a plain key keeps it, and both leave the rest of the app as it was; a submission has the whole create or edit effect and closes the form exactly when it succeeds |
| App.App.SubmitCreate | src/ui.rs:533-552 | the whole `CreateFormEffect`, with the form closed exactly when the note is created |
| App.App.SubmitEdit | src/ui.rs:533-552 | the whole `EditFormEffect`, with the form closed exactly when the note is updated |
| App.App.HandleNormalKey | src/ui.rs:285-340 | q quits and nothing else does; `NormalKeyEffect`: 1, 2, 3 switch the view and re-clamp, the other commands leave the rest of the app as it was, and any other key is `ViewKeyEffect`; n opens an empty create form; e opens an edit form on the current note and d asks to delete it, both keeping browsing without one |
| App.App.OpenOnCurrent | src/ui.rs:306-331 | an edit form on the current note, or a delete confirmation for it; browsing continues when there is no current note |
| App.App.HandleViewKey | src/ui.rs:335-339 | `ViewKeyEffect`: the board view has the whole `BoardKeyEffect`; the timeline view changes only the timeline state, by `TimelineKey` with the Enter target and a re-clamp; the project view changes only the project state, by `ProjectKey` and a re-clamp |
| App.App.HandleKey | src/ui.rs:277-283 | the loop ends exactly on q while browsing; no key renames the board; while browsing, the whole effect of `HandleNormalKey` on the app and its mode; with a form open, the whole effect of `HandleFormKey`; while a deletion waits, `ConfirmEffect` and the return to browsing |

## Left out

- The status line: every message the handlers write to `status` is display text.
- Saving: `save_board` is file I/O. `persist` is modelled as a successful save counted in `saves`, followed by the re-clamping. A failed save, and the `?` that would return it from a handler, are not modelled.
- `last_save`, the per-column `scroll_offsets`, all drawing, the event loop and the terminal setup: rendering and I/O.
- `src/storage.rs`, `src/commands.rs`, `src/cli.rs` and `src/main.rs`: file I/O, YAML, argument parsing and printing around the same primitives.
- `generate_id`: its randomness is replaced by the id `Env.newId`.
- chrono: `Utc::now`, `parse_from_str` and `format_due` are the parameters `now`, `Env.parseDue` and `Env.formatDue`. A day is a time divided by 86400. `days_in_month` is display-only, and the earliest-due day `TimelineState::new` picks is the constructor's `cursor` argument.
- `notes_due_on` and `timeline_due_counts`: they only feed the calendar drawing.
- AppState.ShiftCalendar: chrono's `checked_add_signed` overflow, where the cursor stays put, is not modelled, because day numbers are unbounded integers.
- App.App.MoveSelected: states its effect only for the board view, the only view whose handler calls it. The `isize` arithmetic of the clamp is written on unbounded integers, because no board has 2^63 columns.
- Order.Lower: `str::to_lowercase` is modelled on ASCII letters only, because full Unicode case mapping is table-driven. It only decides the order of notes with equal times.
- Order.SortByKey: does not state stability. The source sorts lists built from a `HashMap` walk, so the order among equal keys is unspecified either way.
- Model.EnsureWip: the exact "fails iff at the limit" holds for columns with fewer than 2^32 ids. The source compares `len() as u32`, which the model truncates as written.
- Model.AddNoteSpec: the `WipLimitReached` case is stated for destination columns with fewer than 2^32 ids, for the same truncation.
- Model.MoveNoteSpec: the `WipLimitReached` case is stated for destination columns with fewer than 2^32 ids, for the same truncation.
- Model.MoveNoteIdempotent: `move_note` twice equals once only under exclusive placement. An id listed by two columns is moved again from the second one, as `MoveTwiceNeedsExclusive` shows.
- Viewport.AdjustOffsetKeepsMargin: stated only for a viewport taller than twice the margin, because otherwise the margins above and below overlap.
- Viewport.AdjustOffsetIdempotent: stated only for a viewport taller than twice the margin, for the same reason.
- AppState.DeletePreservesIntegrity: needs exclusive placement, which `delete_note` assumes. `DeleteNeedsExclusive` shows that without it a deleted id can stay listed.
