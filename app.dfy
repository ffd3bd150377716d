/**
 * `App` of src/ui.rs without its terminal: the board it edits, the board
 * selection, the interaction mode (browsing, a create or edit form, a
 * delete confirmation), the active view with the timeline and project
 * selection states, and the key handlers that drive them. Saving the board
 * is counted in `saves`; the status line and the per-column scroll offsets
 * are not modelled.
 */
module App {
  import opened Wrappers
  import opened Model
  import opened Views
  import opened AppState
  import opened Keys
  import Form
  import TagList

  /** `Mode`; the forms are the `NoteForm` objects the handlers edit in place. */
  datatype Mode =
    | Normal
    | Creating(form: Form.NoteForm)
    | Editing(noteId: NoteId, form: Form.NoteForm)
    | ConfirmDelete(noteId: NoteId)

  predicate HasForm(m: Mode) {
    m.Creating? || m.Editing?
  }

  /** The objects of the open form, if any. */
  ghost function FormRepr(m: Mode): set<object>
    reads if HasForm(m) then {m.form} else {}
  {
    if HasForm(m) then {m.form, m.form.title, m.form.body, m.form.tags, m.form.due} else {}
  }

  /** The `anyhow` errors the handlers report in the status line. */
  datatype AppError =
    | UnknownDestination
    | NoteMissing(noteId: NoteId)
    | TitleRequired
    | NoColumnForNote
    | InvalidDue
    | BoardFailed(error: BoardError)

  datatype AppResult = Done | Failed(error: AppError)

  /**
   * What the handlers take from outside: the clock (`Utc::now`), the id
   * `generate_id` would draw, and chrono's due-date parser and formatter.
   */
  datatype Env = Env(now: int, newId: NoteId, parseDue: seq<char> -> Option<int>, formatDue: int -> seq<char>)

  /** A form's fields after the submission checks of `create_note_from_form` and `edit_note_from_form`. */
  datatype Submission = Submission(title: seq<char>, body: Option<seq<char>>, tags: seq<seq<char>>, due: Option<int>)

  datatype FormCheck = Checked(sub: Submission) | Rejected(error: AppError)

  /**
   * The checks both submissions make, in order: a blank title is refused
   * ("title is required"), then a due date that does not parse; otherwise
   * the trimmed title, the body unless blank, the parsed tags and the due
   * date.
   */
  function CheckForm(title: seq<char>, body: seq<char>, tags: seq<char>, due: seq<char>,
                     parseDue: seq<char> -> Option<int>): (r: FormCheck)
    ensures r == Rejected(TitleRequired) <==> TagList.AllWhitespace(title)
    ensures r == Rejected(InvalidDue) <==>
      !TagList.AllWhitespace(title) && Form.ParseDue(due, parseDue) == Form.DueInvalid
    ensures r.Rejected? ==> r.error == TitleRequired || r.error == InvalidDue
    ensures r.Checked? ==>
      && r.sub.title == TagList.Trim(title) && r.sub.title != []
      && r.sub.tags == TagList.ParseTags(tags)
      && r.sub.body == Form.SubmittedBody(body)
      && Form.ParseDue(due, parseDue) == Form.DueOk(r.sub.due)
  {
    match Form.SubmittedTitle(title)
    case None => Rejected(TitleRequired)
    case Some(t) =>
      match Form.ParseDue(due, parseDue)
      case DueInvalid => Rejected(InvalidDue)
      case DueOk(d) => Checked(Submission(t, Form.SubmittedBody(body), TagList.ParseTags(tags), d))
  }

  /** The mutator `edit_note_from_form` hands to `update_note`. */
  function Overwrite(sub: Submission): Note -> Note {
    (n: Note) => n.(title := sub.title, body := sub.body, tags := sub.tags, due := sub.due)
  }

  /**
   * What `create_note_from_form` does to the board `s0`, giving `s1`, with
   * `column` selected: a blank title, then a missing column, then a due date
   * that does not parse are refused and change nothing; otherwise the board
   * adds the new note to the column and its refusal is passed on.
   */
  ghost predicate CreateEffect(s0: State, s1: State, column: nat, title: seq<char>, body: seq<char>, tags: seq<char>,
                               due: seq<char>, env: Env, r: AppResult) {
    if TagList.AllWhitespace(title) then r == Failed(TitleRequired) && s1 == s0
    else if column >= |s0.columns| then r == Failed(NoColumnForNote) && s1 == s0
    else match CheckForm(title, body, tags, due, env.parseDue)
      case Rejected(e) => r == Failed(e) && s1 == s0
      case Checked(sub) =>
        && (r.Failed? ==> r.error.BoardFailed?)
        && Step(BoardOutcome(r), s1) ==
             AddNoteSpec(s0, NewNote(env.newId, sub.title, sub.body, sub.tags, sub.due, env.now), s0.columns[column].id)
  }

  /**
   * What `edit_note_from_form` does to the board `s0`, giving `s1`: the
   * checks refuse and change nothing, or the board overwrites the note's
   * fields and its refusal is passed on.
   */
  ghost predicate EditEffect(s0: State, s1: State, noteId: NoteId, title: seq<char>, body: seq<char>, tags: seq<char>,
                             due: seq<char>, env: Env, r: AppResult) {
    match CheckForm(title, body, tags, due, env.parseDue)
    case Rejected(e) => r == Failed(e) && s1 == s0
    case Checked(sub) =>
      && (r.Failed? ==> r.error.BoardFailed?)
      && Step(BoardOutcome(r), s1) == UpdateNoteSpec(s0, noteId, Overwrite(sub), env.now)
  }

  /** `after` is `before` clamped to the timeline lists of `notes` at time `now`. */
  ghost predicate TimelineReclamped(notes: map<NoteId, Note>, now: int, before: TimelineState, after: TimelineState) {
    exists u, a :: IsTimelineView(notes, now, u, a) && after == ClampTimeline(before, |u|, |a|)
  }

  /** `after` is `before` clamped to the project buckets of `notes`. */
  ghost predicate ProjectReclamped(notes: map<NoteId, Note>, before: ProjectState, after: ProjectState) {
    exists tags :: IsProjectView(notes, tags) && after == ClampProject(before, tags)
  }

  /** `f` is what `first_due_on_cursor` returns for the assigned list `a` and day `cursor`. */
  ghost predicate IsFirstDue(a: seq<Entry>, cursor: int, f: Option<nat>) {
    && (f.Some? ==> f.value < |a| && DueOn(a[f.value], cursor) && forall i | 0 <= i < f.value :: !DueOn(a[i], cursor))
    && (f.None? ==> forall i | 0 <= i < |a| :: !DueOn(a[i], cursor))
  }

  /**
   * The `first_due_on_cursor` result `handle_timeline_key` reads for `key`:
   * computed from the current lists for Enter on the calendar, unused
   * (taken as nothing) for every other key.
   */
  ghost predicate EnterTarget(notes: map<NoteId, Note>, now: int, t: TimelineState, key: Key, f: Option<nat>) {
    if key.Enter? && t.focus == Calendar then
      exists u, a :: IsTimelineView(notes, now, u, a) && IsFirstDue(a, t.calendarCursor, f)
    else f.None?
  }

  /** The keys that confirm a deletion. */
  predicate IsConfirm(key: Key) {
    (key.Char? && key.c == 'y') || key.Enter?
  }

  /** The keys that cancel a deletion. */
  predicate IsCancel(key: Key) {
    (key.Char? && key.c == 'n') || key == Esc
  }

  /** The keys `handle_board_key` moves the selected note with. */
  predicate IsMoveKey(key: Key) {
    key.Char? && (key.c == 'm' || key.c == '>' || key.c == 'b' || key.c == '<')
  }

  /** The column step of a move key: `m` and `>` go right, `b` and `<` left. */
  function MoveDelta(key: Key): int {
    if key.Char? && (key.c == 'm' || key.c == '>') then 1 else -1
  }

  /** The keys `handle_normal_key` handles itself, whatever the view. */
  predicate IsCommand(key: Key) {
    key.Char? && (key.c == 'q' || key.c == '1' || key.c == '2' || key.c == '3' ||
                  key.c == 'n' || key.c == 'e' || key.c == 'd')
  }

  /** The view `1`, `2` and `3` switch to. */
  function ViewOfKey(key: Key): (r: Option<ViewMode>)
    ensures r.Some? ==> IsCommand(key)
  {
    if key.Char? && key.c == '1' then Some(BoardView)
    else if key.Char? && key.c == '2' then Some(TimelineView)
    else if key.Char? && key.c == '3' then Some(ProjectView)
    else None
  }

  /**
   * `r` is what `current_note` returns at time `now` on the board `s`: the
   * board selection in the board view, the selected row of the focused list
   * in the timeline view, and the selected note of the selected tag in the
   * project view.
   */
  ghost predicate CurrentNoteOf(s: State, view: ViewMode, column: nat, row: nat, t: TimelineState, p: ProjectState,
                                now: int, r: Option<Entry>) {
    && (view == BoardView ==> r == BoardSelection(s, column, row))
    && (view == TimelineView ==> exists u, a :: IsTimelineView(s.notes, now, u, a) && r == TimelineSelection(t, u, a))
    && (view == ProjectView ==> exists tags :: IsProjectView(s.notes, tags) && r == ProjectSelection(p, tags))
  }

  /** The board's own result inside an `AppResult`. */
  function BoardOutcome(r: AppResult): Outcome {
    if r.Failed? && r.error.BoardFailed? then Err(r.error.error) else Ok
  }

  /**
   * All of the app but its mode: the board's name and state, the board
   * selection, the view with its timeline and project states, and the save
   * count.
   */
  datatype AppSnapshot = AppSnapshot(boardName: seq<char>, board: State, column: nat, row: nat, view: ViewMode,
                                     timeline: TimelineState, project: ProjectState, saves: nat)

  /** `b` differs from `a` at most in the board selection. */
  ghost predicate SelectionOnly(a: AppSnapshot, b: AppSnapshot) {
    b == a.(column := b.column, row := b.row)
  }

  /** `persist` after a board change: one more save, both view states re-clamped to the notes of `b`. */
  ghost predicate Saved(a: AppSnapshot, b: AppSnapshot, now: int) {
    && b.saves == a.saves + 1
    && TimelineReclamped(b.board.notes, now, a.timeline, b.timeline)
    && ProjectReclamped(b.board.notes, a.project, b.project)
  }

  /**
   * `move_selected` in the board view, from `a` to `b`: without columns,
   * without a selected note, or when the clamped destination is the
   * current column nothing changes; otherwise the selected note is moved
   * to the destination column, and a successful move saves the board and
   * selects the note on the destination's last row, while a refused one
   * changes nothing. Outside the board view only the view and the board's
   * name are kept.
   */
  ghost predicate MoveEffect(a: AppSnapshot, b: AppSnapshot, delta: int, now: int) {
    var cols := a.board.columns;
    if a.view != BoardView then b.view == a.view && b.boardName == a.boardName
    else if |cols| == 0 || BoardSelection(a.board, a.column, a.row).None? || MoveTarget(a.column, delta, |cols|) == a.column then
      b == a
    else
      var target := MoveTarget(a.column, delta, |cols|);
      var step := MoveNoteSpec(a.board, BoardSelection(a.board, a.column, a.row).value.id, cols[target].id, now);
      && b.boardName == a.boardName && b.board == step.state && b.view == a.view
      && (step.outcome.Ok? ==>
            && Saved(a, b, now) && b.column == target
            && target < |b.board.columns| && b.row == LastRow(|b.board.columns[target].noteIds|))
      && (step.outcome.Err? ==> b == a)
  }

  /**
   * `handle_board_key` from `a` to `b`: the arrows and `h`/`l` change
   * column (back to the first row, nothing at the edge), `k`/`j` change
   * row (never past the first or last), the move keys are `MoveEffect`,
   * and every other key changes nothing.
   */
  ghost predicate BoardKeyEffect(a: AppSnapshot, b: AppSnapshot, key: Key, now: int) {
    var cols := a.board.columns;
    if IsLeft(key) then
      && SelectionOnly(a, b)
      && (if a.column > 0 then b.column == a.column - 1 && b.row == 0 else b.column == a.column && b.row == a.row)
    else if IsRight(key) then
      && SelectionOnly(a, b)
      && (if a.column + 1 < |cols| then b.column == a.column + 1 && b.row == 0 else b.column == a.column && b.row == a.row)
    else if IsUp(key) then
      SelectionOnly(a, b) && b.column == a.column && b.row == RowUp(a.row)
    else if IsDown(key) then
      && SelectionOnly(a, b) && b.column == a.column
      && b.row == (if a.column < |cols| && a.row + 1 < |cols[a.column].noteIds| then a.row + 1 else a.row)
    else if IsMoveKey(key) then
      MoveEffect(a, b, MoveDelta(key), now)
    else
      b == a
  }

  /**
   * The key going to the active view's handler, from `a` to `b`: the
   * board view's `BoardKeyEffect`; in the timeline view only the timeline
   * state changes, by the key's `TimelineKey` transition and a re-clamp; in
   * the project view only the project state, by `ProjectKey` and a
   * re-clamp.
   */
  ghost predicate ViewKeyEffect(a: AppSnapshot, b: AppSnapshot, key: Key, now: int) {
    match a.view
    case BoardView => BoardKeyEffect(a, b, key, now)
    case TimelineView =>
      && b == a.(timeline := b.timeline)
      && exists f :: EnterTarget(a.board.notes, now, a.timeline, key, f) &&
                     TimelineReclamped(a.board.notes, now, TimelineKey(a.timeline, key, f), b.timeline)
    case ProjectView =>
      b == a.(project := b.project) && ProjectReclamped(a.board.notes, ProjectKey(a.project, key), b.project)
  }

  /**
   * `handle_normal_key` from `a` to `b`, apart from the mode: `1`, `2` and
   * `3` switch the view and re-clamp both view states, the other commands
   * change nothing here, and every other key is `ViewKeyEffect`.
   */
  ghost predicate NormalKeyEffect(a: AppSnapshot, b: AppSnapshot, key: Key, now: int) {
    match ViewOfKey(key)
    case Some(v) =>
      && b == a.(view := v, timeline := b.timeline, project := b.project)
      && TimelineReclamped(a.board.notes, now, a.timeline, b.timeline)
      && ProjectReclamped(a.board.notes, a.project, b.project)
    case None =>
      if IsCommand(key) then b == a else ViewKeyEffect(a, b, key, now)
  }

  /**
   * `handle_confirm_key` from `a` to `b` while `noteId` waits for deletion,
   * apart from the mode: a confirming key deletes the note, and when that
   * succeeds the selected row is clamped to the column it left and the
   * board is saved; a refused deletion and every other key change nothing.
   */
  ghost predicate ConfirmEffect(a: AppSnapshot, b: AppSnapshot, noteId: NoteId, key: Key, now: int) {
    var step := DeleteNoteSpec(a.board, noteId);
    if IsConfirm(key) && step.outcome.Ok? then
      && b.boardName == a.boardName && b.board == step.state && b.view == a.view && b.column == a.column
      && Saved(a, b, now)
      && forall i | IsFirstHolder(a.board.columns, noteId, i) ::
           i < |b.board.columns| && b.row == ClampIndex(a.row, |b.board.columns[i].noteIds|)
    else
      b == a
  }

  /**
   * `create_note_from_form` from `a` to `b`: the board change is
   * `CreateEffect` on the selected column; a failure changes nothing else,
   * and a success saves the board and selects the new last row.
   */
  ghost predicate CreateFormEffect(a: AppSnapshot, b: AppSnapshot, title: seq<char>, body: seq<char>, tags: seq<char>,
                                   due: seq<char>, env: Env, r: AppResult) {
    && CreateEffect(a.board, b.board, a.column, title, body, tags, due, env, r)
    && b.boardName == a.boardName && b.view == a.view && b.column == a.column
    && (r.Failed? ==> b == a)
    && (r.Done? ==>
          Saved(a, b, env.now) && b.column < |b.board.columns| && b.row == LastRow(|b.board.columns[b.column].noteIds|))
  }

  /**
   * `edit_note_from_form` from `a` to `b`: the board change is `EditEffect`;
   * the selection is kept, a failure changes nothing else, and a success
   * saves the board.
   */
  ghost predicate EditFormEffect(a: AppSnapshot, b: AppSnapshot, noteId: NoteId, title: seq<char>, body: seq<char>,
                                 tags: seq<char>, due: seq<char>, env: Env, r: AppResult) {
    && EditEffect(a.board, b.board, noteId, title, body, tags, due, env, r)
    && b.boardName == a.boardName && b.view == a.view && b.column == a.column && b.row == a.row
    && (r.Failed? ==> b == a)
    && (r.Done? ==> Saved(a, b, env.now))
  }

  /**
   * The rest of `handle_form_key` from `a` to `b` once the form `f` of
   * mode `m` has given `outcome`: a submission is the create or the edit on
   * the form's texts, and any other outcome changes nothing.
   */
  ghost predicate FormOutcomeEffect(a: AppSnapshot, b: AppSnapshot, m: Mode, f: Form.FormState,
                                    outcome: Form.FormOutcome, env: Env, r: AppResult) {
    if outcome != Form.Submit then r == Done && b == a
    else if m.Creating? then
      CreateFormEffect(a, b, f.title.value, f.body.value, f.tags.value, f.due.value, env, r)
    else
      m.Editing? && EditFormEffect(a, b, m.noteId, f.title.value, f.body.value, f.tags.value, f.due.value, env, r)
  }

  class App {
    const board: Board
    var selectedColumn: nat
    var selectedNote: nat
    var mode: Mode
    var view: ViewMode
    var timeline: TimelineState
    var project: ProjectState
    /** How often `persist` has saved the board. */
    var saves: nat

    /** The selected column exists, or there are no columns and it is 0. */
    ghost predicate SelectionOk()
      reads this, board
    {
      selectedColumn < |board.columns| || selectedColumn == 0
    }

    /** The selection is valid and an open form is well formed. */
    ghost predicate Valid()
      reads this, board, (if HasForm(mode) then {mode.form} else {}), FormRepr(mode)
    {
      SelectionOk() && (HasForm(mode) ==> mode.form.Valid())
    }

    /** The id at the selected row of the selected column, when there is one. */
    ghost function SelectedId(): Option<NoteId>
      reads this, board
    {
      if selectedColumn < |board.columns| && selectedNote < |board.columns[selectedColumn].noteIds| then
        Some(board.columns[selectedColumn].noteIds[selectedNote])
      else None
    }

    /** The app apart from its mode. */
    ghost function Snapshot(): AppSnapshot
      reads this, board
    {
      AppSnapshot(board.name, board.Snapshot(), selectedColumn, selectedNote, view, timeline, project, saves)
    }

    /** `r` is what `current_note` returns at time `now`. */
    ghost predicate IsCurrentNote(now: int, r: Option<Entry>)
      reads this, board
    {
      CurrentNoteOf(board.Snapshot(), view, selectedColumn, selectedNote, timeline, project, now, r)
    }

    /** `App::new`, with the calendar's starting day given. */
    constructor (board: Board, cursor: int)
      ensures Valid() && this.board == board
      ensures selectedColumn == 0 && selectedNote == 0 && mode == Normal && view == BoardView
      ensures timeline == NewTimeline(cursor) && project == NewProject() && saves == 0
    {
      this.board := board;
      selectedColumn, selectedNote := 0, 0;
      mode := Normal;
      view := BoardView;
      timeline := NewTimeline(cursor);
      project := NewProject();
      saves := 0;
    }

    /** `prev_column`: one column left, back to the first row; nothing at the first column. */
    method PrevColumn()
      requires SelectionOk()
      modifies this
      ensures SelectionOk() && mode == old(mode) && view == old(view) && saves == old(saves)
      ensures timeline == old(timeline) && project == old(project)
      ensures old(selectedColumn) > 0 ==> selectedColumn == old(selectedColumn) - 1 && selectedNote == 0
      ensures old(selectedColumn) == 0 ==> selectedColumn == 0 && selectedNote == old(selectedNote)
    {
      if selectedColumn > 0 {
        selectedColumn := selectedColumn - 1;
        selectedNote := 0;
      }
    }

    /** `next_column`: one column right, back to the first row; nothing at the last column. */
    method NextColumn()
      requires SelectionOk()
      modifies this
      ensures SelectionOk() && mode == old(mode) && view == old(view) && saves == old(saves)
      ensures timeline == old(timeline) && project == old(project)
      ensures old(selectedColumn) + 1 < |board.columns| ==>
        selectedColumn == old(selectedColumn) + 1 && selectedNote == 0
      ensures old(selectedColumn) + 1 >= |board.columns| ==>
        selectedColumn == old(selectedColumn) && selectedNote == old(selectedNote)
    {
      if selectedColumn + 1 < |board.columns| {
        selectedColumn := selectedColumn + 1;
        selectedNote := 0;
      }
    }

    /** `prev_note`: one row up, staying on the first row. */
    method PrevNote()
      requires SelectionOk()
      modifies this
      ensures SelectionOk() && mode == old(mode) && view == old(view) && saves == old(saves)
      ensures timeline == old(timeline) && project == old(project)
      ensures selectedColumn == old(selectedColumn) && selectedNote == RowUp(old(selectedNote))
    {
      if selectedNote > 0 {
        selectedNote := selectedNote - 1;
      }
    }

    /** `next_note`: one row down, never past the last row of the selected column. */
    method NextNote()
      requires SelectionOk()
      modifies this
      ensures SelectionOk() && mode == old(mode) && view == old(view) && saves == old(saves)
      ensures timeline == old(timeline) && project == old(project)
      ensures selectedColumn == old(selectedColumn)
      ensures selectedColumn < |board.columns| && old(selectedNote) + 1 < |board.columns[selectedColumn].noteIds| ==>
        selectedNote == old(selectedNote) + 1
      ensures !(selectedColumn < |board.columns| && old(selectedNote) + 1 < |board.columns[selectedColumn].noteIds|) ==>
        selectedNote == old(selectedNote)
    {
      if selectedColumn < |board.columns| && selectedNote + 1 < |board.columns[selectedColumn].noteIds| {
        selectedNote := selectedNote + 1;
      }
    }

    /** `current_note`, which returns an entry of the board's notes. */
    method CurrentNote(now: int) returns (r: Option<Entry>)
      ensures IsCurrentNote(now, r)
      ensures r.Some? ==> r.value.id in board.notes && r.value.note == board.notes[r.value.id]
    {
      match view
      case BoardView =>
        r := BoardSelection(board.Snapshot(), selectedColumn, selectedNote);
      case TimelineView =>
        var u, a := TimelineLists(board.notes, now);
        r := TimelineSelection(timeline, u, a);
        if r.Some? {
          if timeline.focus == Unassigned {
            assert multiset(u)[r.value] > 0;
          } else {
            assert multiset(a)[r.value] > 0;
          }
        }
      case ProjectView =>
        var tags := ProjectTags(board.notes);
        r := ProjectSelection(project, tags);
        if r.Some? {
          assert multiset(tags[project.tagIdx].1)[r.value] > 0;
        }
    }

    /** `ensure_timeline_bounds`: the timeline state re-clamped to the current lists. */
    method EnsureTimelineBounds(now: int)
      modifies this
      ensures TimelineReclamped(board.notes, now, old(timeline), timeline)
      ensures selectedColumn == old(selectedColumn) && selectedNote == old(selectedNote)
      ensures mode == old(mode) && view == old(view) && project == old(project) && saves == old(saves)
    {
      var u, a := TimelineLists(board.notes, now);
      timeline := ClampTimeline(timeline, |u|, |a|);
    }

    /** `ensure_project_bounds`: the project state re-clamped to the current tag list. */
    method EnsureProjectBounds()
      modifies this
      ensures ProjectReclamped(board.notes, old(project), project)
      ensures selectedColumn == old(selectedColumn) && selectedNote == old(selectedNote)
      ensures mode == old(mode) && view == old(view) && timeline == old(timeline) && saves == old(saves)
    {
      var tags := ProjectTags(board.notes);
      project := ClampProject(project, tags);
    }

    /** `persist`: the board is saved and both view states are re-clamped. */
    method Persist(now: int)
      modifies this
      ensures saves == old(saves) + 1
      ensures TimelineReclamped(board.notes, now, old(timeline), timeline)
      ensures ProjectReclamped(board.notes, old(project), project)
      ensures selectedColumn == old(selectedColumn) && selectedNote == old(selectedNote)
      ensures mode == old(mode) && view == old(view)
    {
      saves := saves + 1;
      EnsureTimelineBounds(now);
      EnsureProjectBounds();
    }

    /** `set_view`: the view is switched and both view states are re-clamped. */
    method SetView(v: ViewMode, now: int)
      modifies this
      ensures view == v && saves == old(saves)
      ensures TimelineReclamped(board.notes, now, old(timeline), timeline)
      ensures ProjectReclamped(board.notes, old(project), project)
      ensures selectedColumn == old(selectedColumn) && selectedNote == old(selectedNote) && mode == old(mode)
    {
      if view != v {
        view := v;
      }
      EnsureTimelineBounds(now);
      EnsureProjectBounds();
    }

    /**
     * `move_to_column`: without a selected note nothing happens and the
     * call succeeds; a destination past the last column is refused;
     * otherwise the board moves the note to the destination column's id,
     * and on success the selection follows it to the last row of the
     * destination.
     */
    method MoveToColumn(target: nat, now: int) returns (r: AppResult)
      requires SelectionOk()
      modifies this, board
      ensures SelectionOk() && mode == old(mode) && view == old(view) && saves == old(saves)
      ensures timeline == old(timeline) && project == old(project) && |board.columns| == |old(board.columns)| && board.name == old(board.name)
      ensures old(SelectedId()).None? ==>
        r == Done && board.Snapshot() == old(board.Snapshot()) &&
        selectedColumn == old(selectedColumn) && selectedNote == old(selectedNote)
      ensures old(SelectedId()).Some? && target >= |old(board.columns)| ==>
        r == Failed(UnknownDestination) && board.Snapshot() == old(board.Snapshot()) &&
        selectedColumn == old(selectedColumn) && selectedNote == old(selectedNote)
      ensures old(SelectedId()).Some? && target < |old(board.columns)| ==>
        && (r == Done || (r.Failed? && r.error.BoardFailed?))
        && Step(BoardOutcome(r), board.Snapshot()) ==
             MoveNoteSpec(old(board.Snapshot()), old(SelectedId()).value, old(board.columns[target].id), now)
        && (r == Done ==> selectedColumn == target && selectedNote == LastRow(|board.columns[target].noteIds|))
        && (r != Done ==> selectedColumn == old(selectedColumn) && selectedNote == old(selectedNote))
    {
      if selectedColumn >= |board.columns| || selectedNote >= |board.columns[selectedColumn].noteIds| {
        return Done;
      }
      var noteId := board.columns[selectedColumn].noteIds[selectedNote];
      if target >= |board.columns| {
        return Failed(UnknownDestination);
      }
      r := ApplyMove(noteId, target, now);
    }

    /** The part of `move_to_column` after the checks: the move, then the selection follows the note. */
    method ApplyMove(noteId: NoteId, target: nat, now: int) returns (r: AppResult)
      requires target < |board.columns|
      modifies this, board
      ensures mode == old(mode) && view == old(view) && saves == old(saves)
      ensures timeline == old(timeline) && project == old(project)
      ensures |board.columns| == |old(board.columns)| && board.name == old(board.name)
      ensures r == Done || (r.Failed? && r.error.BoardFailed?)
      ensures Step(BoardOutcome(r), board.Snapshot()) ==
              MoveNoteSpec(old(board.Snapshot()), noteId, old(board.columns[target].id), now)
      ensures r == Done ==> selectedColumn == target && selectedNote == LastRow(|board.columns[target].noteIds|)
      ensures r != Done ==> selectedColumn == old(selectedColumn) && selectedNote == old(selectedNote)
    {
      var o := MoveOnBoard(noteId, board.columns[target].id, now);
      if o.Err? {
        return Failed(BoardFailed(o.error));
      }
      selectedColumn := target;
      selectedNote := LastRow(|board.columns[target].noteIds|);
      return Done;
    }

    /** `board.move_note`, with the column count it keeps. */
    method MoveOnBoard(noteId: NoteId, destColumnId: string, now: int) returns (o: Outcome)
      modifies board
      ensures Step(o, board.Snapshot()) == MoveNoteSpec(old(board.Snapshot()), noteId, destColumnId, now)
      ensures |board.columns| == |old(board.columns)| && board.name == old(board.name)
    {
      MoveKeepsColumns(board.Snapshot(), noteId, destColumnId, now);
      o := board.MoveNote(noteId, destColumnId, now);
    }

    /**
     * `move_selected`, as the board view calls it: without columns, without
     * a selected note, or when the clamped destination is the current
     * column nothing happens; otherwise the note is moved there and, when
     * the move succeeds, the board is saved.
     */
    method MoveSelected(delta: int, now: int)
      requires SelectionOk()
      modifies this, board
      ensures SelectionOk() && mode == old(mode)
      ensures MoveEffect(old(Snapshot()), Snapshot(), delta, now)
    {
      if |board.columns| == 0 {
        return;
      }
      var current := CurrentNote(now);
      if current.None? {
        return;
      }
      var target := MoveTarget(selectedColumn, delta, |board.columns|);
      if target == selectedColumn {
        return;
      }
      var r := MoveToColumn(target, now);
      if r.Failed? {
        return;
      }
      Persist(now);
    }

    /**
     * `delete_note`: the board change of `DeleteNoteSpec`, after which the
     * selected row is clamped to the length of the column the note was
     * removed from.
     */
    method DeleteNote(noteId: NoteId) returns (r: AppResult)
      requires SelectionOk()
      modifies this, board
      ensures SelectionOk() && mode == old(mode) && view == old(view) && saves == old(saves)
      ensures timeline == old(timeline) && project == old(project) && selectedColumn == old(selectedColumn)
      ensures board.name == old(board.name)
      ensures Step(if r.Done? then Ok else Err(NoteNotFound(noteId)), board.Snapshot()) ==
        DeleteNoteSpec(old(board.Snapshot()), noteId)
      ensures r.Failed? ==> r == Failed(NoteMissing(noteId)) && selectedNote == old(selectedNote)
      ensures r.Done? ==> forall i | IsFirstHolder(old(board.columns), noteId, i) ::
        selectedNote == ClampIndex(old(selectedNote), |board.columns[i].noteIds|)
    {
      FirstHolderIsFound(board.columns, noteId);
      var found := FindNoteColumnIndex(board.columns, noteId);
      if found.None? {
        return Failed(NoteMissing(noteId));
      }
      var i := found.value;
      board.columns := board.columns[i := WithRemoved(board.columns[i], noteId)];
      board.notes := board.notes - {noteId};
      selectedNote := ClampIndex(selectedNote, |board.columns[i].noteIds|);
      return Done;
    }

    /**
     * `create_note_from_form` on the texts of the form's title, body, tags
     * and due fields: a blank title, then a missing selected column, then
     * an unparsable due date are refused with the board left alone;
     * otherwise a new note with id `env.newId` is added to the selected
     * column, and on success the selection moves to its last row and the
     * board is saved.
     */
    method CreateNoteFromForm(title: seq<char>, body: seq<char>, tags: seq<char>, due: seq<char>, env: Env)
      returns (r: AppResult)
      requires SelectionOk()
      modifies this, board
      ensures SelectionOk() && mode == old(mode)
      ensures CreateFormEffect(old(Snapshot()), Snapshot(), title, body, tags, due, env, r)
    {
      var check := CheckForm(title, body, tags, due, env.parseDue);
      if check == Rejected(TitleRequired) {
        return Failed(TitleRequired);
      }
      if selectedColumn >= |board.columns| {
        return Failed(NoColumnForNote);
      }
      if check.Rejected? {
        return Failed(check.error);
      }
      var sub := check.sub;
      r := ApplyCreate(NewNote(env.newId, sub.title, sub.body, sub.tags, sub.due, env.now), env.now);
    }

    /**
     * The checked half of `create_note_from_form`: `add_note` into the
     * selected column, then on success the selection moves to the new last
     * row and the board is saved.
     */
    method ApplyCreate(note: Note, now: int) returns (r: AppResult)
      requires selectedColumn < |board.columns|
      modifies this, board
      ensures selectedColumn < |board.columns| && |board.columns| == |old(board.columns)| && board.name == old(board.name)
      ensures mode == old(mode) && view == old(view) && selectedColumn == old(selectedColumn)
      ensures r.Failed? ==> board.Snapshot() == old(board.Snapshot()) && saves == old(saves) && r.error.BoardFailed?
      ensures r.Failed? ==> selectedNote == old(selectedNote) && timeline == old(timeline) && project == old(project)
      ensures Step(BoardOutcome(r), board.Snapshot()) == AddNoteSpec(old(board.Snapshot()), note, old(board.columns[selectedColumn].id))
      ensures r.Done? ==> saves == old(saves) + 1 && selectedNote == LastRow(|board.columns[selectedColumn].noteIds|)
      ensures r.Done? ==> TimelineReclamped(board.notes, now, old(timeline), timeline) && ProjectReclamped(board.notes, old(project), project)
    {
      var o := AddOnBoard(note, board.columns[selectedColumn].id);
      if o.Err? {
        return Failed(BoardFailed(o.error));
      }
      selectedNote := LastRow(|board.columns[selectedColumn].noteIds|);
      Persist(now);
      r := Done;
    }

    /** `board.add_note`, with the column count it keeps. */
    method AddOnBoard(note: Note, columnId: string) returns (o: Outcome)
      modifies board
      ensures Step(o, board.Snapshot()) == AddNoteSpec(old(board.Snapshot()), note, columnId)
      ensures |board.columns| == |old(board.columns)| && board.name == old(board.name)
    {
      AddKeepsColumnCount(board.Snapshot(), note, columnId);
      o := board.AddNote(note, columnId);
    }

    /**
     * `edit_note_from_form` on the texts of the form's fields: a blank
     * title, then an unparsable due date are refused with the board left
     * alone; otherwise the note's title, body, tags and due date are
     * overwritten through `update_note`, and on success the board is saved.
     */
    method EditNoteFromForm(noteId: NoteId, title: seq<char>, body: seq<char>, tags: seq<char>, due: seq<char>, env: Env)
      returns (r: AppResult)
      requires SelectionOk()
      modifies this, board
      ensures SelectionOk() && mode == old(mode)
      ensures EditFormEffect(old(Snapshot()), Snapshot(), noteId, title, body, tags, due, env, r)
    {
      var check := CheckForm(title, body, tags, due, env.parseDue);
      if check.Rejected? {
        return Failed(check.error);
      }
      r := ApplyEdit(noteId, check.sub, env.now);
    }

    /** The checked half of `edit_note_from_form`: `update_note`, then a save on success. */
    method ApplyEdit(noteId: NoteId, sub: Submission, now: int) returns (r: AppResult)
      requires SelectionOk()
      modifies this, board
      ensures SelectionOk() && mode == old(mode) && view == old(view)
      ensures selectedColumn == old(selectedColumn) && selectedNote == old(selectedNote)
      ensures r.Failed? ==> board.Snapshot() == old(board.Snapshot()) && saves == old(saves) && r.error.BoardFailed?
      ensures r.Done? ==> saves == old(saves) + 1
      ensures board.name == old(board.name)
      ensures Step(BoardOutcome(r), board.Snapshot()) == UpdateNoteSpec(old(board.Snapshot()), noteId, Overwrite(sub), now)
      ensures r.Failed? ==> timeline == old(timeline) && project == old(project)
      ensures r.Done? ==> TimelineReclamped(board.notes, now, old(timeline), timeline) && ProjectReclamped(board.notes, old(project), project)
    {
      var o := UpdateOnBoard(noteId, Overwrite(sub), now);
      if o.Err? {
        return Failed(BoardFailed(o.error));
      }
      Persist(now);
      r := Done;
    }

    /** `board.update_note`, with the columns it keeps. */
    method UpdateOnBoard(noteId: NoteId, mutator: Note -> Note, now: int) returns (o: Outcome)
      modifies board
      ensures Step(o, board.Snapshot()) == UpdateNoteSpec(old(board.Snapshot()), noteId, mutator, now)
      ensures board.columns == old(board.columns) && board.name == old(board.name)
    {
      o := board.UpdateNote(noteId, mutator, now);
    }

    /**
     * `handle_board_key`: the arrows and `h`/`l`/`k`/`j` move the
     * selection, `m`/`>` and `b`/`<` move the selected note one column
     * right or left; every other key does nothing.
     */
    method HandleBoardKey(key: Key, now: int)
      requires SelectionOk()
      modifies this, board
      ensures SelectionOk() && mode == old(mode)
      ensures BoardKeyEffect(old(Snapshot()), Snapshot(), key, now)
    {
      if IsLeft(key) {
        PrevColumn();
      } else if IsRight(key) {
        NextColumn();
      } else if IsUp(key) {
        PrevNote();
      } else if IsDown(key) {
        NextNote();
      } else if IsMoveKey(key) {
        MoveSelected(MoveDelta(key), now);
      }
    }

    /**
     * `handle_timeline_key`: for Enter on the calendar the first assigned
     * note due that day is looked up in the current lists; the key's
     * transition `TimelineKey` is applied, and the state is re-clamped.
     */
    method HandleTimelineKey(key: Key, now: int)
      modifies this
      ensures exists f ::
        && EnterTarget(board.notes, now, old(timeline), key, f)
        && TimelineReclamped(board.notes, now, TimelineKey(old(timeline), key, f), timeline)
      ensures selectedColumn == old(selectedColumn) && selectedNote == old(selectedNote) && saves == old(saves)
      ensures mode == old(mode) && view == old(view) && project == old(project)
    {
      var f: Option<nat> := None;
      if key.Enter? && timeline.focus == Calendar {
        var u, a := TimelineLists(board.notes, now);
        f := FirstDueOnCursor(a, timeline.calendarCursor);
      }
      ghost var t0 := timeline;
      timeline := TimelineKey(timeline, key, f);
      EnsureTimelineBounds(now);
      assert EnterTarget(board.notes, now, t0, key, f);
    }

    /** `handle_project_key`: the key's transition `ProjectKey`, then the state is re-clamped. */
    method HandleProjectKey(key: Key)
      modifies this
      ensures ProjectReclamped(board.notes, ProjectKey(old(project), key), project)
      ensures selectedColumn == old(selectedColumn) && selectedNote == old(selectedNote) && saves == old(saves)
      ensures mode == old(mode) && view == old(view) && timeline == old(timeline)
    {
      project := ProjectKey(project, key);
      EnsureProjectBounds();
    }

    /**
     * `handle_confirm_key` while a deletion waits: `y` or Enter deletes the
     * note, saving the board when that succeeds; `n` or Esc cancels; both
     * return to browsing. Every other key does nothing.
     */
    method HandleConfirmKey(key: Key, now: int)
      requires SelectionOk() && mode.ConfirmDelete?
      modifies this, board
      ensures SelectionOk()
      ensures ConfirmEffect(old(Snapshot()), Snapshot(), old(mode).noteId, key, now)
      ensures mode == if IsConfirm(key) || IsCancel(key) then Normal else old(mode)
    {
      if IsConfirm(key) {
        var r := DeleteNote(mode.noteId);
        if r.Done? {
          Persist(now);
        }
        mode := Normal;
      } else if IsCancel(key) {
        mode := Normal;
      }
    }

    /**
     * `handle_form_key` with `process_form_key` and `try_submit`: the form
     * takes the key; Esc closes it, a submission closes it only when the
     * create or edit succeeds, and `r` is the failure the status line
     * reports.
     */
    method HandleFormKey(key: Key, env: Env) returns (r: AppResult)
      requires Valid() && HasForm(mode)
      modifies this, board, FormRepr(mode)
      ensures Valid()
      ensures FormOutcomeEffect(old(Snapshot()), Snapshot(), old(mode), old(mode.form.Snapshot()),
                                Form.FormKey(old(mode.form.Snapshot()), key).outcome, env, r)
      ensures Form.FormKey(old(mode.form.Snapshot()), key).outcome == Form.Cancel ==> mode == Normal
      ensures Form.FormKey(old(mode.form.Snapshot()), key).outcome == Form.Continue ==>
        mode == old(mode) && mode.form.Snapshot() == Form.FormKey(old(mode.form.Snapshot()), key).state
      ensures Form.FormKey(old(mode.form.Snapshot()), key).outcome == Form.Submit ==>
        && (mode == Normal <==> r.Done?)
        && (r.Failed? ==> mode == old(mode) && mode.form.Snapshot() == old(mode.form.Snapshot()))
    {
      var form := mode.form;
      var outcome := form.HandleKey(key);
      r := FinishFormKey(outcome, env);
    }

    /**
     * The rest of `handle_form_key` once the form has taken the key: Esc
     * closes the form, a submission goes to `try_submit`, and any other key
     * leaves everything as it is.
     */
    method FinishFormKey(outcome: Form.FormOutcome, env: Env) returns (r: AppResult)
      requires Valid() && HasForm(mode)
      modifies this, board
      ensures Valid()
      ensures FormOutcomeEffect(old(Snapshot()), Snapshot(), old(mode), old(mode.form.Snapshot()), outcome, env, r)
      ensures outcome != Form.Submit ==> mode == if outcome == Form.Cancel then Normal else old(mode)
      ensures outcome == Form.Submit ==> (mode == Normal <==> r.Done?) && (r.Failed? ==> mode == old(mode))
    {
      r := Done;
      if outcome == Form.Cancel {
        mode := Normal;
      } else if outcome == Form.Submit {
        var form := mode.form;
        var title, body, tags, due := form.title.value, form.body.value, form.tags.value, form.due.value;
        if mode.Creating? {
          r := SubmitCreate(title, body, tags, due, env);
        } else {
          r := SubmitEdit(title, body, tags, due, env);
        }
      }
    }

    /**
     * `try_submit` for a create form, with `handle_form_key`'s handling of
     * the mode: the form is closed only when the note is created. Nothing
     * the submission does reads the mode, so closing it afterwards is the
     * same as replacing it by `Normal` first and putting it back on failure.
     */
    method SubmitCreate(title: seq<char>, body: seq<char>, tags: seq<char>, due: seq<char>, env: Env) returns (r: AppResult)
      requires Valid() && mode.Creating?
      modifies this, board
      ensures SelectionOk() && (mode.Creating? ==> mode.form.Valid())
      ensures mode == if r.Done? then Normal else old(mode)
      ensures CreateFormEffect(old(Snapshot()), Snapshot(), title, body, tags, due, env, r)
    {
      r := CreateNoteFromForm(title, body, tags, due, env);
      if r.Done? {
        ghost var u1 := Snapshot();
        mode := Normal;
        assert Snapshot() == u1;
      }
    }

    /** `try_submit` for an edit form, with the form closed only when the update succeeds. */
    method SubmitEdit(title: seq<char>, body: seq<char>, tags: seq<char>, due: seq<char>, env: Env) returns (r: AppResult)
      requires Valid() && mode.Editing?
      modifies this, board
      ensures SelectionOk() && (mode.Editing? ==> mode.form.Valid())
      ensures mode == if r.Done? then Normal else old(mode)
      ensures EditFormEffect(old(Snapshot()), Snapshot(), old(mode).noteId, title, body, tags, due, env, r)
    {
      ghost var form := mode.form;
      r := EditNoteFromForm(mode.noteId, title, body, tags, due, env);
      assert form.Valid() && mode.form == form;
      assert SelectionOk();
      if r.Done? {
        ghost var u1 := Snapshot();
        mode := Normal;
        assert Snapshot() == u1;
      }
    }

    /**
     * `handle_normal_key`: `q` quits; `1`, `2` and `3` switch the view;
     * `n` opens an empty create form; `e` opens an edit form on the current
     * note and `d` asks to delete it, both doing nothing without one; every
     * other key goes to the active view's handler.
     */
    method HandleNormalKey(key: Key, env: Env) returns (quit: bool)
      requires SelectionOk() && mode == Normal
      modifies this, board
      ensures Valid()
      ensures quit <==> key.Char? && key.c == 'q'
      ensures NormalKeyEffect(old(Snapshot()), Snapshot(), key, env.now)
      ensures (key.Char? && key.c == 'q') || ViewOfKey(key).Some? || !IsCommand(key) ==> mode == Normal
      ensures (key.Char? && key.c == 'n') ==>
        mode.Creating? && fresh(mode.form) && mode.form.Snapshot() == Form.EmptyForm()
      ensures (key.Char? && key.c == 'e') ==> exists c ::
        && IsCurrentNote(env.now, c)
        && (c.None? ==> mode == Normal)
        && (c.Some? ==> mode.Editing? && mode.noteId == c.value.id && fresh(mode.form) &&
                        mode.form.Snapshot() == Form.FormOfNote(c.value.note, env.formatDue))
      ensures (key.Char? && key.c == 'd') ==> exists c ::
        && IsCurrentNote(env.now, c)
        && mode == (if c.Some? then ConfirmDelete(c.value.id) else Normal)
    {
      quit := false;
      if key.Char? && key.c == 'q' {
        return true;
      }
      var v := ViewOfKey(key);
      if v.Some? {
        SetView(v.value, env.now);
        return;
      }
      if key.Char? && key.c == 'n' {
        var form := new Form.NoteForm.New();
        mode := Creating(form);
        return;
      }
      if key.Char? && (key.c == 'e' || key.c == 'd') {
        OpenOnCurrent(key.c == 'e', env);
        return;
      }
      HandleViewKey(key, env.now);
    }

    /** `e` and `d` of `handle_normal_key`: an edit form or a delete confirmation on the current note. */
    method OpenOnCurrent(edit: bool, env: Env)
      requires SelectionOk() && mode == Normal
      modifies this
      ensures Valid()
      ensures selectedColumn == old(selectedColumn) && selectedNote == old(selectedNote) && saves == old(saves)
      ensures view == old(view) && timeline == old(timeline) && project == old(project)
      ensures edit ==> exists c ::
        && IsCurrentNote(env.now, c)
        && (c.None? ==> mode == Normal)
        && (c.Some? ==> mode.Editing? && mode.noteId == c.value.id && fresh(mode.form) &&
                        mode.form.Snapshot() == Form.FormOfNote(c.value.note, env.formatDue))
      ensures !edit ==> exists c ::
        && IsCurrentNote(env.now, c)
        && mode == (if c.Some? then ConfirmDelete(c.value.id) else Normal)
    {
      var c := CurrentNote(env.now);
      if c.Some? {
        if edit {
          var form := new Form.NoteForm.FromNote(c.value.note, env.formatDue);
          mode := Editing(c.value.id, form);
        } else {
          mode := ConfirmDelete(c.value.id);
        }
      }
    }

    /** The last match of `handle_normal_key`: the key goes to the active view's handler. */
    method HandleViewKey(key: Key, now: int)
      requires SelectionOk() && mode == Normal
      modifies this, board
      ensures SelectionOk() && mode == Normal
      ensures ViewKeyEffect(old(Snapshot()), Snapshot(), key, now)
    {
      match view
      case BoardView => HandleBoardKey(key, now);
      case TimelineView => HandleTimelineKey(key, now);
      case ProjectView => HandleProjectKey(key);
    }

    /**
     * `handle_key`: the key goes to the handler of the current mode; only
     * `q` while browsing ends the event loop.
     */
    method HandleKey(key: Key, env: Env) returns (quit: bool)
      requires Valid()
      modifies this, board, FormRepr(mode)
      ensures Valid()
      ensures quit <==> old(mode) == Normal && key.Char? && key.c == 'q'
      ensures old(mode) == Normal ==> NormalKeyEffect(old(Snapshot()), Snapshot(), key, env.now)
      ensures old(mode) == Normal && ((key.Char? && key.c == 'q') || ViewOfKey(key).Some? || !IsCommand(key)) ==>
        mode == Normal
      ensures old(mode) == Normal && key.Char? && key.c == 'n' ==>
        mode.Creating? && fresh(mode.form) && mode.form.Snapshot() == Form.EmptyForm()
      ensures old(mode) == Normal && key.Char? && key.c == 'e' ==> exists c ::
        && IsCurrentNote(env.now, c)
        && (c.None? ==> mode == Normal)
        && (c.Some? ==> mode.Editing? && mode.noteId == c.value.id && fresh(mode.form) &&
                        mode.form.Snapshot() == Form.FormOfNote(c.value.note, env.formatDue))
      ensures old(mode) == Normal && key.Char? && key.c == 'd' ==> exists c ::
        && IsCurrentNote(env.now, c)
        && mode == (if c.Some? then ConfirmDelete(c.value.id) else Normal)
      ensures HasForm(old(mode)) ==>
        var outcome := Form.FormKey(old(mode.form.Snapshot()), key).outcome;
        && (outcome == Form.Cancel ==> mode == Normal)
        && (outcome == Form.Continue ==>
              mode == old(mode) && mode.form.Snapshot() == Form.FormKey(old(mode.form.Snapshot()), key).state)
        && exists r ::
             && FormOutcomeEffect(old(Snapshot()), Snapshot(), old(mode), old(mode.form.Snapshot()), outcome, env, r)
             && (outcome == Form.Submit ==>
                   && (mode == Normal <==> r.Done?)
                   && (r.Failed? ==> mode == old(mode) && mode.form.Snapshot() == old(mode.form.Snapshot())))
      ensures old(mode).ConfirmDelete? ==>
        && ConfirmEffect(old(Snapshot()), Snapshot(), old(mode).noteId, key, env.now)
        && mode == if IsConfirm(key) || IsCancel(key) then Normal else old(mode)
    {
      quit := false;
      match mode
      case Normal =>
        quit := HandleNormalKey(key, env);
      case Creating(_) =>
        var _ := HandleFormKey(key, env);
      case Editing(_, _) =>
        var _ := HandleFormKey(key, env);
      case ConfirmDelete(_) =>
        HandleConfirmKey(key, env.now);
    }
  }
}
