/**
 * The value part of the application state of src/ui.rs: the view, the
 * timeline and project selection states with their focus machines, the
 * re-clamping that `ensure_timeline_bounds` and `ensure_project_bounds`
 * perform, the note each view regards as selected, and `delete_note` as a
 * function on the board state.
 */
module AppState {
  import opened Wrappers
  import opened Model
  import opened Views
  import opened Keys

  datatype ViewMode = BoardView | TimelineView | ProjectView

  /** The three panes of the timeline view; Tab and Shift-Tab walk them in a cycle. */
  datatype TimelineFocus = Unassigned | Assigned | Calendar {
    /** `TimelineState::next_focus`. */
    function Next(): TimelineFocus {
      match this
      case Unassigned => Assigned
      case Assigned => Calendar
      case Calendar => Unassigned
    }

    /** `TimelineState::prev_focus`. */
    function Prev(): TimelineFocus {
      match this
      case Unassigned => Calendar
      case Assigned => Unassigned
      case Calendar => Assigned
    }
  }

  lemma TimelineNextPrevInverse(f: TimelineFocus)
    ensures f.Next().Prev() == f && f.Prev().Next() == f
  {
  }

  /** Three steps forward come back to the start, and no shorter walk does. */
  lemma TimelineFocusCycle(f: TimelineFocus)
    ensures f.Next().Next().Next() == f && f.Next() != f && f.Next().Next() != f
  {
  }

  /**
   * `TimelineState`: the focused pane, the selected row and scroll offset of
   * each list, and the calendar cursor as a day number.
   */
  datatype TimelineState = TimelineState(
    focus: TimelineFocus,
    unassignedIdx: nat,
    assignedIdx: nat,
    calendarCursor: int,
    unassignedOffset: nat,
    assignedOffset: nat)

  /** `TimelineState::new`, with the day the cursor starts on given. */
  function NewTimeline(cursor: int): TimelineState {
    TimelineState(Assigned, 0, 0, cursor, 0, 0)
  }

  datatype ProjectFocus = Tags | Notes

  datatype ProjectState = ProjectState(focus: ProjectFocus, tagIdx: nat, noteIdx: nat)

  /** `ProjectState::new`. */
  function NewProject(): ProjectState {
    ProjectState(Tags, 0, 0)
  }

  /** `idx.min(len.saturating_sub(1))`, or 0 for an empty list: the nearest valid row. */
  function ClampIndex(idx: nat, len: nat): (r: nat)
    ensures len == 0 ==> r == 0
    ensures len > 0 ==> r < len
    ensures idx < len ==> r == idx
    ensures idx >= len > 0 ==> r == len - 1
  {
    if len == 0 then 0 else if idx < len - 1 then idx else len - 1
  }

  /**
   * `ensure_timeline_bounds`, given the lengths of the two lists: each row
   * index and offset is put back inside its list, or to 0 when the list is
   * empty; the focus and the calendar cursor are kept.
   */
  function ClampTimeline(t: TimelineState, unassignedLen: nat, assignedLen: nat): (r: TimelineState)
    ensures r.focus == t.focus && r.calendarCursor == t.calendarCursor
    ensures unassignedLen == 0 ==> r.unassignedIdx == 0 && r.unassignedOffset == 0
    ensures unassignedLen > 0 ==> r.unassignedIdx < unassignedLen && r.unassignedOffset < unassignedLen
    ensures assignedLen == 0 ==> r.assignedIdx == 0 && r.assignedOffset == 0
    ensures assignedLen > 0 ==> r.assignedIdx < assignedLen && r.assignedOffset < assignedLen
    ensures t.unassignedIdx < unassignedLen ==> r.unassignedIdx == t.unassignedIdx
    ensures t.assignedIdx < assignedLen ==> r.assignedIdx == t.assignedIdx
  {
    t.(unassignedIdx := ClampIndex(t.unassignedIdx, unassignedLen),
       unassignedOffset := ClampIndex(t.unassignedOffset, unassignedLen),
       assignedIdx := ClampIndex(t.assignedIdx, assignedLen),
       assignedOffset := ClampIndex(t.assignedOffset, assignedLen))
  }

  /** A tag list as `project_tags` returns it. */
  type TagView = seq<(seq<char>, seq<Entry>)>

  /**
   * `ensure_project_bounds`, given the tag list: with no tags everything is
   * reset and the tag pane focused; otherwise the tag index is put back
   * inside the list, and the note index inside the selected bucket (0 and
   * the tag pane focused when that bucket is empty).
   */
  function ClampProject(p: ProjectState, tags: TagView): (r: ProjectState)
    ensures |tags| == 0 ==> r == ProjectState(Tags, 0, 0)
    ensures |tags| > 0 ==> r.tagIdx == ClampIndex(p.tagIdx, |tags|)
    ensures |tags| > 0 ==> r.noteIdx == ClampIndex(p.noteIdx, |tags[r.tagIdx].1|)
    ensures |tags| > 0 && |tags[r.tagIdx].1| == 0 ==> r.focus == Tags
    ensures |tags| > 0 && |tags[r.tagIdx].1| > 0 ==> r.focus == p.focus
  {
    if |tags| == 0 then ProjectState(Tags, 0, 0)
    else
      var tagIdx := ClampIndex(p.tagIdx, |tags|);
      var noteLen := |tags[tagIdx].1|;
      ProjectState(if noteLen == 0 then Tags else p.focus, tagIdx, ClampIndex(p.noteIdx, noteLen))
  }

  /** `len.saturating_sub(1)`: the last row of a list, or 0 for an empty one. */
  function LastRow(len: nat): (r: nat)
    ensures len > 0 ==> r == len - 1
    ensures len == 0 ==> r == 0
  {
    if len == 0 then 0 else len - 1
  }

  /**
   * The destination of `move_selected`: `(current + delta).clamp(0, max)`
   * with `max` the index of the last column.
   */
  function MoveTarget(current: nat, delta: int, columnCount: nat): (t: nat)
    requires columnCount > 0
    ensures t < columnCount
    ensures 0 <= current + delta < columnCount ==> t == current + delta
    ensures current + delta < 0 ==> t == 0
    ensures current + delta >= columnCount ==> t == columnCount - 1
  {
    var x := current + delta;
    if x < 0 then 0 else if x > columnCount - 1 then columnCount - 1 else x
  }

  /** The keys the list handlers treat as one direction: an arrow, or its vi letter. */
  predicate IsLeft(key: Key) { key == Left || (key.Char? && key.c == 'h') }
  predicate IsRight(key: Key) { key == Right || (key.Char? && key.c == 'l') }
  predicate IsUp(key: Key) { key == Up || (key.Char? && key.c == 'k') }
  predicate IsDown(key: Key) { key == Down || (key.Char? && key.c == 'j') }

  /** `shift_calendar`: the cursor moves by `days` days. */
  function ShiftCalendar(t: TimelineState, days: int): (r: TimelineState)
    ensures r.calendarCursor == t.calendarCursor + days
    ensures r.(calendarCursor := t.calendarCursor) == t
  {
    t.(calendarCursor := t.calendarCursor + days)
  }

  /** An index one row up, staying at 0 on the first row. */
  function RowUp(i: nat): nat {
    if i > 0 then i - 1 else i
  }

  /**
   * The match of `handle_timeline_key`, before the bounds are re-clamped.
   * `firstDue` is what `first_due_on_cursor` returns; only Enter on the
   * calendar reads it. Only the calendar pane moves the cursor, by a day or
   * a week; each list index moves by at most one row and only in its own
   * pane, except that Enter on the calendar jumps to the first note due on
   * the cursor's day and focuses the assigned list.
   */
  function TimelineKey(t: TimelineState, key: Key, firstDue: Option<nat>): (r: TimelineState)
    ensures t.focus != Calendar ==> r.calendarCursor == t.calendarCursor
    ensures var d := r.calendarCursor - t.calendarCursor; d == 0 || d == 1 || d == -1 || d == 7 || d == -7
    ensures r.unassignedOffset == t.unassignedOffset && r.assignedOffset == t.assignedOffset
    ensures r.unassignedIdx != t.unassignedIdx ==>
      t.focus == Unassigned && r.focus == Unassigned &&
      (r.unassignedIdx == t.unassignedIdx + 1 || r.unassignedIdx + 1 == t.unassignedIdx)
    ensures r.assignedIdx != t.assignedIdx ==>
      || (t.focus == Assigned && r.focus == Assigned &&
          (r.assignedIdx == t.assignedIdx + 1 || r.assignedIdx + 1 == t.assignedIdx))
      || (t.focus == Calendar && key.Enter? && firstDue == Some(r.assignedIdx) && r.focus == Assigned)
    ensures key.Enter? && t.focus == Calendar && firstDue.Some? ==> r.focus == Assigned && r.assignedIdx == firstDue.value
  {
    if key == Tab then t.(focus := t.focus.Next())
    else if key == BackTab then t.(focus := t.focus.Prev())
    else if IsLeft(key) then
      match t.focus
      case Calendar => ShiftCalendar(t, -1)
      case Assigned => t.(focus := t.focus.Prev())
      case Unassigned => t
    else if IsRight(key) then
      if t.focus == Calendar then ShiftCalendar(t, 1) else t.(focus := t.focus.Next())
    else if IsUp(key) then
      match t.focus
      case Unassigned => t.(unassignedIdx := RowUp(t.unassignedIdx))
      case Assigned => t.(assignedIdx := RowUp(t.assignedIdx))
      case Calendar => ShiftCalendar(t, -7)
    else if IsDown(key) then
      match t.focus
      case Unassigned => t.(unassignedIdx := t.unassignedIdx + 1)
      case Assigned => t.(assignedIdx := t.assignedIdx + 1)
      case Calendar => ShiftCalendar(t, 7)
    else if key.Enter? && t.focus == Calendar && firstDue.Some? then
      t.(assignedIdx := firstDue.value, focus := Assigned)
    else t
  }

  /** Tab then Shift-Tab gives back the timeline state. */
  lemma TimelineTabBackTab(t: TimelineState, firstDue: Option<nat>)
    ensures TimelineKey(TimelineKey(t, Tab, firstDue), BackTab, firstDue) == t
  {
    TimelineNextPrevInverse(t.focus);
  }

  /** On the calendar, Left undoes Right and Up undoes Down. */
  lemma CalendarMovesCancel(t: TimelineState, firstDue: Option<nat>)
    requires t.focus == Calendar
    ensures TimelineKey(TimelineKey(t, Right, firstDue), Left, firstDue) == t
    ensures TimelineKey(TimelineKey(t, Down, firstDue), Up, firstDue) == t
  {
  }

  /** In a list pane, Up undoes Down. */
  lemma ListDownThenUp(t: TimelineState, firstDue: Option<nat>)
    requires t.focus != Calendar
    ensures TimelineKey(TimelineKey(t, Down, firstDue), Up, firstDue) == t
  {
  }

  /**
   * The match of `handle_project_key`, before the bounds are re-clamped.
   * The tag index moves by at most one and only from the tag pane, and a
   * tag change selects the bucket's first note; the note index otherwise
   * moves by at most one and only from the notes pane.
   */
  function ProjectKey(p: ProjectState, key: Key): (r: ProjectState)
    ensures r.tagIdx != p.tagIdx ==>
      p.focus == Tags && r.focus == Tags && r.noteIdx == 0 &&
      (r.tagIdx == p.tagIdx + 1 || r.tagIdx + 1 == p.tagIdx)
    ensures r.tagIdx == p.tagIdx && r.noteIdx != p.noteIdx ==>
      (p.focus == Tags && r.noteIdx == 0) ||
      (p.focus == Notes && r.focus == Notes && (r.noteIdx == p.noteIdx + 1 || r.noteIdx + 1 == p.noteIdx))
    ensures key == Tab ==> r.focus != p.focus
    ensures IsLeft(key) ==> r == p.(focus := Tags)
    ensures IsRight(key) ==> r == p.(focus := Notes)
  {
    if key == Tab then p.(focus := if p.focus == Tags then Notes else Tags)
    else if IsLeft(key) then p.(focus := Tags)
    else if IsRight(key) then p.(focus := Notes)
    else if IsUp(key) then
      match p.focus
      case Tags => if p.tagIdx > 0 then p.(tagIdx := p.tagIdx - 1, noteIdx := 0) else p
      case Notes => p.(noteIdx := RowUp(p.noteIdx))
    else if IsDown(key) then
      match p.focus
      case Tags => p.(tagIdx := p.tagIdx + 1, noteIdx := 0)
      case Notes => p.(noteIdx := p.noteIdx + 1)
    else p
  }

  /** Tab twice gives back the project state. */
  lemma ProjectTabTwice(p: ProjectState)
    ensures ProjectKey(ProjectKey(p, Tab), Tab) == p
  {
  }

  /** `xs.get(i)`. */
  function Get<T>(xs: seq<T>, i: nat): Option<T> {
    if i < |xs| then Some(xs[i]) else None
  }

  /** `current_timeline_note`, given the two lists. */
  function TimelineSelection(t: TimelineState, unassignedNotes: seq<Entry>, assignedNotes: seq<Entry>): Option<Entry> {
    match t.focus
    case Unassigned => Get(unassignedNotes, t.unassignedIdx)
    case Assigned => Get(assignedNotes, t.assignedIdx)
    case Calendar => None
  }

  /** `current_project_note`, given the tag list. */
  function ProjectSelection(p: ProjectState, tags: TagView): Option<Entry> {
    if p.focus != Notes || p.tagIdx >= |tags| then None
    else Get(tags[p.tagIdx].1, p.noteIdx)
  }

  /** `current_board_note`: the entry at the selected row of the selected column, if both exist and the id has a note. */
  function BoardSelection(s: State, column: nat, row: nat): Option<Entry> {
    if column < |s.columns| && row < |s.columns[column].noteIds| && s.columns[column].noteIds[row] in s.notes then
      var id := s.columns[column].noteIds[row];
      Some(Entry(id, s.notes[id]))
    else None
  }

  /** Re-clamping the timeline twice is clamping it once. */
  lemma ClampTimelineIdempotent(t: TimelineState, unassignedLen: nat, assignedLen: nat)
    ensures var c := ClampTimeline(t, unassignedLen, assignedLen);
      ClampTimeline(c, unassignedLen, assignedLen) == c
  {
  }

  /** After `ensure_timeline_bounds` a note is selected exactly when a list pane is focused and its list is not empty. */
  lemma TimelineSelectionAfterClamp(t: TimelineState, unassignedNotes: seq<Entry>, assignedNotes: seq<Entry>)
    ensures var c := ClampTimeline(t, |unassignedNotes|, |assignedNotes|);
      TimelineSelection(c, unassignedNotes, assignedNotes).Some? <==>
        (c.focus == Unassigned && |unassignedNotes| > 0) || (c.focus == Assigned && |assignedNotes| > 0)
  {
  }

  /** Re-clamping the project selection twice is clamping it once. */
  lemma ClampProjectIdempotent(p: ProjectState, tags: TagView)
    ensures ClampProject(ClampProject(p, tags), tags) == ClampProject(p, tags)
  {
  }

  /**
   * After `ensure_project_bounds` on a tag list from `project_tags`, a note
   * is selected exactly when the notes pane is focused, and it is a note of
   * the board carrying the selected tag.
   */
  lemma ProjectSelectionAfterClamp(notes: map<NoteId, Note>, p: ProjectState, tags: TagView)
    requires IsProjectView(notes, tags)
    ensures var c := ClampProject(p, tags);
      && (ProjectSelection(c, tags).Some? <==> c.focus == Notes)
      && (ProjectSelection(c, tags).Some? ==>
            var e := ProjectSelection(c, tags).value;
            e.id in notes && e.note == notes[e.id] && Weight(tags[c.tagIdx].0, e.note) > 0)
  {
    var c := ClampProject(p, tags);
    if ProjectSelection(c, tags).Some? {
      var e := tags[c.tagIdx].1[c.noteIdx];
      assert multiset(tags[c.tagIdx].1)[e] > 0;
    }
  }

  /** `ensure_project_bounds` gives the same selection whichever walk of the note map produced the tag list. */
  lemma ClampProjectWellDefined(notes: map<NoteId, Note>, p: ProjectState, t1: TagView, t2: TagView)
    requires IsProjectView(notes, t1) && IsProjectView(notes, t2)
    ensures ClampProject(p, t1) == ClampProject(p, t2)
  {
    ProjectViewUnique(notes, t1, t2);
  }

  /** Under referential integrity, a selected row that exists always names a note. */
  lemma BoardSelectionUnderIntegrity(s: State, column: nat, row: nat)
    requires RefIntegrity(s)
    ensures BoardSelection(s, column, row).Some? <==> column < |s.columns| && row < |s.columns[column].noteIds|
  {
  }

  /**
   * `App::delete_note` on the board: fails with "note not found", changing
   * nothing, when no column lists the id; otherwise removes every
   * occurrence of the id from the first column listing it and drops its
   * note, leaving the other columns as they were.
   */
  function DeleteNoteSpec(s: State, noteId: NoteId): (r: Step)
    ensures r.outcome.Err? <==> forall j | 0 <= j < |s.columns| :: noteId !in s.columns[j].noteIds
    ensures r.outcome.Err? ==> r == Step(Err(NoteNotFound(noteId)), s)
    ensures r.outcome.Ok? ==> r.state.notes == s.notes - {noteId} && |r.state.columns| == |s.columns|
    ensures forall i | IsFirstHolder(s.columns, noteId, i) ::
      && r.state.columns[i] == s.columns[i].(noteIds := RemoveAll(s.columns[i].noteIds, noteId))
      && forall j | 0 <= j < |s.columns| && j != i :: r.state.columns[j] == s.columns[j]
  {
    FirstHolderIsFound(s.columns, noteId);
    match FindNoteColumnIndex(s.columns, noteId)
    case None => Step(Err(NoteNotFound(noteId)), s)
    case Some(i) => Step(Ok, State(s.columns[i := WithRemoved(s.columns[i], noteId)], s.notes - {noteId}))
  }

  /** With exclusive placement, deleting keeps every listed id backed by a note and leaves the id nowhere. */
  lemma DeletePreservesIntegrity(s: State, noteId: NoteId)
    requires RefIntegrity(s) && Exclusive(s)
    ensures var r := DeleteNoteSpec(s, noteId);
      && RefIntegrity(r.state) && Exclusive(r.state)
      && forall j | 0 <= j < |r.state.columns| :: noteId !in r.state.columns[j].noteIds
  {
    var r := DeleteNoteSpec(s, noteId);
    if r.outcome.Ok? {
      var i :| IsFirstHolder(s.columns, noteId, i);
      forall j, k | 0 <= j < |r.state.columns| && 0 <= k < |r.state.columns[j].noteIds|
        ensures r.state.columns[j].noteIds[k] in r.state.notes
      {
        var x := r.state.columns[j].noteIds[k];
        assert x in r.state.columns[j].noteIds;
        if j == i {
          assert x in s.columns[i].noteIds && x != noteId;
        } else {
          assert x in s.columns[j].noteIds;
          assert x != noteId;
        }
      }
    }
  }

  /**
   * Without exclusive placement the guarantee fails: an id listed by two
   * columns is removed from the first one only, and the second is left
   * naming a note that no longer exists.
   */
  lemma DeleteNeedsExclusive()
    ensures var s := State([Column("a", "A", None, ["n"]), Column("b", "B", None, ["n"])],
                           map["n" := NewNote("n", "t", None, [], None, 0)]);
      RefIntegrity(s) && !RefIntegrity(DeleteNoteSpec(s, "n").state)
  {
    var s := State([Column("a", "A", None, ["n"]), Column("b", "B", None, ["n"])],
                   map["n" := NewNote("n", "t", None, [], None, 0)]);
    assert IsFirstHolder(s.columns, "n", 0);
    var r := DeleteNoteSpec(s, "n");
    assert r.state.columns[1].noteIds[0] == "n";
  }
}
