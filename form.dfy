/**
 * The note form of src/ui.rs: `NoteForm` with its four `FieldValue`s and the
 * focused field, focus cycling, the form part of `process_form_key`, and the
 * checks `create_note_from_form` and `edit_note_from_form` make on the
 * submitted text (title required, empty body dropped, tags parsed, due date
 * parsed when present).
 *
 * `FormState` is the value a form holds (each field as its text and
 * character cursor position, and the focused field); `FormKey` says what one
 * key does to it, and `NoteForm.HandleKey` is proved to do exactly that.
 */
module Form {
  import opened Wrappers
  import opened TextLines
  import opened TextField
  import opened TagList
  import opened Keys
  import Model

  /** `FormField`, with `next_field` and `prev_field` as `Next` and `Prev`. */
  datatype FormField = Title | Body | Tags | Due {
    function Next(): FormField {
      match this
      case Title => Body
      case Body => Tags
      case Tags => Due
      case Due => Title
    }

    function Prev(): FormField {
      match this
      case Title => Due
      case Body => Title
      case Tags => Body
      case Due => Tags
    }
  }

  /** `prev_field` undoes `next_field` and the other way round. */
  lemma NextPrevInverse(f: FormField)
    ensures f.Next().Prev() == f && f.Prev().Next() == f
  {
  }

  /** Tab visits the four fields in the order Title, Body, Tags, Due and comes back after four presses. */
  lemma FieldCycle(f: FormField)
    ensures Title.Next() == Body && Body.Next() == Tags && Tags.Next() == Due && Due.Next() == Title
    ensures f.Next().Next().Next().Next() == f
    ensures f.Next() != f && f.Next().Next() != f && f.Next().Next().Next() != f
  {
  }

  /** A field's text and the character position of its cursor. */
  datatype FieldState = FieldState(value: seq<char>, pos: nat)

  predicate FieldOk(f: FieldState) {
    f.pos <= |f.value|
  }

  /** What a freshly built `FieldValue` holds: the text, with the cursor at its end. */
  function NewField(text: seq<char>): (f: FieldState)
    ensures FieldOk(f) && f.value == text && Offset(f.value, f.pos) == ByteLen(text)
  {
    FieldState(text, |text|)
  }

  datatype FormState = FormState(title: FieldState, body: FieldState, tags: FieldState, due: FieldState, field: FormField)

  predicate FormOk(s: FormState) {
    FieldOk(s.title) && FieldOk(s.body) && FieldOk(s.tags) && FieldOk(s.due)
  }

  function FieldOf(s: FormState, g: FormField): FieldState {
    match g
    case Title => s.title
    case Body => s.body
    case Tags => s.tags
    case Due => s.due
  }

  /** The form with field `g` replaced by `f`. */
  function WithField(s: FormState, g: FormField, f: FieldState): (r: FormState)
    ensures FieldOf(r, g) == f && r.field == s.field
    ensures forall h :: h != g ==> FieldOf(r, h) == FieldOf(s, h)
  {
    match g
    case Title => s.(title := f)
    case Body => s.(body := f)
    case Tags => s.(tags := f)
    case Due => s.(due := f)
  }

  /** `NoteForm::new`. */
  function EmptyForm(): FormState {
    FormState(NewField(""), NewField(""), NewField(""), NewField(""), Title)
  }

  /**
   * `NoteForm::from_note`: title, body (empty when there is none), tags
   * joined with single spaces and the due date formatted by `formatDue`
   * (empty when there is none); the title has the focus.
   */
  function FormOfNote(note: Model.Note, formatDue: int -> seq<char>): FormState {
    FormState(
      NewField(note.title),
      NewField(note.body.GetOr("")),
      NewField(Join(note.tags, " ")),
      NewField(match note.due case None => "" case Some(d) => formatDue(d)),
      Title)
  }

  /** What the form asks its owner to do after a key. */
  datatype FormOutcome = Continue | Cancel | Submit

  datatype FormStep = FormStep(state: FormState, outcome: FormOutcome)

  /** The `FieldValue` method a key calls on the focused field, on values. */
  function EditField(f: FieldState, key: Key): (r: FieldState)
    requires FieldOk(f)
    ensures FieldOk(r)
  {
    UpTargetOnPreviousLine(f.value, f.pos);
    DownTargetOnNextLine(f.value, f.pos);
    match key
    case Left => FieldState(f.value, if f.pos == 0 then 0 else f.pos - 1)
    case Right => FieldState(f.value, if f.pos == |f.value| then f.pos else f.pos + 1)
    case Up => FieldState(f.value, UpTarget(f.value, f.pos))
    case Down => FieldState(f.value, DownTarget(f.value, f.pos))
    case Backspace => if f.pos == 0 then f else FieldState(DeleteBefore(f.value, f.pos), f.pos - 1)
    case Char(c, ctrl, alt) => if ctrl || alt then f else FieldState(InsertAt(f.value, f.pos, c), f.pos + 1)
    case Enter(_) => FieldState(InsertAt(f.value, f.pos, '\n'), f.pos + 1)
    case _ => f
  }

  /**
   * The form part of `process_form_key`. Esc cancels and Enter submits,
   * both leaving the form as it is, except that Enter without Ctrl in the
   * body inserts a line break. Tab and Shift-Tab move the focus; the
   * arrows, Backspace and plain characters edit the focused field only.
   */
  function FormKey(s: FormState, key: Key): (r: FormStep)
    requires FormOk(s)
    ensures FormOk(r.state)
    ensures r.outcome == Cancel <==> key == Esc
    ensures r.outcome == Submit <==> key.Enter? && (s.field != Body || key.ctrl)
    ensures r.outcome != Continue ==> r.state == s
    ensures r.state.field == (if key == Tab then s.field.Next() else if key == BackTab then s.field.Prev() else s.field)
    ensures forall g :: g != s.field ==> FieldOf(r.state, g) == FieldOf(s, g)
  {
    match key
    case Esc => FormStep(s, Cancel)
    case Tab => FormStep(s.(field := s.field.Next()), Continue)
    case BackTab => FormStep(s.(field := s.field.Prev()), Continue)
    case Enter(ctrl) =>
      if s.field == Body && !ctrl then FormStep(WithField(s, Body, EditField(s.body, key)), Continue)
      else FormStep(s, Submit)
    case Other => FormStep(s, Continue)
    case _ => FormStep(WithField(s, s.field, EditField(FieldOf(s, s.field), key)), Continue)
  }

  /** Enter without Ctrl in the body adds a line break at the cursor and keeps the form open. */
  lemma EnterInBody(s: FormState)
    requires FormOk(s) && s.field == Body
    ensures var r := FormKey(s, Enter(false));
      && r.outcome == Continue
      && r.state.body == FieldState(InsertAt(s.body.value, s.body.pos, '\n'), s.body.pos + 1)
  {
  }

  /** A character typed with Ctrl or Alt held is ignored. */
  lemma ModifiedCharIgnored(s: FormState, c: char, ctrl: bool, alt: bool)
    requires FormOk(s) && (ctrl || alt)
    ensures FormKey(s, Char(c, ctrl, alt)) == FormStep(s, Continue)
  {
    assert WithField(s, s.field, FieldOf(s, s.field)) == s;
  }

  /** Typing a character and pressing Backspace leaves the form as it was. */
  lemma TypeThenBackspace(s: FormState, c: char)
    requires FormOk(s)
    ensures var typed := FormKey(s, Char(c, false, false)).state;
      FormKey(typed, Backspace) == FormStep(s, Continue)
  {
    var f := FieldOf(s, s.field);
    InsertThenDelete(f.value, f.pos, c);
    var typed := FormKey(s, Char(c, false, false)).state;
    assert FieldOf(typed, s.field) == FieldState(InsertAt(f.value, f.pos, c), f.pos + 1);
    var back := FormKey(typed, Backspace).state;
    assert FieldOf(back, s.field) == f;
    assert forall g :: FieldOf(back, g) == FieldOf(s, g);
  }

  /**
   * The title check of `create_note_from_form` and `edit_note_from_form`:
   * the trimmed title, or nothing ("title is required") when only white
   * space was typed.
   */
  function SubmittedTitle(text: seq<char>): (r: Option<seq<char>>)
    ensures r.None? <==> AllWhitespace(text)
    ensures r.Some? ==> r.value == Trim(text) && r.value != []
  {
    TrimEmptyIff(text);
    var t := Trim(text);
    if t == [] then None else Some(t)
  }

  /** The body saved for a note: none when it is only white space, else the text as typed. */
  function SubmittedBody(text: seq<char>): (r: Option<seq<char>>)
    ensures r.None? <==> AllWhitespace(text)
    ensures r.Some? ==> r.value == text
  {
    TrimEmptyIff(text);
    if Trim(text) == [] then None else Some(text)
  }

  /** `parse_due_string`'s result: a due time, no due time, or a format error. */
  datatype DueParse = DueOk(due: Option<int>) | DueInvalid

  /**
   * `parse_due_string`: an all-white-space field means no due date; any
   * other text is trimmed and handed to `parse`, which stands for chrono's
   * `%Y.%m.%d@%H:%M` parser and yields seconds since the epoch.
   */
  function ParseDue(input: seq<char>, parse: seq<char> -> Option<int>): (r: DueParse)
    ensures r == DueOk(None) <==> AllWhitespace(input)
    ensures r == DueInvalid <==> !AllWhitespace(input) && parse(Trim(input)).None?
    ensures r.DueOk? && r.due.Some? ==> parse(Trim(input)) == r.due
  {
    TrimEmptyIff(input);
    var t := Trim(input);
    if t == [] then DueOk(None)
    else match parse(t)
      case None => DueInvalid
      case Some(d) => DueOk(Some(d))
  }

  /**
   * Opening a note in the edit form and submitting it untouched gives back
   * its title (when it is already trimmed and not empty), its body (when it
   * is not blank) and its tags (when each is non-empty and free of white
   * space and commas).
   */
  lemma EditFormRoundTrip(note: Model.Note, formatDue: int -> seq<char>)
    requires Trim(note.title) == note.title && note.title != []
    requires note.body.Some? ==> !AllWhitespace(note.body.value)
    requires forall j | 0 <= j < |note.tags| :: note.tags[j] != [] && NoSeparator(note.tags[j])
    ensures var s := FormOfNote(note, formatDue);
      && SubmittedTitle(s.title.value) == Some(note.title)
      && SubmittedBody(s.body.value) == note.body
      && ParseTags(s.tags.value) == note.tags
  {
    ParseJoinedTags(note.tags);
    assert AllWhitespace("");
  }

  /**
   * `NoteForm`: the four fields and the focused one. `Valid` says the four
   * `FieldValue`s are distinct objects, each with its cursor on a character
   * boundary.
   */
  class NoteForm {
    var title: FieldValue
    var body: FieldValue
    var tags: FieldValue
    var due: FieldValue
    var field: FormField

    ghost predicate Valid()
      reads this, title, body, tags, due
    {
      && title != body && title != tags && title != due
      && body != tags && body != due && tags != due
      && title.Valid() && body.Valid() && tags.Valid() && due.Valid()
    }

    ghost function Snapshot(): FormState
      reads this, title, body, tags, due
    {
      FormState(
        FieldState(title.value, title.pos), FieldState(body.value, body.pos),
        FieldState(tags.value, tags.pos), FieldState(due.value, due.pos), field)
    }

    /** `NoteForm::new`: four empty fields, the title focused. */
    constructor New()
      ensures Valid() && Snapshot() == EmptyForm()
      ensures fresh(title) && fresh(body) && fresh(tags) && fresh(due)
    {
      title := new FieldValue("");
      body := new FieldValue("");
      tags := new FieldValue("");
      due := new FieldValue("");
      field := Title;
    }

    /** `NoteForm::from_note`. */
    constructor FromNote(note: Model.Note, formatDue: int -> seq<char>)
      ensures Valid() && Snapshot() == FormOfNote(note, formatDue)
      ensures fresh(title) && fresh(body) && fresh(tags) && fresh(due)
    {
      title := new FieldValue(note.title);
      body := new FieldValue(note.body.GetOr(""));
      tags := new FieldValue(Join(note.tags, " "));
      due := new FieldValue(match note.due case None => "" case Some(d) => formatDue(d));
      field := Title;
    }

    /** `active_field_mut`. */
    function ActiveField(): (f: FieldValue)
      reads this
      ensures f == (match field case Title => title case Body => body case Tags => tags case Due => due)
    {
      match field
      case Title => title
      case Body => body
      case Tags => tags
      case Due => due
    }

    /** `next_field`. */
    method NextField()
      modifies this
      ensures field == old(field).Next()
      ensures title == old(title) && body == old(body) && tags == old(tags) && due == old(due)
    {
      field := field.Next();
    }

    /** `prev_field`. */
    method PrevField()
      modifies this
      ensures field == old(field).Prev()
      ensures title == old(title) && body == old(body) && tags == old(tags) && due == old(due)
    {
      field := field.Prev();
    }

    /**
     * The form part of `process_form_key`: applies the key to the form and
     * reports whether the key cancels, submits or neither.
     */
    method HandleKey(key: Key) returns (outcome: FormOutcome)
      requires Valid()
      modifies this, title, body, tags, due
      ensures Valid()
      ensures title == old(title) && body == old(body) && tags == old(tags) && due == old(due)
      ensures FormStep(Snapshot(), outcome) == FormKey(old(Snapshot()), key)
    {
      outcome := Continue;
      match key {
        case Esc =>
          outcome := Cancel;
        case Tab =>
          NextField();
        case BackTab =>
          PrevField();
        case Enter(ctrl) =>
          if field == Body && !ctrl {
            EditActive(key);
          } else {
            outcome := Submit;
          }
        case Other =>
        case _ =>
          EditActive(key);
      }
    }

    /** The focused field's `FieldValue` method for `key`, called on the focused field. */
    method EditActive(key: Key)
      requires Valid()
      modifies title, body, tags, due
      ensures Valid()
      ensures Snapshot() == WithField(old(Snapshot()), field, EditField(old(FieldOf(Snapshot(), field)), key))
    {
      var f := ActiveField();
      ApplyKey(f, key);
    }
  }

  /** Dispatches an editing key to the `FieldValue` method `process_form_key` calls for it. */
  method ApplyKey(f: FieldValue, key: Key)
    requires f.Valid()
    modifies f
    ensures f.Valid()
    ensures FieldState(f.value, f.pos) == EditField(old(FieldState(f.value, f.pos)), key)
  {
    match key {
      case Left => f.MoveLeft();
      case Right => f.MoveRight();
      case Up => f.MoveUp();
      case Down => f.MoveDown();
      case Backspace => f.Backspace();
      case Char(c, ctrl, alt) =>
        if !(ctrl || alt) {
          f.InsertChar(c);
        }
      case Enter(_) => f.InsertChar('\n');
      case _ =>
    }
  }
}
