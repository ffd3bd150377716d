/**
 * The board data model of src/model.rs: notes, columns, the board that owns
 * them, and the three mutation primitives `add_note`, `move_note` and
 * `update_note` with their error contracts.
 *
 * Each primitive is given twice: as a pure specification function over a
 * `State` value (`AddNoteSpec`, `MoveNoteSpec`, `UpdateNoteSpec`), whose
 * contract and the lemmas beside it state what the source promises, and as a
 * method of the `Board` class that performs the same steps in place and is
 * proved to reach exactly the state the specification function describes.
 */
module Model {
  import opened Wrappers

  type NoteId = string

  /** Values of Rust's `u32`, the type of `Column::wip_limit`. */
  const U32_MODULUS: int := 0x1_0000_0000
  type U32 = x: int | 0 <= x < U32_MODULUS

  /** Timestamps are seconds since the epoch, `due` included. */
  datatype Note = Note(
    id: NoteId,
    title: string,
    body: Option<string>,
    tags: seq<string>,
    createdAt: int,
    updatedAt: int,
    due: Option<int>)

  datatype Column = Column(
    id: string,
    name: string,
    wipLimit: Option<U32>,
    noteIds: seq<NoteId>)

  datatype BoardError =
    | ColumnNotFound(columnId: string)
    | NoteNotFound(noteId: NoteId)
    | NoteLocationMissing(noteId: NoteId)
    | WipLimitReached(columnId: string)

  /** `Result<(), BoardError>`. */
  datatype Outcome = Ok | Err(error: BoardError)

  /** The part of a `Board` that the primitives change, as a value. */
  datatype State = State(columns: seq<Column>, notes: map<NoteId, Note>)

  /** What a primitive returns together with the state it leaves behind. */
  datatype Step = Step(outcome: Outcome, state: State)

  /** `Note::new`: both timestamps are the creation instant `now`. */
  function NewNote(id: NoteId, title: string, body: Option<string>, tags: seq<string>,
                   due: Option<int>, now: int): (n: Note)
    ensures n.createdAt == now && n.updatedAt == n.createdAt
    ensures n.id == id && n.title == title && n.body == body && n.tags == tags && n.due == due
  {
    Note(id, title, body, tags, now, now, due)
  }

  function EmptyColumn(id: string, name: string): Column {
    Column(id, name, None, [])
  }

  /** The four columns of `Board::default_named`. */
  function DefaultColumns(): (cols: seq<Column>)
    ensures |cols| == 4
    ensures cols[0].id == "todo" && cols[1].id == "doing" && cols[2].id == "waiting" && cols[3].id == "done"
    ensures forall i | 0 <= i < |cols| :: cols[i].noteIds == [] && cols[i].wipLimit.None?
  {
    [EmptyColumn("todo", "To Do"), EmptyColumn("doing", "Doing"),
     EmptyColumn("waiting", "Waiting"), EmptyColumn("done", "Done")]
  }

  /** `i` is the first column whose id is `id`. */
  predicate IsFirstColumn(columns: seq<Column>, id: string, i: int) {
    0 <= i < |columns| && columns[i].id == id &&
    forall j | 0 <= j < i :: columns[j].id != id
  }

  /** `i` is the first column whose `note_ids` lists `noteId`. */
  predicate IsFirstHolder(columns: seq<Column>, noteId: NoteId, i: int) {
    0 <= i < |columns| && noteId in columns[i].noteIds &&
    forall j | 0 <= j < i :: noteId !in columns[j].noteIds
  }

  /** `Board::find_column_index`: a first-match linear scan over the column ids. */
  function FindColumnIndex(columns: seq<Column>, id: string): (r: Option<nat>)
    ensures r.Some? ==> IsFirstColumn(columns, id, r.value)
    ensures r.None? <==> forall j | 0 <= j < |columns| :: columns[j].id != id
  {
    if columns == [] then None
    else if columns[0].id == id then Some(0)
    else
      match FindColumnIndex(columns[1..], id)
      case None => None
      case Some(k) => Some(k + 1)
  }

  /** The first matching column is unique, so it is the one the scan finds. */
  lemma FirstColumnIsFound(columns: seq<Column>, id: string)
    ensures forall i | IsFirstColumn(columns, id, i) :: FindColumnIndex(columns, id) == Some(i)
  {
    forall i | IsFirstColumn(columns, id, i)
      ensures FindColumnIndex(columns, id) == Some(i)
    {
      var r := FindColumnIndex(columns, id);
      assert r.Some?;
      assert !(r.value < i) && !(i < r.value);
    }
  }

  /** `Board::find_note_column_index`: the first column that lists the note. */
  function FindNoteColumnIndex(columns: seq<Column>, noteId: NoteId): (r: Option<nat>)
    ensures r.Some? ==> IsFirstHolder(columns, noteId, r.value)
    ensures r.None? <==> forall j | 0 <= j < |columns| :: noteId !in columns[j].noteIds
  {
    if columns == [] then None
    else if noteId in columns[0].noteIds then Some(0)
    else
      match FindNoteColumnIndex(columns[1..], noteId)
      case None => None
      case Some(k) => Some(k + 1)
  }

  /** The first holder is unique, so it is the one the scan finds. */
  lemma FirstHolderIsFound(columns: seq<Column>, noteId: NoteId)
    ensures forall i | IsFirstHolder(columns, noteId, i) :: FindNoteColumnIndex(columns, noteId) == Some(i)
  {
    forall i | IsFirstHolder(columns, noteId, i)
      ensures FindNoteColumnIndex(columns, noteId) == Some(i)
    {
      var r := FindNoteColumnIndex(columns, noteId);
      assert r.Some?;
      assert !(r.value < i) && !(i < r.value);
    }
  }

  /** The column is full: it has a limit and holds at least that many ids. */
  predicate AtLimit(c: Column) {
    c.wipLimit.Some? && |c.noteIds| >= c.wipLimit.value
  }

  /**
   * `Board::ensure_wip`. The source compares `note_ids.len() as u32`, so the
   * length is truncated to 32 bits before the comparison.
   */
  function EnsureWip(columns: seq<Column>, idx: nat): (r: Outcome)
    requires idx < |columns|
    ensures r == Ok || r == Err(WipLimitReached(columns[idx].id))
    ensures |columns[idx].noteIds| < U32_MODULUS ==> (r.Err? <==> AtLimit(columns[idx]))
  {
    match columns[idx].wipLimit
    case Some(limit) =>
      if |columns[idx].noteIds| % U32_MODULUS >= limit then Err(WipLimitReached(columns[idx].id)) else Ok
    case None => Ok
  }

  /** `Vec::retain(|id| id != noteId)`: every occurrence removed, order kept. */
  function RemoveAll(xs: seq<NoteId>, noteId: NoteId): (r: seq<NoteId>)
    ensures forall x :: x in r <==> x in xs && x != noteId
    ensures noteId !in xs ==> r == xs
    ensures noteId in xs ==> |r| < |xs|
    ensures multiset(r) == multiset(xs)[noteId := 0]
  {
    if xs == [] then []
    else
      assert xs == [xs[0]] + xs[1..];
      if xs[0] == noteId then RemoveAll(xs[1..], noteId)
      else [xs[0]] + RemoveAll(xs[1..], noteId)
  }

  /** `retain` works element by element, so it keeps the order of what remains. */
  lemma {:induction false} RemoveAllAppend(a: seq<NoteId>, b: seq<NoteId>, noteId: NoteId)
    ensures RemoveAll(a + b, noteId) == RemoveAll(a, noteId) + RemoveAll(b, noteId)
  {
    if a == [] {
      assert a + b == b;
    } else {
      assert (a + b)[0] == a[0] && (a + b)[1..] == a[1..] + b;
      RemoveAllAppend(a[1..], b, noteId);
    }
  }

  function WithAppended(c: Column, noteId: NoteId): Column {
    c.(noteIds := c.noteIds + [noteId])
  }

  function WithRemoved(c: Column, noteId: NoteId): Column {
    c.(noteIds := RemoveAll(c.noteIds, noteId))
  }

  /** `Board::update_note`: apply the mutator, then always stamp `updated_at`. */
  function UpdateNoteSpec(s: State, noteId: NoteId, mutator: Note -> Note, now: int): (r: Step)
    ensures r.state.columns == s.columns
    ensures r.outcome == Err(NoteNotFound(noteId)) <==> noteId !in s.notes
    ensures r.outcome.Err? ==> r.state == s
    ensures r.outcome.Ok? ==>
      && r.outcome == Ok
      && r.state.notes.Keys == s.notes.Keys
      && r.state.notes[noteId] == mutator(s.notes[noteId]).(updatedAt := now)
      && forall k | k in s.notes && k != noteId :: r.state.notes[k] == s.notes[k]
  {
    if noteId !in s.notes then Step(Err(NoteNotFound(noteId)), s)
    else Step(Ok, State(s.columns, s.notes[noteId := mutator(s.notes[noteId]).(updatedAt := now)]))
  }

  /** The mutator `|_| {}` that `Board::touch` passes to `update_note`. */
  function Keep(n: Note): Note { n }

  /** `Board::touch`. */
  function TouchSpec(s: State, noteId: NoteId, now: int): Step {
    UpdateNoteSpec(s, noteId, Keep, now)
  }

  /** `touch` changes nothing but the note's update time, which becomes `now`. */
  lemma TouchStampsOnly(s: State, noteId: NoteId, now: int)
    ensures noteId !in s.notes ==> TouchSpec(s, noteId, now) == Step(Err(NoteNotFound(noteId)), s)
    ensures noteId in s.notes ==>
      TouchSpec(s, noteId, now) == Step(Ok, s.(notes := s.notes[noteId := s.notes[noteId].(updatedAt := now)]))
  {
  }

  /** `Board::add_note`: look up the column, check its limit, then insert. */
  function AddNoteSpec(s: State, note: Note, columnId: string): (r: Step)
    ensures (forall j | 0 <= j < |s.columns| :: s.columns[j].id != columnId) ==>
      r == Step(Err(ColumnNotFound(columnId)), s)
    ensures forall i | IsFirstColumn(s.columns, columnId, i) ::
      && (AtLimit(s.columns[i]) && |s.columns[i].noteIds| < U32_MODULUS ==>
            r == Step(Err(WipLimitReached(columnId)), s))
      && (!AtLimit(s.columns[i]) ==>
            && r.outcome == Ok
            && r.state.notes == s.notes[note.id := note]
            && |r.state.columns| == |s.columns|
            && r.state.columns[i] == s.columns[i].(noteIds := s.columns[i].noteIds + [note.id])
            && forall j | 0 <= j < |s.columns| && j != i :: r.state.columns[j] == s.columns[j])
    ensures r.outcome.Err? ==> r.state == s
  {
    FirstColumnIsFound(s.columns, columnId);
    match FindColumnIndex(s.columns, columnId)
    case None => Step(Err(ColumnNotFound(columnId)), s)
    case Some(i) =>
      var wip := EnsureWip(s.columns, i);
      if wip.Err? then Step(wip, s)
      else Step(Ok, State(AppendedAt(s.columns, i, note.id), s.notes[note.id := note]))
  }

  /** The columns with `noteId` appended to column `i`'s list. */
  function AppendedAt(columns: seq<Column>, i: nat, noteId: NoteId): (r: seq<Column>)
    requires i < |columns|
    ensures |r| == |columns| && r[i] == columns[i].(noteIds := columns[i].noteIds + [noteId])
    ensures forall j | 0 <= j < |columns| && j != i :: r[j] == columns[j]
  {
    columns[i := WithAppended(columns[i], noteId)]
  }

  /** The columns after moving `noteId` out of column `src` to the end of column `dest`. */
  function MovedColumns(columns: seq<Column>, noteId: NoteId, src: nat, dest: nat): (r: seq<Column>)
    requires src < |columns| && dest < |columns| && src != dest
    ensures |r| == |columns|
    ensures r[src] == columns[src].(noteIds := RemoveAll(columns[src].noteIds, noteId))
    ensures r[dest] == columns[dest].(noteIds := columns[dest].noteIds + [noteId])
    ensures forall j | 0 <= j < |columns| && j != src && j != dest :: r[j] == columns[j]
  {
    var cols := columns[src := WithRemoved(columns[src], noteId)];
    cols[dest := WithAppended(cols[dest], noteId)]
  }

  /**
   * `Board::move_note`. Errors are checked in the source's order; a move to
   * the column that already holds the note is a successful no-op without a
   * limit check; otherwise the note is removed from its first holder,
   * appended to the destination, and touched.
   */
  function MoveNoteSpec(s: State, noteId: NoteId, destColumnId: string, now: int): (r: Step)
    ensures noteId !in s.notes ==> r == Step(Err(NoteNotFound(noteId)), s)
    ensures noteId in s.notes && (forall j | 0 <= j < |s.columns| :: s.columns[j].id != destColumnId) ==>
      r == Step(Err(ColumnNotFound(destColumnId)), s)
    ensures noteId in s.notes && (exists d :: IsFirstColumn(s.columns, destColumnId, d)) &&
            (forall j | 0 <= j < |s.columns| :: noteId !in s.columns[j].noteIds) ==>
      r == Step(Err(NoteLocationMissing(noteId)), s)
    ensures forall d, src | IsFirstColumn(s.columns, destColumnId, d) && IsFirstHolder(s.columns, noteId, src) ::
      noteId in s.notes ==>
        && (src == d ==> r == Step(Ok, s))
        && (src != d && AtLimit(s.columns[d]) && |s.columns[d].noteIds| < U32_MODULUS ==>
              r == Step(Err(WipLimitReached(destColumnId)), s))
        && (src != d && !AtLimit(s.columns[d]) ==>
              && r.outcome == Ok
              && r.state.notes == s.notes[noteId := s.notes[noteId].(updatedAt := now)]
              && |r.state.columns| == |s.columns|
              && r.state.columns[src] == s.columns[src].(noteIds := RemoveAll(s.columns[src].noteIds, noteId))
              && r.state.columns[d] == s.columns[d].(noteIds := s.columns[d].noteIds + [noteId])
              && forall j | 0 <= j < |s.columns| && j != src && j != d :: r.state.columns[j] == s.columns[j])
    ensures r.outcome.Err? ==> r.state == s
  {
    FirstColumnIsFound(s.columns, destColumnId);
    FirstHolderIsFound(s.columns, noteId);
    if noteId !in s.notes then Step(Err(NoteNotFound(noteId)), s)
    else
      match FindColumnIndex(s.columns, destColumnId)
      case None => Step(Err(ColumnNotFound(destColumnId)), s)
      case Some(d) =>
        match FindNoteColumnIndex(s.columns, noteId)
        case None => Step(Err(NoteLocationMissing(noteId)), s)
        case Some(src) =>
          if src == d then Step(Ok, s)
          else
            var wip := EnsureWip(s.columns, d);
            if wip.Err? then Step(wip, s)
            else TouchSpec(State(MovedColumns(s.columns, noteId, src, d), s.notes), noteId, now)
  }

  /** `add_note` neither adds nor removes a column. */
  lemma AddKeepsColumnCount(s: State, note: Note, columnId: string)
    ensures |AddNoteSpec(s, note, columnId).state.columns| == |s.columns|
  {
  }

  /** `move_note` neither adds nor removes a column. */
  lemma MoveKeepsColumns(s: State, noteId: NoteId, destColumnId: string, now: int)
    ensures var cols := MoveNoteSpec(s, noteId, destColumnId, now).state.columns;
      |cols| == |s.columns| && forall j | 0 <= j < |cols| :: cols[j].id == s.columns[j].id
  {
    var d := FindColumnIndex(s.columns, destColumnId);
    var src := FindNoteColumnIndex(s.columns, noteId);
    if noteId in s.notes && d.Some? && src.Some? && src.value != d.value {
      var cols := MovedColumns(s.columns, noteId, src.value, d.value);
      assert forall j | 0 <= j < |cols| :: cols[j].id == s.columns[j].id;
    }
  }

  /** Referential integrity: every id listed in a column is a key of `notes`. */
  ghost predicate RefIntegrity(s: State) {
    forall i, k | 0 <= i < |s.columns| && 0 <= k < |s.columns[i].noteIds| :: s.columns[i].noteIds[k] in s.notes
  }

  /** Exclusive placement: no id is listed by two different columns. */
  ghost predicate Exclusive(s: State) {
    forall i, j, id | 0 <= i < |s.columns| && 0 <= j < |s.columns| &&
                      id in s.columns[i].noteIds && id in s.columns[j].noteIds :: i == j
  }

  lemma AddNotePreservesIntegrity(s: State, note: Note, columnId: string)
    requires RefIntegrity(s)
    ensures RefIntegrity(AddNoteSpec(s, note, columnId).state)
  {
  }

  lemma UpdateNotePreservesIntegrity(s: State, noteId: NoteId, mutator: Note -> Note, now: int)
    requires RefIntegrity(s)
    ensures RefIntegrity(UpdateNoteSpec(s, noteId, mutator, now).state)
  {
  }

  lemma MoveNotePreservesIntegrity(s: State, noteId: NoteId, destColumnId: string, now: int)
    requires RefIntegrity(s)
    ensures RefIntegrity(MoveNoteSpec(s, noteId, destColumnId, now).state)
  {
    var r := MoveNoteSpec(s, noteId, destColumnId, now);
    if r.state != s {
      var d := FindColumnIndex(s.columns, destColumnId).value;
      var src := FindNoteColumnIndex(s.columns, noteId).value;
      var cols := r.state.columns;
      forall i, k | 0 <= i < |cols| && 0 <= k < |cols[i].noteIds|
        ensures cols[i].noteIds[k] in r.state.notes
      {
        var x := cols[i].noteIds[k];
        if i == d {
          if k < |s.columns[d].noteIds| {
            assert x == s.columns[d].noteIds[k];
          }
        } else if i == src {
          assert x in s.columns[src].noteIds;
        } else {
          assert x == s.columns[i].noteIds[k];
        }
      }
    }
  }

  /** Adding a note whose id no column lists keeps placement exclusive. */
  lemma AddNotePreservesExclusive(s: State, note: Note, columnId: string)
    requires Exclusive(s)
    requires forall j | 0 <= j < |s.columns| :: note.id !in s.columns[j].noteIds
    ensures Exclusive(AddNoteSpec(s, note, columnId).state)
  {
    var r := AddNoteSpec(s, note, columnId);
    if r.outcome.Ok? {
      var i := FindColumnIndex(s.columns, columnId).value;
      var cols := r.state.columns;
      forall a, b, id | 0 <= a < |cols| && 0 <= b < |cols| && id in cols[a].noteIds && id in cols[b].noteIds
        ensures a == b
      {
        if id == note.id {
          assert a == i && b == i;
        } else {
          assert id in s.columns[a].noteIds && id in s.columns[b].noteIds;
        }
      }
    }
  }

  /**
   * If each id is listed by at most one column, a move that changes the
   * board leaves the note listed by exactly the destination column, and
   * placement stays exclusive.
   */
  lemma MoveNoteExclusivePlacement(s: State, noteId: NoteId, destColumnId: string, now: int)
    requires Exclusive(s)
    requires MoveNoteSpec(s, noteId, destColumnId, now).outcome == Ok
    ensures var r := MoveNoteSpec(s, noteId, destColumnId, now);
      && Exclusive(r.state)
      && forall j | 0 <= j < |r.state.columns| :: noteId in r.state.columns[j].noteIds <==> IsFirstColumn(s.columns, destColumnId, j)
  {
    var r := MoveNoteSpec(s, noteId, destColumnId, now);
    var d := FindColumnIndex(s.columns, destColumnId).value;
    var src := FindNoteColumnIndex(s.columns, noteId).value;
    if src != d {
      MovedColumnsPlacement(s, r.state, noteId, src, d);
    }
    forall j | 0 <= j < |r.state.columns|
      ensures noteId in r.state.columns[j].noteIds <==> IsFirstColumn(s.columns, destColumnId, j)
    {
      assert IsFirstColumn(s.columns, destColumnId, j) <==> j == d;
    }
  }

  /**
   * Moving `noteId` out of column `src` (which lists it) and onto the end of
   * column `d` keeps placement exclusive and leaves `d` the only holder.
   */
  lemma MovedColumnsPlacement(s: State, t: State, noteId: NoteId, src: nat, d: nat)
    requires Exclusive(s) && src != d && src < |s.columns| && d < |s.columns| && |t.columns| == |s.columns|
    requires noteId in s.columns[src].noteIds
    requires t.columns[src].noteIds == RemoveAll(s.columns[src].noteIds, noteId)
    requires t.columns[d].noteIds == s.columns[d].noteIds + [noteId]
    requires forall j | 0 <= j < |s.columns| && j != src && j != d :: t.columns[j] == s.columns[j]
    ensures Exclusive(t)
    ensures forall j | 0 <= j < |t.columns| :: noteId in t.columns[j].noteIds <==> j == d
  {
    var cols := t.columns;
    forall j | 0 <= j < |cols|
      ensures noteId in cols[j].noteIds <==> j == d
    {
      if j != d && j != src {
        assert cols[j] == s.columns[j];
      }
    }
    forall a, b, id | 0 <= a < |cols| && 0 <= b < |cols| && id in cols[a].noteIds && id in cols[b].noteIds
      ensures a == b
    {
      if id == noteId {
        assert a == d && b == d;
      } else {
        assert id in s.columns[a].noteIds && id in s.columns[b].noteIds;
      }
    }
  }

  /**
   * Repeating a successful move is a no-op, whatever `now` it carries: once
   * the note is in the destination (and only there), the source and
   * destination coincide.
   */
  lemma {:induction false} MoveNoteIdempotent(s: State, noteId: NoteId, destColumnId: string, now: int, later: int)
    requires Exclusive(s)
    requires MoveNoteSpec(s, noteId, destColumnId, now).outcome == Ok
    ensures var once := MoveNoteSpec(s, noteId, destColumnId, now);
      MoveNoteSpec(once.state, noteId, destColumnId, later) == Step(Ok, once.state)
  {
    var once := MoveNoteSpec(s, noteId, destColumnId, now);
    MoveNoteExclusivePlacement(s, noteId, destColumnId, now);
    var d := FindColumnIndex(s.columns, destColumnId).value;
    var t := once.state;
    MoveKeepsColumns(s, noteId, destColumnId, now);
    assert IsFirstColumn(t.columns, destColumnId, d);
    assert IsFirstHolder(t.columns, noteId, d);
    MoveInPlace(t, noteId, destColumnId, later, d);
  }

  /**
   * Without exclusive placement a repeated move is not a no-op: each move
   * takes the id out of its first holder only, so of an id listed by two
   * columns the second move carries the other copy to the destination too.
   */
  lemma MoveTwiceNeedsExclusive()
    ensures var s := State([Column("a", "A", None, ["n"]), Column("b", "B", None, ["n"]), Column("c", "C", None, [])],
                           map["n" := NewNote("n", "t", None, [], None, 0)]);
      var once := MoveNoteSpec(s, "n", "c", 0);
      once.outcome == Ok && MoveNoteSpec(once.state, "n", "c", 0).state != once.state
  {
    var s := State([Column("a", "A", None, ["n"]), Column("b", "B", None, ["n"]), Column("c", "C", None, [])],
                   map["n" := NewNote("n", "t", None, [], None, 0)]);
    assert RemoveAll(["n"], "n") == [];
    MoveAcross(s, "n", "c", 0, 2, 0);
    var t := MoveNoteSpec(s, "n", "c", 0).state;
    assert t.columns[1] == s.columns[1];
    MoveAcross(t, "n", "c", 0, 2, 1);
  }

  /** A move between two different columns, below the destination's limit, as `MoveNoteSpec` states it. */
  lemma MoveAcross(s: State, noteId: NoteId, destColumnId: string, now: int, d: nat, src: nat)
    requires noteId in s.notes && IsFirstColumn(s.columns, destColumnId, d) && IsFirstHolder(s.columns, noteId, src)
    requires src != d && !AtLimit(s.columns[d])
    ensures var r := MoveNoteSpec(s, noteId, destColumnId, now);
      && r.outcome == Ok && r.state.notes.Keys == s.notes.Keys && |r.state.columns| == |s.columns|
      && r.state.columns[src] == s.columns[src].(noteIds := RemoveAll(s.columns[src].noteIds, noteId))
      && r.state.columns[d] == s.columns[d].(noteIds := s.columns[d].noteIds + [noteId])
      && forall j | 0 <= j < |s.columns| && j != src && j != d :: r.state.columns[j] == s.columns[j]
  {
  }

  /** A note whose first holder is already the destination column stays where it is. */
  lemma MoveInPlace(t: State, noteId: NoteId, destColumnId: string, now: int, d: nat)
    requires noteId in t.notes && IsFirstColumn(t.columns, destColumnId, d) && IsFirstHolder(t.columns, noteId, d)
    ensures MoveNoteSpec(t, noteId, destColumnId, now) == Step(Ok, t)
  {
  }

  /** A board with the default columns and no notes. */
  lemma AddToDefaultBoard(note: Note)
    ensures var r := AddNoteSpec(State(DefaultColumns(), map[]), note, "todo");
      && r.outcome == Ok
      && r.state.columns[0].noteIds == [note.id]
      && r.state.notes == map[note.id := note]
  {
    assert IsFirstColumn(DefaultColumns(), "todo", 0);
  }

  /**
   * The source has no board-level invariant object; this class owns the
   * fields and mutates them in place as `Board`'s methods do.
   */
  class Board {
    var name: string
    var columns: seq<Column>
    var notes: map<NoteId, Note>

    function Snapshot(): State
      reads this
    {
      State(columns, notes)
    }

    /** `Board::default_named`. */
    constructor DefaultNamed(name: string)
      ensures this.name == name && columns == DefaultColumns() && notes == map[]
    {
      this.name := name;
      columns := DefaultColumns();
      notes := map[];
    }

    method AddNote(note: Note, columnId: string) returns (r: Outcome)
      modifies this
      ensures Step(r, Snapshot()) == AddNoteSpec(old(Snapshot()), note, columnId)
      ensures name == old(name)
    {
      var target := FindColumnIndex(columns, columnId);
      if target.None? {
        return Err(ColumnNotFound(columnId));
      }
      var idx := target.value;
      r := EnsureWip(columns, idx);
      if r.Err? {
        return;
      }
      notes := notes[note.id := note];
      columns := columns[idx := columns[idx].(noteIds := columns[idx].noteIds + [note.id])];
    }

    method MoveNote(noteId: NoteId, destColumnId: string, now: int) returns (r: Outcome)
      modifies this
      ensures Step(r, Snapshot()) == MoveNoteSpec(old(Snapshot()), noteId, destColumnId, now)
      ensures name == old(name)
    {
      if noteId !in notes {
        return Err(NoteNotFound(noteId));
      }
      var dest := FindColumnIndex(columns, destColumnId);
      if dest.None? {
        return Err(ColumnNotFound(destColumnId));
      }
      var destIdx := dest.value;
      var src := FindNoteColumnIndex(columns, noteId);
      if src.None? {
        return Err(NoteLocationMissing(noteId));
      }
      var srcIdx := src.value;
      if srcIdx == destIdx {
        return Ok;
      }
      r := EnsureWip(columns, destIdx);
      if r.Err? {
        return;
      }
      columns := columns[srcIdx := columns[srcIdx].(noteIds := RemoveAll(columns[srcIdx].noteIds, noteId))];
      columns := columns[destIdx := columns[destIdx].(noteIds := columns[destIdx].noteIds + [noteId])];
      r := Touch(noteId, now);
    }

    method UpdateNote(noteId: NoteId, mutator: Note -> Note, now: int) returns (r: Outcome)
      modifies this
      ensures Step(r, Snapshot()) == UpdateNoteSpec(old(Snapshot()), noteId, mutator, now)
      ensures name == old(name)
    {
      if noteId !in notes {
        return Err(NoteNotFound(noteId));
      }
      var note := mutator(notes[noteId]);
      note := note.(updatedAt := now);
      notes := notes[noteId := note];
      r := Ok;
    }

    method Touch(noteId: NoteId, now: int) returns (r: Outcome)
      modifies this
      ensures Step(r, Snapshot()) == TouchSpec(old(Snapshot()), noteId, now)
      ensures name == old(name)
    {
      r := UpdateNote(noteId, Keep, now);
    }
  }
}
