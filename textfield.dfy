/**
 * The text field editor of src/ui.rs: `FieldValue` and the helpers
 * `prev_grapheme`, `next_grapheme`, `line_state` and `index_at_col`.
 *
 * The source keeps the buffer as a Rust `String` and the cursor as a byte
 * offset into its UTF-8 encoding. Here the buffer is a sequence of
 * characters, `Utf8Width` gives each character's encoded length, and
 * `Offset(s, k)` is the byte offset of character position `k`. A byte
 * offset is a character boundary when it is `Offset(s, k)` for some `k`.
 * The helpers work on byte offsets, as the source does, and are proved
 * against the character-level reference in module TextLines.
 */
module TextField {
  import opened TextLines

  /** `char::len_utf8`. */
  function Utf8Width(c: char): (w: nat)
    ensures 1 <= w <= 4
    ensures c as int < 0x80 <==> w == 1
  {
    if c as int < 0x80 then 1
    else if c as int < 0x800 then 2
    else if c as int < 0x1_0000 then 3
    else 4
  }

  /** The byte offset of character position `k` in the UTF-8 encoding of `s`. */
  function Offset(s: seq<char>, k: nat): nat
    requires k <= |s|
  {
    if k == 0 then 0 else Offset(s, k - 1) + Utf8Width(s[k - 1])
  }

  /** `String::len`: the length of the encoding in bytes. */
  function ByteLen(s: seq<char>): nat {
    Offset(s, |s|)
  }

  /** `b` is a character boundary of `s` (`str::is_char_boundary`). */
  ghost predicate IsBoundary(s: seq<char>, b: int) {
    exists k | 0 <= k <= |s| :: Offset(s, k) == b
  }

  /** The character position at boundary `b`. */
  ghost function CharPos(s: seq<char>, b: int): (k: nat)
    requires IsBoundary(s, b)
    ensures k <= |s| && Offset(s, k) == b
  {
    var k :| 0 <= k <= |s| && Offset(s, k) == b; k
  }

  /** Every character takes at least one byte. */
  lemma {:induction false} OffsetGrows(s: seq<char>, i: nat, j: nat)
    requires i <= j <= |s|
    ensures Offset(s, i) + (j - i) <= Offset(s, j)
    decreases j
  {
    if i < j {
      OffsetGrows(s, i, j - 1);
    }
  }

  /** Offsets are strictly increasing in the character position. */
  lemma OffsetOrder(s: seq<char>, i: nat, j: nat)
    requires i <= |s| && j <= |s|
    ensures Offset(s, i) < Offset(s, j) <==> i < j
    ensures Offset(s, i) == Offset(s, j) <==> i == j
  {
    if i < j {
      OffsetGrows(s, i, j);
    } else if j < i {
      OffsetGrows(s, j, i);
    }
  }

  lemma OffsetOrderAll(s: seq<char>)
    ensures forall i, j | 0 <= i <= |s| && 0 <= j <= |s| :: Offset(s, i) < Offset(s, j) <==> i < j
  {
    forall i, j | 0 <= i <= |s| && 0 <= j <= |s|
      ensures Offset(s, i) < Offset(s, j) <==> i < j
    {
      OffsetOrder(s, i, j);
    }
  }

  /** Offsets depend only on the characters before the position. */
  lemma {:induction false} OffsetSharedPrefix(s: seq<char>, t: seq<char>, k: nat)
    requires k <= |s| && k <= |t| && s[..k] == t[..k]
    ensures Offset(s, k) == Offset(t, k)
    decreases k
  {
    if k > 0 {
      assert s[k - 1] == s[..k][k - 1] && t[k - 1] == t[..k][k - 1];
      assert s[..k - 1] == s[..k][..k - 1] && t[..k - 1] == t[..k][..k - 1];
      OffsetSharedPrefix(s, t, k - 1);
    }
  }

  /** The buffer after inserting `c` at character position `p`. */
  function InsertAt(s: seq<char>, p: nat, c: char): seq<char>
    requires p <= |s|
  {
    s[..p] + [c] + s[p..]
  }

  /** The buffer after deleting the character just before position `p`. */
  function DeleteBefore(s: seq<char>, p: nat): seq<char>
    requires 0 < p <= |s|
  {
    s[..p - 1] + s[p..]
  }

  /**
   * Inserting a character and deleting it again restores the buffer, and the
   * cursor after the insertion is the old cursor advanced by the character's
   * width, whatever that width is.
   */
  lemma InsertThenDelete(s: seq<char>, p: nat, c: char)
    requires p <= |s|
    ensures |InsertAt(s, p, c)| == |s| + 1
    ensures DeleteBefore(InsertAt(s, p, c), p + 1) == s
    ensures Offset(InsertAt(s, p, c), p + 1) == Offset(s, p) + Utf8Width(c)
  {
    var t := InsertAt(s, p, c);
    assert t[..p] == s[..p];
    OffsetSharedPrefix(s, t, p);
    assert t[..p] + t[p + 1..] == s;
  }

  /** Deleting the character before `p` leaves the offsets of earlier positions alone. */
  lemma DeleteKeepsOffset(s: seq<char>, p: nat)
    requires 0 < p <= |s|
    ensures Offset(DeleteBefore(s, p), p - 1) == Offset(s, p - 1)
  {
    var t := DeleteBefore(s, p);
    assert t[..p - 1] == s[..p - 1];
    OffsetSharedPrefix(s, t, p - 1);
  }

  /** Finds the character position of boundary `b` (what `String` indexing relies on). */
  method CharIndexOf(text: seq<char>, b: nat) returns (k: nat)
    requires IsBoundary(text, b)
    ensures k <= |text| && Offset(text, k) == b
  {
    ghost var target := CharPos(text, b);
    k := 0;
    var idx := 0;
    while idx < b
      invariant k <= target && idx == Offset(text, k)
      decreases b - idx
    {
      OffsetOrder(text, k, target);
      idx := idx + Utf8Width(text[k]);
      k := k + 1;
    }
    OffsetOrder(text, k, target);
  }

  /**
   * `prev_grapheme`: the start of the last character that begins before
   * `cursor`; 0 at the start or in an empty buffer. From a boundary it steps
   * back exactly one character.
   */
  method PrevGrapheme(cursor: nat, text: seq<char>) returns (r: nat)
    ensures cursor == 0 || text == [] ==> r == 0
    ensures cursor > 0 && text != [] ==>
      exists k | 0 <= k < |text| :: Offset(text, k) == r < cursor && (k + 1 == |text| || cursor <= Offset(text, k + 1))
    ensures forall k | 0 < k <= |text| && Offset(text, k) == cursor :: r == Offset(text, k - 1)
  {
    if cursor == 0 {
      return 0;
    }
    var prev := 0;
    var k := 0;
    var idx := 0;
    while k < |text|
      invariant k <= |text| && idx == Offset(text, k)
      invariant k == 0 ==> prev == 0
      invariant k > 0 ==> prev == Offset(text, k - 1) && prev < cursor
    {
      if idx >= cursor {
        break;
      }
      prev := idx;
      idx := idx + Utf8Width(text[k]);
      k := k + 1;
    }
    r := prev;
    if k > 0 {
      assert k == |text| || cursor <= Offset(text, k);
      OffsetOrderAll(text);
    }
  }

  /**
   * `next_grapheme`: the end of the character that contains or starts at
   * `cursor`; the end of the buffer from there on. From a boundary it steps
   * forward exactly one character.
   */
  method NextGrapheme(cursor: nat, text: seq<char>) returns (r: nat)
    ensures cursor >= ByteLen(text) ==> r == ByteLen(text)
    ensures cursor < ByteLen(text) ==>
      exists k | 0 < k <= |text| :: Offset(text, k - 1) <= cursor < Offset(text, k) == r
    ensures forall k | 0 <= k < |text| && Offset(text, k) == cursor :: r == Offset(text, k + 1)
  {
    OffsetOrderAll(text);
    var k := 0;
    var idx := 0;
    while k < |text|
      invariant k <= |text| && idx == Offset(text, k)
      invariant k > 0 ==> Offset(text, k - 1) < cursor
    {
      if idx > cursor {
        return idx;
      }
      if idx == cursor {
        assert Offset(text, (k + 1) - 1) <= cursor < Offset(text, k + 1);
        return cursor + Utf8Width(text[k]);
      }
      idx := idx + Utf8Width(text[k]);
      k := k + 1;
    }
    return ByteLen(text);
  }

  /** `line_state`'s `starts`: the byte offsets of all line starts. */
  function ByteLineStarts(s: seq<char>): (bs: seq<nat>)
    ensures |bs| == |LineStarts(s)|
    ensures forall l | 0 <= l < |bs| :: bs[l] == Offset(s, LineStarts(s)[l])
  {
    var ls := LineStarts(s);
    seq(|ls|, l requires 0 <= l < |ls| => Offset(s, ls[l]))
  }

  /** `start_of_line`: the start of line `lineIdx`, or 0 when there is no such line. */
  function StartOfLine(lineIdx: nat, starts: seq<nat>): nat {
    if lineIdx < |starts| then starts[lineIdx] else 0
  }

  /** The line starts of a prefix grow by one entry exactly after a line break. */
  lemma LineStartsExtend(text: seq<char>, k: nat)
    requires k < |text|
    ensures LineStarts(text[..k + 1]) == LineStarts(text[..k]) + (if text[k] == '\n' then [k + 1] else [])
  {
    assert text[..k + 1][..k] == text[..k];
  }

  /** `starts` lists the byte offsets of the positions `ls` of `text`. */
  ghost predicate OffsetsOf(text: seq<char>, ls: seq<nat>, starts: seq<nat>) {
    && |starts| == |ls|
    && forall l | 0 <= l < |ls| :: ls[l] <= |text| && starts[l] == Offset(text, ls[l])
  }

  /** One step of the first loop of `line_state`: a '\n' at `k` adds the line start `k + 1`. */
  lemma ByteStartsStep(text: seq<char>, k: nat, ls: seq<nat>, starts: seq<nat>)
    requires k < |text| && ls == LineStarts(text[..k]) && OffsetsOf(text, ls, starts)
    ensures text[k] == '\n' ==>
      LineStarts(text[..k + 1]) == ls + [k + 1] && OffsetsOf(text, ls + [k + 1], starts + [Offset(text, k) + 1])
    ensures text[k] != '\n' ==> LineStarts(text[..k + 1]) == ls
  {
    LineStartsExtend(text, k);
  }

  /** What the first loop of `line_state` has collected after the first `k` characters. */
  ghost function BreakOffsets(text: seq<char>, k: nat): seq<nat>
    requires k <= |text|
  {
    if k == 0 then [0]
    else BreakOffsets(text, k - 1) + (if text[k - 1] == '\n' then [Offset(text, k - 1) + 1] else [])
  }

  /** The collected offsets are those of the line starts of the prefix read so far. */
  lemma {:induction false} BreakOffsetsOfLineStarts(text: seq<char>, k: nat)
    requires k <= |text|
    ensures OffsetsOf(text, LineStarts(text[..k]), BreakOffsets(text, k))
  {
    if k == 0 {
      assert text[..0] == [];
    } else {
      BreakOffsetsOfLineStarts(text, k - 1);
      ByteStartsStep(text, k - 1, LineStarts(text[..k - 1]), BreakOffsets(text, k - 1));
    }
  }

  /** The first loop of `line_state`: 0 and the offset after every '\n'. */
  method ByteStarts(text: seq<char>) returns (starts: seq<nat>)
    ensures starts == ByteLineStarts(text)
  {
    starts := [0];
    var k := 0;
    var idx := 0;
    while k < |text|
      invariant k <= |text| && idx == Offset(text, k) && starts == BreakOffsets(text, k)
    {
      if text[k] == '\n' {
        starts := starts + [idx + 1];
      }
      idx := idx + Utf8Width(text[k]);
      k := k + 1;
    }
    BreakOffsetsOfLineStarts(text, |text|);
    assert text[..|text|] == text;
    OffsetsOfLineStarts(text, starts);
  }

  /** The offsets of all line starts of `text` are `ByteLineStarts(text)`. */
  lemma OffsetsOfLineStarts(text: seq<char>, starts: seq<nat>)
    requires OffsetsOf(text, LineStarts(text), starts)
    ensures starts == ByteLineStarts(text)
  {
  }

  /** The second loop of `line_state`: the last entry of `starts` at or before `cursor`. */
  method LastStartAtOrBefore(starts: seq<nat>, cursor: nat) returns (lineIdx: nat)
    requires |starts| >= 1 && starts[0] <= cursor
    ensures lineIdx < |starts| && starts[lineIdx] <= cursor
    ensures lineIdx + 1 == |starts| || starts[lineIdx + 1] > cursor
  {
    lineIdx := 0;
    var i := 0;
    while i < |starts|
      invariant i <= |starts|
      invariant lineIdx == if i == 0 then 0 else i - 1
      invariant forall j | 0 <= j < i :: starts[j] <= cursor
    {
      if starts[i] <= cursor {
        lineIdx := i;
        i := i + 1;
      } else {
        break;
      }
    }
  }

  /**
   * `line_state`: the byte offsets of all line starts, the index of the line
   * that holds the cursor and the cursor's column in characters.
   */
  method LineState(text: seq<char>, cursor: nat, ghost pos: nat) returns (starts: seq<nat>, lineIdx: nat, col: nat)
    requires pos <= |text| && cursor == Offset(text, pos)
    ensures starts == ByteLineStarts(text)
    ensures lineIdx < |starts| && LineStarts(text)[lineIdx] == LineStart(text, pos)
    ensures col == Column(text, pos)
  {
    starts := ByteStarts(text);
    lineIdx := LastStartAtOrBefore(starts, cursor);
    ghost var ls := LineStarts(text);
    OffsetOrder(text, ls[lineIdx], pos);
    if lineIdx + 1 < |ls| {
      OffsetOrder(text, ls[lineIdx + 1], pos);
    }
    LineIndexOf(text, pos, lineIdx);

    var lineStart := StartOfLine(lineIdx, starts);
    assert IsBoundary(text, lineStart) && IsBoundary(text, cursor);
    var a := CharIndexOf(text, lineStart);
    var p := CharIndexOf(text, cursor);
    OffsetOrder(text, a, ls[lineIdx]);
    OffsetOrder(text, p, pos);
    col := p - a;
  }

  /** The position `col` characters into the line starting at `a`, or that line's end when it is shorter. */
  function AtColumn(s: seq<char>, a: nat, col: nat): nat
    requires a <= |s|
  {
    a + Min(col, LineEnd(s, a) - a)
  }

  /**
   * `index_at_col`: from the line starting at byte offset `start`, the byte
   * offset of character column `targetCol`, or of the end of that line when
   * it is shorter.
   */
  method IndexAtCol(text: seq<char>, start: nat, targetCol: nat, ghost a: nat) returns (r: nat)
    requires a <= |text| && start == Offset(text, a)
    ensures r == Offset(text, AtColumn(text, a, targetCol))
  {
    var first := CharIndexOf(text, start);
    OffsetOrder(text, a, first);
    var e := first;
    var limit := 0;
    while e < |text| && text[e] != '\n'
      invariant a <= e <= |text| && NoBreak(text, a, e)
      invariant start + limit == Offset(text, e)
    {
      limit := limit + Utf8Width(text[e]);
      e := e + 1;
    }
    LineEndWithin(text, a, e);
    var col := 0;
    var k := first;
    var idx := 0;
    while k < e
      invariant a <= k <= e && col == k - a && col <= targetCol
      invariant start + idx == Offset(text, k)
    {
      if col == targetCol {
        return start + idx;
      }
      col := col + 1;
      idx := idx + Utf8Width(text[k]);
      k := k + 1;
    }
    return start + limit;
  }

  /**
   * What `move_up` reads off `line_state`: the first line is line 0, and
   * otherwise the target is on the line listed just before the cursor's, at
   * the cursor's column clamped to that line's length.
   */
  lemma UpViaLineStarts(s: seq<char>, pos: nat, l: nat)
    requires pos <= |s| && l < |LineStarts(s)| && LineStarts(s)[l] == LineStart(s, pos)
    ensures l == 0 <==> LineStart(s, pos) == 0
    ensures l > 0 ==>
      var a := LineStarts(s)[l - 1];
      UpTarget(s, pos) == AtColumn(s, a, Column(s, pos))
  {
    var ls := LineStarts(s);
    if l > 0 {
      PreviousLine(s, l);
      LineEndWithin(s, ls[l - 1], ls[l] - 1);
    }
  }

  /**
   * What `move_down` reads off `line_state`: there is a next line exactly
   * when the cursor's line ends in a break; it starts just after that break,
   * and the target is there at the cursor's column clamped to its length.
   */
  lemma DownViaLineStarts(s: seq<char>, pos: nat, l: nat)
    requires pos <= |s| && l < |LineStarts(s)| && LineStarts(s)[l] == LineStart(s, pos)
    ensures l + 1 < |LineStarts(s)| <==> LineEnd(s, pos) < |s|
    ensures l + 1 < |LineStarts(s)| ==>
      var a := LineStarts(s)[l + 1];
      && a == LineEnd(s, pos) + 1
      && DownTarget(s, pos) == AtColumn(s, a, Column(s, pos))
  {
    NextLine(s, l);
    SameLineEnd(s, pos);
  }

  /**
   * The cursor arithmetic of `move_up`: the boundary of the position one
   * line up, as `UpTarget` defines it.
   */
  method UpCursor(text: seq<char>, cursor: nat, ghost p: nat) returns (r: nat)
    requires p <= |text| && cursor == Offset(text, p)
    ensures r == Offset(text, UpTarget(text, p))
  {
    var starts, lineIdx, col := LineState(text, cursor, p);
    UpViaLineStarts(text, p, lineIdx);
    ghost var target := UpTarget(text, p);
    if lineIdx == 0 {
      assert target == p;
      r := cursor;
    } else {
      ghost var a := LineStarts(text)[lineIdx - 1];
      assert starts[lineIdx - 1] == Offset(text, a);
      r := IndexAtCol(text, starts[lineIdx - 1], col, a);
      assert target == AtColumn(text, a, col);
    }
  }

  /**
   * The cursor arithmetic of `move_down`: the boundary of the position one
   * line down, as `DownTarget` defines it.
   */
  method DownCursor(text: seq<char>, cursor: nat, ghost p: nat) returns (r: nat)
    requires p <= |text| && cursor == Offset(text, p)
    ensures r == Offset(text, DownTarget(text, p))
  {
    var starts, lineIdx, col := LineState(text, cursor, p);
    DownViaLineStarts(text, p, lineIdx);
    ghost var target := DownTarget(text, p);
    if lineIdx + 1 >= |starts| {
      assert target == p;
      return cursor;
    }
    ghost var a := LineStarts(text)[lineIdx + 1];
    assert starts[lineIdx + 1] == Offset(text, a);
    r := IndexAtCol(text, starts[lineIdx + 1], col, a);
    assert target == AtColumn(text, a, col);
  }

  /** The caret marker that `with_caret` inserts for display. */
  const CARET: char := '▌'

  /**
   * `FieldValue`: a buffer and a byte-offset cursor. The ghost field `pos`
   * is the cursor's character position; `Valid` says the cursor is the
   * boundary of that position, so it never sits inside a character.
   */
  class FieldValue {
    var value: seq<char>
    var cursor: nat
    ghost var pos: nat

    ghost predicate Valid()
      reads this
    {
      pos <= |value| && cursor == Offset(value, pos)
    }

    /** `FieldValue::new`: the cursor starts at the end of the text. */
    constructor (initial: seq<char>)
      ensures Valid() && value == initial && pos == |initial| && cursor == ByteLen(initial)
    {
      value := initial;
      cursor := ByteLen(initial);
      pos := |initial|;
    }

    method MoveLeft()
      requires Valid()
      modifies this
      ensures Valid() && value == old(value)
      ensures pos == if old(pos) == 0 then 0 else old(pos) - 1
    {
      if cursor == 0 {
        OffsetOrder(value, 0, pos);
        return;
      }
      cursor := PrevGrapheme(cursor, value);
      pos := pos - 1;
    }

    method MoveRight()
      requires Valid()
      modifies this
      ensures Valid() && value == old(value)
      ensures pos == if old(pos) == |value| then old(pos) else old(pos) + 1
    {
      OffsetOrder(value, pos, |value|);
      if cursor >= ByteLen(value) {
        return;
      }
      cursor := NextGrapheme(cursor, value);
      pos := pos + 1;
    }

    method MoveUp()
      requires Valid()
      modifies this
      ensures Valid() && value == old(value)
      ensures pos == UpTarget(value, old(pos))
    {
      cursor := UpCursor(value, cursor, pos);
      pos := UpTarget(value, pos);
    }

    method MoveDown()
      requires Valid()
      modifies this
      ensures Valid() && value == old(value)
      ensures pos == DownTarget(value, old(pos))
    {
      cursor := DownCursor(value, cursor, pos);
      pos := DownTarget(value, pos);
    }

    method Backspace()
      requires Valid()
      modifies this
      ensures Valid()
      ensures old(pos) == 0 ==> value == old(value) && pos == 0
      ensures old(pos) > 0 ==> value == DeleteBefore(old(value), old(pos)) && pos == old(pos) - 1
    {
      if cursor == 0 {
        OffsetOrder(value, 0, pos);
        return;
      }
      var prev := PrevGrapheme(cursor, value);
      var from := CharIndexOf(value, prev);
      var to := CharIndexOf(value, cursor);
      OffsetOrder(value, from, pos - 1);
      OffsetOrder(value, to, pos);
      DeleteKeepsOffset(value, pos);
      value := value[..from] + value[to..];
      cursor := prev;
      pos := pos - 1;
    }

    method InsertChar(ch: char)
      requires Valid()
      modifies this
      ensures Valid()
      ensures value == InsertAt(old(value), old(pos), ch) && pos == old(pos) + 1
      ensures cursor == old(cursor) + Utf8Width(ch)
    {
      var i := CharIndexOf(value, cursor);
      OffsetOrder(value, i, pos);
      InsertThenDelete(value, pos, ch);
      value := value[..i] + [ch] + value[i..];
      cursor := cursor + Utf8Width(ch);
      pos := pos + 1;
    }

    /** `with_caret`: the text with the caret marker at the cursor, for display only. */
    method WithCaret() returns (text: seq<char>)
      requires Valid()
      ensures text == InsertAt(value, pos, CARET)
      ensures Offset(text, pos) == cursor
    {
      var i := CharIndexOf(value, cursor);
      OffsetOrder(value, i, pos);
      text := value[..i] + [CARET] + value[i..];
      assert text[..pos] == value[..pos];
      OffsetSharedPrefix(text, value, pos);
    }
  }

  /**
   * The source's round trip on a live field: inserting a character and then
   * pressing backspace restores both the buffer and the cursor.
   */
  method InsertThenBackspace(f: FieldValue, ch: char)
    requires f.Valid()
    modifies f
    ensures f.Valid() && f.value == old(f.value) && f.cursor == old(f.cursor)
  {
    ghost var s, p := f.value, f.pos;
    f.InsertChar(ch);
    f.Backspace();
    InsertThenDelete(s, p, ch);
  }
}
