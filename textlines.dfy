/**
 * The line structure of a text buffer, counted in characters. This is the
 * reference against which the byte-offset helpers of src/ui.rs
 * (`line_state`, `index_at_col`) and vertical cursor movement are proved:
 * a buffer is split on '\n', a position has a line and a column, and
 * moving up or down keeps the column where the target line is long enough.
 */
module TextLines {

  function Min(a: nat, b: nat): nat {
    if a <= b then a else b
  }

  /** No line break among s[from..to]. */
  predicate NoBreak(s: seq<char>, from: nat, to: nat)
    requires from <= to <= |s|
  {
    forall k | from <= k < to :: s[k] != '\n'
  }

  /** The first position of the line that contains position `i`. */
  function LineStart(s: seq<char>, i: nat): (r: nat)
    requires i <= |s|
    ensures r <= i && NoBreak(s, r, i)
    ensures r == 0 || s[r - 1] == '\n'
  {
    if i == 0 then 0
    else if s[i - 1] == '\n' then i
    else LineStart(s, i - 1)
  }

  /** The position of the line break that ends the line of `i`, or |s| on the last line. */
  function LineEnd(s: seq<char>, i: nat): (r: nat)
    requires i <= |s|
    ensures i <= r <= |s| && NoBreak(s, i, r)
    ensures r == |s| || s[r] == '\n'
    decreases |s| - i
  {
    if i == |s| || s[i] == '\n' then i
    else LineEnd(s, i + 1)
  }

  /** The column of position `i`: characters between the start of its line and `i`. */
  function Column(s: seq<char>, i: nat): nat
    requires i <= |s|
  {
    i - LineStart(s, i)
  }

  /**
   * The start positions of all lines, in order: 0 and every position right
   * after a line break (the character positions of `line_state`'s
   * `starts`).
   */
  function LineStarts(s: seq<char>): (ls: seq<nat>)
    ensures |ls| >= 1 && ls[0] == 0
    ensures forall l | 0 <= l < |ls| :: ls[l] <= |s|
    ensures forall l, m | 0 <= l < m < |ls| :: ls[l] < ls[m]
    ensures forall j | 0 <= j < |s| :: s[j] == '\n' <==> j + 1 in ls
  {
    if s == [] then [0]
    else
      var init := LineStarts(s[..|s| - 1]);
      assert forall j | 0 <= j < |s| - 1 :: s[..|s| - 1][j] == s[j];
      if s[|s| - 1] == '\n' then init + [|s|] else init
  }

  /** The line `i` is on moving up: same column, clamped to the previous line; no move on the first line. */
  function UpTarget(s: seq<char>, i: nat): (t: nat)
    requires i <= |s|
    ensures t <= |s|
  {
    var start := LineStart(s, i);
    if start == 0 then i
    else
      var prevStart := LineStart(s, start - 1);
      prevStart + Min(i - start, start - 1 - prevStart)
  }

  /** The position reached moving down: same column, clamped to the next line; no move on the last line. */
  function DownTarget(s: seq<char>, i: nat): (t: nat)
    requires i <= |s|
    ensures t <= |s|
  {
    var end := LineEnd(s, i);
    if end == |s| then i
    else
      var nextStart := end + 1;
      nextStart + Min(i - LineStart(s, i), LineEnd(s, nextStart) - nextStart)
  }

  /** A position that follows a line start with no break in between is on that line. */
  lemma {:induction false} LineStartWithin(s: seq<char>, a: nat, t: nat)
    requires a <= t <= |s| && (a == 0 || s[a - 1] == '\n') && NoBreak(s, a, t)
    ensures LineStart(s, t) == a
    decreases t
  {
    if t > a {
      assert s[t - 1] != '\n';
      LineStartWithin(s, a, t - 1);
    }
  }

  /** A position followed by no break up to a break (or the end) has that line end. */
  lemma {:induction false} LineEndWithin(s: seq<char>, t: nat, e: nat)
    requires t <= e <= |s| && (e == |s| || s[e] == '\n') && NoBreak(s, t, e)
    ensures LineEnd(s, t) == e
    decreases e - t
  {
    if t < e {
      assert s[t] != '\n';
      LineEndWithin(s, t + 1, e);
    }
  }

  /** Every position on a line shares the line's end. */
  lemma SameLineEnd(s: seq<char>, i: nat)
    requires i <= |s|
    ensures LineEnd(s, LineStart(s, i)) == LineEnd(s, i)
  {
    LineEndWithin(s, LineStart(s, i), LineEnd(s, i));
  }

  /** No line starts strictly after `x` and at or before `y` when s[x..y] has no break. */
  lemma NoStartInside(s: seq<char>, x: nat, y: nat, m: nat)
    requires x <= y <= |s| && NoBreak(s, x, y)
    requires m < |LineStarts(s)|
    ensures !(x < LineStarts(s)[m] <= y)
  {
    var ls := LineStarts(s);
    if 0 < ls[m] {
      assert (ls[m] - 1) + 1 in ls;
      assert s[ls[m] - 1] == '\n';
    }
  }

  /** Every line start is listed in `LineStarts`. */
  lemma LineStartListed(s: seq<char>, i: nat)
    requires i <= |s|
    ensures LineStart(s, i) in LineStarts(s)
  {
    var a := LineStart(s, i);
    if a > 0 {
      assert s[a - 1] == '\n';
    }
  }

  /**
   * The last entry of `LineStarts` at or before `pos` is the start of the
   * line of `pos`: the line index the source's second loop computes.
   */
  lemma LineIndexOf(s: seq<char>, pos: nat, l: nat)
    requires pos <= |s|
    requires l < |LineStarts(s)| && LineStarts(s)[l] <= pos
    requires l + 1 == |LineStarts(s)| || LineStarts(s)[l + 1] > pos
    ensures LineStarts(s)[l] == LineStart(s, pos)
  {
    var ls := LineStarts(s);
    var a := LineStart(s, pos);
    NoStartInside(s, a, pos, l);
    LineStartListed(s, pos);
  }

  /** The line before line `l` starts at the line start of the break that closes it. */
  lemma PreviousLine(s: seq<char>, l: nat)
    requires 0 < l < |LineStarts(s)|
    ensures LineStarts(s)[l - 1] == LineStart(s, LineStarts(s)[l] - 1)
  {
    var ls := LineStarts(s);
    var b := ls[l] - 1;
    LineIndexOf(s, b, l - 1);
  }

  /** The line after line `l` exists exactly when line `l` ends in a break, and starts just after it. */
  lemma NextLine(s: seq<char>, l: nat)
    requires l < |LineStarts(s)|
    ensures var e := LineEnd(s, LineStarts(s)[l]);
      && (l + 1 < |LineStarts(s)| <==> e < |s|)
      && (l + 1 < |LineStarts(s)| ==> LineStarts(s)[l + 1] == e + 1)
  {
    var ls := LineStarts(s);
    var a := ls[l];
    var e := LineEnd(s, a);
    if l + 1 < |ls| {
      NoStartInside(s, a, e, l + 1);
      assert s[ls[l + 1] - 1] == '\n';
      assert ls[l + 1] - 1 >= e;
      if e == |s| {
        assert false;
      }
      assert e + 1 in ls;
    }
  }

  /**
   * Moving up stays put on the first line and otherwise lands on the
   * previous line at the same column, or at that line's end when it is
   * shorter; it never passes the break that ends the previous line.
   */
  lemma UpTargetOnPreviousLine(s: seq<char>, i: nat)
    requires i <= |s|
    ensures var t := UpTarget(s, i);
      && t <= |s|
      && (LineStart(s, i) == 0 ==> t == i)
      && (LineStart(s, i) > 0 ==>
            var prevEnd := LineStart(s, i) - 1;
            && LineStart(s, t) == LineStart(s, prevEnd)
            && t <= prevEnd
            && LineEnd(s, t) == prevEnd
            && Column(s, t) == Min(Column(s, i), prevEnd - LineStart(s, prevEnd)))
  {
    var start := LineStart(s, i);
    if start > 0 {
      var prevEnd := start - 1;
      var prevStart := LineStart(s, prevEnd);
      var t := UpTarget(s, i);
      LineStartWithin(s, prevStart, t);
      LineEndWithin(s, t, prevEnd);
    }
  }

  /**
   * Moving down stays put on the last line and otherwise lands on the next
   * line at the same column, or at that line's end when it is shorter.
   */
  lemma DownTargetOnNextLine(s: seq<char>, i: nat)
    requires i <= |s|
    ensures var t := DownTarget(s, i);
      && t <= |s|
      && (LineEnd(s, i) == |s| ==> t == i)
      && (LineEnd(s, i) < |s| ==>
            var nextStart := LineEnd(s, i) + 1;
            && LineStart(s, t) == nextStart
            && LineEnd(s, t) == LineEnd(s, nextStart)
            && Column(s, t) == Min(Column(s, i), LineEnd(s, nextStart) - nextStart))
  {
    var end := LineEnd(s, i);
    if end < |s| {
      var nextStart := end + 1;
      var t := DownTarget(s, i);
      LineStartWithin(s, nextStart, t);
      LineEndWithin(s, t, LineEnd(s, nextStart));
    }
  }
}
