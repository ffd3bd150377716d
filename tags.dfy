/**
 * Text helpers of the note form in src/ui.rs: Rust's `str::trim`, which
 * strips Unicode white space from both ends, and `parse_tags`, which splits
 * the tags field on white space and commas and keeps the non-empty pieces.
 *
 * `parse_tags` is modelled as the source writes it (split, filter on the
 * trimmed piece, trim) and proved equal to an independent single-pass
 * tokenizer (`Tokens`) that collects the maximal runs of characters that are
 * neither white space nor ','. Joining tags with spaces, as the edit form
 * does, and parsing the result gives the tags back.
 */
module TagList {

  /** `char::is_whitespace`: the characters with the Unicode White_Space property. */
  predicate IsWhitespace(c: char) {
    var n := c as int;
    (0x09 <= n <= 0x0D) || n == 0x20 || n == 0x85 || n == 0xA0 || n == 0x1680
    || (0x2000 <= n <= 0x200A) || n == 0x2028 || n == 0x2029 || n == 0x202F
    || n == 0x205F || n == 0x3000
  }

  predicate AllWhitespace(s: seq<char>) {
    forall k | 0 <= k < |s| :: IsWhitespace(s[k])
  }

  predicate NoWhitespace(s: seq<char>) {
    forall k | 0 <= k < |s| :: !IsWhitespace(s[k])
  }

  /** `str::trim_start`. */
  function TrimStart(s: seq<char>): (r: seq<char>)
    ensures |r| <= |s| && r == s[|s| - |r|..]
    ensures AllWhitespace(s[..|s| - |r|])
    ensures r == [] || !IsWhitespace(r[0])
  {
    if s != [] && IsWhitespace(s[0]) then
      var r := TrimStart(s[1..]);
      assert s[..|s| - |r|] == [s[0]] + s[1..][..|s| - 1 - |r|];
      r
    else s
  }

  /** `str::trim_end`. */
  function TrimEnd(s: seq<char>): (r: seq<char>)
    ensures |r| <= |s| && r == s[..|r|]
    ensures AllWhitespace(s[|r|..])
    ensures r == [] || !IsWhitespace(r[|r| - 1])
  {
    if s != [] && IsWhitespace(s[|s| - 1]) then
      var r := TrimEnd(s[..|s| - 1]);
      assert s[|r|..] == s[..|s| - 1][|r|..] + [s[|s| - 1]];
      r
    else s
  }

  /** `str::trim`: white space removed from both ends. */
  function Trim(s: seq<char>): seq<char> {
    TrimEnd(TrimStart(s))
  }

  /** The trimmed text is empty exactly when the text is all white space. */
  lemma TrimEmptyIff(s: seq<char>)
    ensures Trim(s) == [] <==> AllWhitespace(s)
  {
    var a := TrimStart(s);
    if Trim(s) == [] {
      assert a[0..] == a;
      assert s[..|s|] == s;
    }
  }

  /**
   * The trimmed text is the slice s[i..j] where s[..i] and s[j..] are white
   * space and, unless the slice is empty, it starts and ends with a
   * character that is not.
   */
  lemma TrimIsInnerSlice(s: seq<char>) returns (i: nat, j: nat)
    ensures i <= j <= |s| && Trim(s) == s[i..j]
    ensures AllWhitespace(s[..i]) && AllWhitespace(s[j..])
    ensures i < j ==> !IsWhitespace(s[i]) && !IsWhitespace(s[j - 1])
  {
    var a := TrimStart(s);
    var r := TrimEnd(a);
    i := |s| - |a|;
    j := i + |r|;
    assert a[..|r|] == s[i..j];
    assert s[j..] == a[|r|..];
    if i < j {
      assert s[i] == a[0];
      assert s[j - 1] == r[|r| - 1];
    }
  }

  /** Trimming twice is trimming once. */
  lemma TrimIdempotent(s: seq<char>)
    ensures Trim(Trim(s)) == Trim(s)
  {
    var i, j := TrimIsInnerSlice(s);
    var r := Trim(s);
    if r != [] {
      assert r[0] == s[i] && r[|r| - 1] == s[j - 1];
      assert TrimStart(r) == r;
      assert TrimEnd(r) == r;
    }
  }

  /** Text with no white space is its own trim. */
  lemma TrimNoWhitespace(s: seq<char>)
    requires NoWhitespace(s)
    ensures Trim(s) == s
  {
    assert TrimStart(s) == s;
  }

  /** The separators of `parse_tags`: white space and ','. */
  predicate IsTagSeparator(c: char) {
    IsWhitespace(c) || c == ','
  }

  predicate NoSeparator(s: seq<char>) {
    forall k | 0 <= k < |s| :: !IsTagSeparator(s[k])
  }

  /**
   * `str::split` on a character predicate: the pieces between separators,
   * empty ones included, so there is always one more piece than separators.
   */
  function Split(s: seq<char>): (ps: seq<seq<char>>)
    ensures |ps| >= 1
    ensures forall i | 0 <= i < |ps| :: NoSeparator(ps[i])
  {
    if s == [] then [[]]
    else
      var rest := Split(s[1..]);
      if IsTagSeparator(s[0]) then [[]] + rest
      else [[s[0]] + rest[0]] + rest[1..]
  }

  /** The `filter(|s| !s.trim().is_empty()).map(|s| s.trim())` stage. */
  function KeepTrimmed(ps: seq<seq<char>>): seq<seq<char>> {
    if ps == [] then []
    else
      var t := Trim(ps[0]);
      (if t == [] then [] else [t]) + KeepTrimmed(ps[1..])
  }

  /**
   * `parse_tags`: the pieces between white space and commas, trimmed, with
   * the empty ones dropped. Every tag is non-empty and holds neither white
   * space nor a comma.
   */
  function ParseTags(input: seq<char>): (tags: seq<seq<char>>)
    ensures forall j | 0 <= j < |tags| :: tags[j] != [] && NoSeparator(tags[j])
  {
    var ps := Split(input);
    KeepTrimmedOfPieces(ps);
    KeepTrimmed(ps)
  }

  /** On separator-free pieces, the trim is the identity and only the empty pieces go. */
  lemma {:induction false} KeepTrimmedOfPieces(ps: seq<seq<char>>)
    requires forall i | 0 <= i < |ps| :: NoSeparator(ps[i])
    ensures KeepTrimmed(ps) == DropEmpty(ps)
  {
    if ps != [] {
      TrimNoWhitespace(ps[0]);
      KeepTrimmedOfPieces(ps[1..]);
    }
  }

  function DropEmpty(ps: seq<seq<char>>): (r: seq<seq<char>>)
    ensures forall j | 0 <= j < |r| :: r[j] != [] && r[j] in ps
  {
    if ps == [] then []
    else (if ps[0] == [] then [] else [ps[0]]) + DropEmpty(ps[1..])
  }

  /**
   * The reference tokenizer: one pass over the input, growing the current
   * run `cur` and emitting it at every separator and at the end when it is
   * non-empty.
   */
  function Scan(s: seq<char>, cur: seq<char>): seq<seq<char>> {
    if s == [] then (if cur == [] then [] else [cur])
    else if IsTagSeparator(s[0]) then (if cur == [] then [] else [cur]) + Scan(s[1..], [])
    else Scan(s[1..], cur + [s[0]])
  }

  /** The maximal non-empty runs of non-separator characters, in input order. */
  function Tokens(s: seq<char>): seq<seq<char>> {
    Scan(s, [])
  }

  /** Scanning with a pending run `cur` is splitting and gluing `cur` onto the first piece. */
  lemma {:induction false} ScanIsSplit(s: seq<char>, cur: seq<char>)
    ensures var ps := Split(s);
      Scan(s, cur) == DropEmpty([cur + ps[0]] + ps[1..])
  {
    var ps := Split(s);
    if s == [] {
      assert ps == [[]];
      assert cur + ps[0] == cur;
      assert [cur + ps[0]] + ps[1..] == [cur];
      assert DropEmpty([cur]) == (if cur == [] then [] else [cur]) + DropEmpty([]);
    } else if IsTagSeparator(s[0]) {
      ScanIsSplit(s[1..], []);
      var rest := Split(s[1..]);
      assert [] + rest[0] == rest[0];
      assert [rest[0]] + rest[1..] == rest;
      assert ps == [[]] + rest;
      assert cur + ps[0] == cur;
      assert ps[1..] == rest;
      assert ([cur] + rest)[1..] == rest;
    } else {
      ScanIsSplit(s[1..], cur + [s[0]]);
      var rest := Split(s[1..]);
      assert cur + [s[0]] + rest[0] == cur + ([s[0]] + rest[0]);
    }
  }

  /** `parse_tags` returns exactly the maximal runs of non-separator characters. */
  lemma ParseTagsIsTokens(input: seq<char>)
    ensures ParseTags(input) == Tokens(input)
  {
    var ps := Split(input);
    calc {
      Tokens(input);
    ==  { ScanIsSplit(input, []); }
      DropEmpty([[] + ps[0]] + ps[1..]);
    ==  { assert [] + ps[0] == ps[0]; assert [ps[0]] + ps[1..] == ps; }
      DropEmpty(ps);
    ==  { KeepTrimmedOfPieces(ps); }
      KeepTrimmed(ps);
    }
  }

  /** The text without its separators. */
  function Letters(s: seq<char>): seq<char> {
    if s == [] then []
    else (if IsTagSeparator(s[0]) then [] else [s[0]]) + Letters(s[1..])
  }

  function Concat(ts: seq<seq<char>>): seq<char> {
    if ts == [] then [] else ts[0] + Concat(ts[1..])
  }

  lemma {:induction false} ConcatAppend(a: seq<seq<char>>, b: seq<seq<char>>)
    ensures Concat(a + b) == Concat(a) + Concat(b)
  {
    if a != [] {
      ConcatAppend(a[1..], b);
      assert (a + b)[1..] == a[1..] + b;
    } else {
      assert a + b == b;
    }
  }

  lemma {:induction false} ConcatDropEmpty(ps: seq<seq<char>>)
    ensures Concat(DropEmpty(ps)) == Concat(ps)
  {
    if ps != [] {
      ConcatDropEmpty(ps[1..]);
      var head: seq<seq<char>> := if ps[0] == [] then [] else [ps[0]];
      ConcatAppend(head, DropEmpty(ps[1..]));
    }
  }

  lemma {:induction false} ConcatSplit(s: seq<char>)
    ensures Concat(Split(s)) == Letters(s)
  {
    if s != [] {
      ConcatSplit(s[1..]);
      var rest := Split(s[1..]);
      if !IsTagSeparator(s[0]) {
        assert Concat(rest) == rest[0] + Concat(rest[1..]);
        assert Concat([[s[0]] + rest[0]] + rest[1..]) == [s[0]] + rest[0] + Concat(rest[1..]);
      }
    }
  }

  /** No character other than separators is lost or added: the tags spell the input's letters. */
  lemma ParseTagsKeepsLetters(input: seq<char>)
    ensures Concat(ParseTags(input)) == Letters(input)
  {
    var ps := Split(input);
    KeepTrimmedOfPieces(ps);
    ConcatDropEmpty(ps);
    ConcatSplit(input);
  }

  /** `[String]::join`. */
  function Join(ts: seq<seq<char>>, sep: seq<char>): seq<char> {
    if ts == [] then []
    else if |ts| == 1 then ts[0]
    else ts[0] + sep + Join(ts[1..], sep)
  }

  lemma {:induction false} SplitWord(t: seq<char>)
    requires NoSeparator(t)
    ensures Split(t) == [t]
  {
    if t != [] {
      SplitWord(t[1..]);
      assert [t[0]] + t[1..] == t;
    }
  }

  lemma {:induction false} SplitWordThenSeparator(t: seq<char>, c: char, rest: seq<char>)
    requires NoSeparator(t) && IsTagSeparator(c)
    ensures Split(t + [c] + rest) == [t] + Split(rest)
  {
    var s := t + [c] + rest;
    if t == [] {
      assert s[1..] == rest;
    } else {
      assert s[1..] == t[1..] + [c] + rest;
      SplitWordThenSeparator(t[1..], c, rest);
      assert [t[0]] + t[1..] == t;
    }
  }

  /**
   * Round trip of the edit form: tags shown joined with spaces and parsed
   * back are the same tags, as long as no tag is empty or holds a separator.
   */
  lemma {:induction false} ParseJoinedTags(ts: seq<seq<char>>)
    requires forall j | 0 <= j < |ts| :: ts[j] != [] && NoSeparator(ts[j])
    ensures ParseTags(Join(ts, " ")) == ts
  {
    if ts == [] {
    } else if |ts| == 1 {
      SplitWord(ts[0]);
      KeepTrimmedOfPieces([ts[0]]);
    } else {
      ParseJoinedTags(ts[1..]);
      var rest := Join(ts[1..], " ");
      SplitWordThenSeparator(ts[0], ' ', rest);
      assert ts[0] + " " + rest == ts[0] + [' '] + rest;
      var ps := Split(rest);
      KeepTrimmedOfPieces(ps);
      KeepTrimmedOfPieces([ts[0]] + ps);
      assert ([ts[0]] + ps)[1..] == ps;
    }
  }
}
