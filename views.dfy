/**
 * The read-only projections of the board used by the timeline and project
 * views of src/ui.rs: `timeline_lists` (notes without and with a due date,
 * each list sorted), `project_tags` (one bucket per tag in ascending tag
 * order, untagged notes in "(untagged)", each bucket sorted) and
 * `first_due_on_cursor`.
 *
 * The source walks `board.notes`, a `HashMap`, in an order it does not fix;
 * the model walks the keys in an arbitrary order (`:|`), so nothing below
 * depends on the order in which equal keys end up.
 */
module Views {
  import opened Wrappers
  import opened Model
  import opened Order

  /** A `(&str, &Note)` pair of the source: a key of `board.notes` and its note. */
  datatype Entry = Entry(id: NoteId, note: Note)

  /** The key `timeline_lists` sorts the unassigned list by. */
  function CreatedKey(e: Entry): SortKey {
    SortKey(e.note.createdAt, Lower(e.note.title))
  }

  /**
   * The key `timeline_lists` sorts the assigned list by; `now` stands for
   * the `Utc::now()` fallback, which no assigned note reaches.
   */
  function DueKey(now: int): Entry -> SortKey {
    (e: Entry) => SortKey(e.note.due.GetOr(now), Lower(e.note.title))
  }

  /** The key `project_tags` sorts each bucket by. */
  function UpdatedKey(e: Entry): SortKey {
    SortKey(e.note.updatedAt, Lower(e.note.title))
  }

  /** `xs` holds, once each, the entries of the notes among `done` that have (or lack) a due date, and nothing else. */
  ghost predicate HoldsDue(notes: map<NoteId, Note>, done: set<NoteId>, xs: seq<Entry>, hasDue: bool) {
    forall e :: multiset(xs)[e] ==
      if e.id in done && e.id in notes && e.note == notes[e.id] && e.note.due.Some? == hasDue then 1 else 0
  }

  /** What `timeline_lists` returns: the two lists, each holding its notes once and sorted by its key. */
  ghost predicate IsTimelineView(notes: map<NoteId, Note>, now: int, unassignedNotes: seq<Entry>, assignedNotes: seq<Entry>) {
    && HoldsDue(notes, notes.Keys, unassignedNotes, false) && HoldsDue(notes, notes.Keys, assignedNotes, true)
    && SortedBy(unassignedNotes, CreatedKey) && SortedBy(assignedNotes, DueKey(now))
  }

  /** Whatever order the map is walked in, the two lists have the same contents, hence the same lengths. */
  lemma TimelineViewUnique(notes: map<NoteId, Note>, now: int, u1: seq<Entry>, a1: seq<Entry>, u2: seq<Entry>, a2: seq<Entry>)
    requires IsTimelineView(notes, now, u1, a1) && IsTimelineView(notes, now, u2, a2)
    ensures multiset(u1) == multiset(u2) && multiset(a1) == multiset(a2)
    ensures |u1| == |u2| && |a1| == |a2|
  {
    assert multiset(u1) == multiset(u2);
    assert multiset(a1) == multiset(a2);
    assert |multiset(u1)| == |multiset(u2)| && |multiset(a1)| == |multiset(a2)|;
  }

  /**
   * `timeline_lists`: every note lands in exactly one of the two lists,
   * once, according to whether it has a due date; the unassigned list is
   * in (creation time, lowercase title) order and the assigned list in
   * (due time, lowercase title) order.
   */
  method TimelineLists(notes: map<NoteId, Note>, now: int) returns (unassignedNotes: seq<Entry>, assignedNotes: seq<Entry>)
    ensures IsTimelineView(notes, now, unassignedNotes, assignedNotes)
    ensures |unassignedNotes| + |assignedNotes| == |notes|
  {
    var u, a := PartitionByDue(notes);
    unassignedNotes := SortByKey(u, CreatedKey);
    assignedNotes := SortByKey(a, DueKey(now));
    assert |multiset(u)| == |multiset(unassignedNotes)| && |multiset(a)| == |multiset(assignedNotes)|;
  }

  /** The loop of `timeline_lists`, before the lists are sorted. */
  method PartitionByDue(notes: map<NoteId, Note>) returns (u: seq<Entry>, a: seq<Entry>)
    ensures HoldsDue(notes, notes.Keys, u, false) && HoldsDue(notes, notes.Keys, a, true)
    ensures |u| + |a| == |notes|
  {
    u, a := [], [];
    var remaining := notes.Keys;
    while remaining != {}
      invariant remaining <= notes.Keys
      invariant HoldsDue(notes, notes.Keys - remaining, u, false)
      invariant HoldsDue(notes, notes.Keys - remaining, a, true)
      invariant |u| + |a| == |notes.Keys - remaining|
      decreases |remaining|
    {
      var id :| id in remaining;
      ghost var done := notes.Keys - remaining;
      var e := Entry(id, notes[id]);
      if notes[id].due.Some? {
        a := a + [e];
      } else {
        u := u + [e];
      }
      remaining := remaining - {id};
      assert notes.Keys - remaining == done + {id};
    }
  }

  /** Membership in the timeline lists, read off `HoldsDue`. */
  lemma TimelineMembership(notes: map<NoteId, Note>, unassignedNotes: seq<Entry>, assignedNotes: seq<Entry>)
    requires HoldsDue(notes, notes.Keys, unassignedNotes, false) && HoldsDue(notes, notes.Keys, assignedNotes, true)
    ensures forall id | id in notes :: notes[id].due.None? <==> Entry(id, notes[id]) in unassignedNotes
    ensures forall id | id in notes :: notes[id].due.Some? <==> Entry(id, notes[id]) in assignedNotes
    ensures forall e | e in unassignedNotes :: e.id in notes && e.note == notes[e.id]
    ensures forall e | e in assignedNotes :: e.id in notes && e.note == notes[e.id]
  {
    forall id | id in notes
      ensures notes[id].due.None? <==> Entry(id, notes[id]) in unassignedNotes
      ensures notes[id].due.Some? <==> Entry(id, notes[id]) in assignedNotes
    {
      assert multiset(unassignedNotes)[Entry(id, notes[id])] == if notes[id].due.None? then 1 else 0;
      assert multiset(assignedNotes)[Entry(id, notes[id])] == if notes[id].due.Some? then 1 else 0;
    }
    forall e | e in unassignedNotes
      ensures e.id in notes && e.note == notes[e.id]
    {
      assert multiset(unassignedNotes)[e] > 0;
    }
    forall e | e in assignedNotes
      ensures e.id in notes && e.note == notes[e.id]
    {
      assert multiset(assignedNotes)[e] > 0;
    }
  }

  /** The UTC day number of a time in seconds (chrono's `date_naive`). */
  function DayOf(t: int): int {
    t / 86400
  }

  /** The note of `e` is due on day `day`. */
  predicate DueOn(e: Entry, day: int) {
    e.note.due.Some? && DayOf(e.note.due.value) == day
  }

  /**
   * `first_due_on_cursor`: the position in the assigned list of the first
   * note due on day `cursor`, or nothing when no note is due that day.
   */
  method FirstDueOnCursor(assignedNotes: seq<Entry>, cursor: int) returns (r: Option<nat>)
    ensures r.Some? ==> r.value < |assignedNotes| && DueOn(assignedNotes[r.value], cursor)
    ensures r.Some? ==> forall i | 0 <= i < r.value :: !DueOn(assignedNotes[i], cursor)
    ensures r.None? <==> forall i | 0 <= i < |assignedNotes| :: !DueOn(assignedNotes[i], cursor)
  {
    var i := 0;
    while i < |assignedNotes|
      invariant i <= |assignedNotes|
      invariant forall k | 0 <= k < i :: !DueOn(assignedNotes[k], cursor)
    {
      if DueOn(assignedNotes[i], cursor) {
        return Some(i);
      }
      i := i + 1;
    }
    return None;
  }

  /** The bucket name for notes without tags. */
  const UNTAGGED: seq<char> := "(untagged)"

  /** How often `n` is pushed into the bucket `tag`: once per occurrence of the tag, or once into "(untagged)" when it has none. */
  function Weight(tag: seq<char>, n: Note): nat {
    if n.tags == [] then (if tag == UNTAGGED then 1 else 0) else Count(n.tags, tag)
  }

  function Count(xs: seq<seq<char>>, x: seq<char>): nat {
    if xs == [] then 0 else (if xs[|xs| - 1] == x then 1 else 0) + Count(xs[..|xs| - 1], x)
  }

  /** The bucket names a note contributes. */
  function NoteTags(n: Note): set<seq<char>> {
    if n.tags == [] then {UNTAGGED} else set k | 0 <= k < |n.tags| :: n.tags[k]
  }

  lemma {:induction false} CountPositive(xs: seq<seq<char>>, x: seq<char>)
    ensures Count(xs, x) > 0 <==> x in xs
  {
    if xs != [] {
      CountPositive(xs[..|xs| - 1], x);
      assert xs == xs[..|xs| - 1] + [xs[|xs| - 1]];
    }
  }

  lemma WeightPositive(tag: seq<char>, n: Note)
    ensures Weight(tag, n) > 0 <==> tag in NoteTags(n)
  {
    if n.tags != [] {
      CountPositive(n.tags, tag);
    }
  }

  /** The buckets of a `BTreeMap<String, Vec<..>>`, as a map from tag to its list. */
  type Buckets = map<seq<char>, seq<Entry>>

  /** How often `e` sits in bucket `tag`. */
  function Mult(b: Buckets, tag: seq<char>, e: Entry): nat {
    if tag in b then multiset(b[tag])[e] else 0
  }

  /** `buckets.entry(tag).or_default().push(e)`. */
  function Push(b: Buckets, tag: seq<char>, e: Entry): (r: Buckets)
    ensures r.Keys == b.Keys + {tag}
    ensures forall t, x :: Mult(r, t, x) == Mult(b, t, x) + (if t == tag && x == e then 1 else 0)
    ensures forall t | t in b && t != tag :: r[t] == b[t]
  {
    b[tag := (if tag in b then b[tag] else []) + [e]]
  }

  /** The buckets after visiting the note keys in `done`. */
  ghost predicate BucketsOf(notes: map<NoteId, Note>, done: set<NoteId>, b: Buckets) {
    && (forall t :: t in b <==> exists id | id in done && id in notes :: t in NoteTags(notes[id]))
    && (forall t, e :: Mult(b, t, e) == if e.id in done && e.id in notes && e.note == notes[e.id] then Weight(t, e.note) else 0)
  }

  lemma CountSnoc(xs: seq<seq<char>>, k: nat, x: seq<char>)
    requires k < |xs|
    ensures Count(xs[..k + 1], x) == Count(xs[..k], x) + (if xs[k] == x then 1 else 0)
  {
    assert xs[..k + 1][..k] == xs[..k];
  }

  /** The inner loop of `project_tags`: pushes one note into the bucket of each of its tags. */
  method AddNoteToBuckets(b: Buckets, id: NoteId, n: Note) returns (r: Buckets)
    ensures r.Keys == b.Keys + NoteTags(n)
    ensures forall t, x :: Mult(r, t, x) == Mult(b, t, x) + (if x == Entry(id, n) then Weight(t, n) else 0)
  {
    var e := Entry(id, n);
    if n.tags == [] {
      r := Push(b, UNTAGGED, e);
    } else {
      r := PushEach(b, n.tags, e);
    }
  }

  /** One step of `PushEach`: pushing into the bucket of `tags[k]` extends the counts to `tags[..k + 1]`. */
  lemma PushStep(b: Buckets, r: Buckets, tags: seq<seq<char>>, k: nat, e: Entry)
    requires k < |tags|
    requires forall t, x :: Mult(r, t, x) == Mult(b, t, x) + (if x == e then Count(tags[..k], t) else 0)
    requires r.Keys == b.Keys + (set j | 0 <= j < k :: tags[j])
    ensures var next := Push(r, tags[k], e);
      && next.Keys == b.Keys + (set j | 0 <= j < k + 1 :: tags[j])
      && forall t, x :: Mult(next, t, x) == Mult(b, t, x) + (if x == e then Count(tags[..k + 1], t) else 0)
  {
    assert (set j | 0 <= j < k + 1 :: tags[j]) == (set j | 0 <= j < k :: tags[j]) + {tags[k]};
    var next := Push(r, tags[k], e);
    forall t, x
      ensures Mult(next, t, x) == Mult(b, t, x) + (if x == e then Count(tags[..k + 1], t) else 0)
    {
      CountSnoc(tags, k, t);
    }
  }

  /** `for tag in &note.tags`: `e` is pushed once into the bucket of every listed tag. */
  method PushEach(b: Buckets, tags: seq<seq<char>>, e: Entry) returns (r: Buckets)
    ensures r.Keys == b.Keys + (set j | 0 <= j < |tags| :: tags[j])
    ensures forall t, x :: Mult(r, t, x) == Mult(b, t, x) + (if x == e then Count(tags, t) else 0)
  {
    r := b;
    forall t
      ensures Count(tags[..0], t) == 0
    {
      assert tags[..0] == [];
    }
    for k := 0 to |tags|
      invariant r.Keys == b.Keys + (set j | 0 <= j < k :: tags[j])
      invariant forall t, x :: Mult(r, t, x) == Mult(b, t, x) + (if x == e then Count(tags[..k], t) else 0)
    {
      PushStep(b, r, tags, k, e);
      r := Push(r, tags[k], e);
    }
    assert tags[..|tags|] == tags;
  }

  /** `t` is the name of some note's bucket. */
  ghost predicate IsTagOf(notes: map<NoteId, Note>, t: seq<char>) {
    exists id | id in notes :: t in NoteTags(notes[id])
  }

  /**
   * What `project_tags` returns: one `(tag, notes)` pair per bucket, in
   * ascending tag order without repeats. The buckets are the tags that occur
   * on some note, plus "(untagged)" when some note has no tag; each bucket
   * holds every note once per occurrence of its tag (untagged notes once in
   * "(untagged)") and nothing else, sorted by (update time, lowercase title).
   */
  ghost predicate IsProjectView(notes: map<NoteId, Note>, tags: seq<(seq<char>, seq<Entry>)>) {
    && (forall i, j | 0 <= i < j < |tags| :: StrLt(tags[i].0, tags[j].0))
    && (forall i | 0 <= i < |tags| :: IsTagOf(notes, tags[i].0))
    && (forall t | IsTagOf(notes, t) :: exists i | 0 <= i < |tags| :: tags[i].0 == t)
    && (forall i, e | 0 <= i < |tags| ::
         multiset(tags[i].1)[e] == if e.id in notes && e.note == notes[e.id] then Weight(tags[i].0, e.note) else 0)
    && (forall i | 0 <= i < |tags| :: |tags[i].1| > 0 && SortedBy(tags[i].1, UpdatedKey))
  }

  /** Two strictly ascending lists of the same strings are the same list. */
  lemma {:induction false} AscendingUnique(xs: seq<seq<char>>, ys: seq<seq<char>>)
    requires forall i, j | 0 <= i < j < |xs| :: StrLt(xs[i], xs[j])
    requires forall i, j | 0 <= i < j < |ys| :: StrLt(ys[i], ys[j])
    requires forall t :: t in xs <==> t in ys
    ensures xs == ys
    decreases |xs|
  {
    if xs != [] {
      assert xs[0] in xs;
      var k :| 0 <= k < |ys| && ys[k] == xs[0];
      assert ys[0] in ys;
      var m :| 0 <= m < |xs| && xs[m] == ys[0];
      if k > 0 && m > 0 {
        StrLeAntisym(xs[0], ys[0]);
      }
      forall t
        ensures t in xs[1..] <==> t in ys[1..]
      {
        if t in xs[1..] {
          var i :| 1 <= i < |xs| && xs[i] == t;
          assert StrLt(xs[0], xs[i]);
          assert t in ys && t != ys[0];
        }
        if t in ys[1..] {
          var i :| 1 <= i < |ys| && ys[i] == t;
          assert StrLt(ys[0], ys[i]);
          assert t in xs && t != xs[0];
        }
      }
      AscendingUnique(xs[1..], ys[1..]);
      assert xs == [xs[0]] + xs[1..] && ys == [ys[0]] + ys[1..];
    }
  }

  /** The tag names of a projection, in order. */
  function Names(tags: seq<(seq<char>, seq<Entry>)>): (r: seq<seq<char>>)
    ensures |r| == |tags| && forall i | 0 <= i < |tags| :: r[i] == tags[i].0
  {
    seq(|tags|, i requires 0 <= i < |tags| => tags[i].0)
  }

  /** A name of one projection of `notes` is a name of any other. */
  lemma NameCovered(notes: map<NoteId, Note>, t1: seq<(seq<char>, seq<Entry>)>, t2: seq<(seq<char>, seq<Entry>)>, t: seq<char>)
    requires IsProjectView(notes, t1) && IsProjectView(notes, t2)
    ensures t in Names(t1) ==> t in Names(t2)
  {
    if t in Names(t1) {
      var i :| 0 <= i < |t1| && Names(t1)[i] == t;
      assert IsTagOf(notes, t1[i].0);
      var j :| 0 <= j < |t2| && t2[j].0 == t;
      assert Names(t2)[j] == t;
    }
  }

  /** Buckets of the same name in two projections of `notes` hold the same notes. */
  lemma SameBucket(notes: map<NoteId, Note>, t1: seq<(seq<char>, seq<Entry>)>, t2: seq<(seq<char>, seq<Entry>)>, i: nat)
    requires IsProjectView(notes, t1) && IsProjectView(notes, t2)
    requires i < |t1| && i < |t2| && t1[i].0 == t2[i].0
    ensures multiset(t1[i].1) == multiset(t2[i].1)
  {
    forall e
      ensures multiset(t1[i].1)[e] == multiset(t2[i].1)[e]
    {
      var w := if e.id in notes && e.note == notes[e.id] then Weight(t1[i].0, e.note) else 0;
      assert multiset(t1[i].1)[e] == w;
      assert multiset(t2[i].1)[e] == w;
    }
  }

  /**
   * Whatever order the map is walked in, `project_tags` yields the same tags
   * in the same order, and each bucket holds the same notes.
   */
  lemma ProjectViewUnique(notes: map<NoteId, Note>, t1: seq<(seq<char>, seq<Entry>)>, t2: seq<(seq<char>, seq<Entry>)>)
    requires IsProjectView(notes, t1) && IsProjectView(notes, t2)
    ensures |t1| == |t2|
    ensures forall i | 0 <= i < |t1| :: t1[i].0 == t2[i].0 && multiset(t1[i].1) == multiset(t2[i].1) && |t1[i].1| == |t2[i].1|
  {
    var n1, n2 := Names(t1), Names(t2);
    forall t
      ensures t in n1 <==> t in n2
    {
      NameCovered(notes, t1, t2, t);
      NameCovered(notes, t2, t1, t);
    }
    AscendingUnique(n1, n2);
    forall i | 0 <= i < |t1|
      ensures t1[i].0 == t2[i].0 && multiset(t1[i].1) == multiset(t2[i].1) && |t1[i].1| == |t2[i].1|
    {
      assert n1[i] == n2[i];
      SameBucket(notes, t1, t2, i);
      assert |multiset(t1[i].1)| == |multiset(t2[i].1)|;
    }
  }

  /**
   * `project_tags`: one `(tag, notes)` pair per bucket, in ascending tag
   * order without repeats. The buckets are the tags that occur on some
   * note, plus "(untagged)" when some note has no tag; each bucket holds
   * every note once per occurrence of its tag (untagged notes once in
   * "(untagged)") and nothing else, sorted by (update time, lowercase title).
   */
  method ProjectTags(notes: map<NoteId, Note>) returns (tags: seq<(seq<char>, seq<Entry>)>)
    ensures IsProjectView(notes, tags)
  {
    var b := CollectBuckets(notes);
    var names := SortedNames(b.Keys);
    tags := [];
    for k := 0 to |names|
      invariant |tags| == k
      invariant forall i | 0 <= i < k :: tags[i].0 == names[i]
      invariant forall i | 0 <= i < k :: multiset(tags[i].1) == multiset(b[names[i]])
      invariant forall i | 0 <= i < k :: SortedBy(tags[i].1, UpdatedKey)
    {
      var sorted := SortByKey(b[names[k]], UpdatedKey);
      tags := tags + [(names[k], sorted)];
    }
    SortedBucketsAreView(notes, b, names, tags);
  }

  /** The buckets of every note, walked in ascending name order and each sorted, make the projection. */
  lemma SortedBucketsAreView(notes: map<NoteId, Note>, b: Buckets, names: seq<seq<char>>, tags: seq<(seq<char>, seq<Entry>)>)
    requires BucketsOf(notes, notes.Keys, b)
    requires forall i, j | 0 <= i < j < |names| :: StrLt(names[i], names[j])
    requires forall i | 0 <= i < |names| :: names[i] in b.Keys
    requires forall t | t in b.Keys :: t in names
    requires |tags| == |names|
    requires forall i | 0 <= i < |tags| :: tags[i].0 == names[i]
    requires forall i | 0 <= i < |tags| :: multiset(tags[i].1) == multiset(b[names[i]])
    requires forall i | 0 <= i < |tags| :: SortedBy(tags[i].1, UpdatedKey)
    ensures IsProjectView(notes, tags)
  {
    forall i | 0 <= i < |tags|
      ensures IsTagOf(notes, tags[i].0) && |tags[i].1| > 0
      ensures forall e :: multiset(tags[i].1)[e] == if e.id in notes && e.note == notes[e.id] then Weight(tags[i].0, e.note) else 0
    {
      BucketFacts(notes, b, names[i]);
      assert |multiset(tags[i].1)| == |multiset(b[names[i]])|;
    }
    forall t | IsTagOf(notes, t)
      ensures exists i | 0 <= i < |tags| :: tags[i].0 == t
    {
      assert t in b;
      var i :| 0 <= i < |names| && names[i] == t;
      assert tags[i].0 == t;
    }
  }

  /** The first loop of `project_tags`: the map from bucket name to bucket. */
  method CollectBuckets(notes: map<NoteId, Note>) returns (b: Buckets)
    ensures BucketsOf(notes, notes.Keys, b)
  {
    b := map[];
    var remaining := notes.Keys;
    while remaining != {}
      invariant remaining <= notes.Keys
      invariant BucketsOf(notes, notes.Keys - remaining, b)
      decreases |remaining|
    {
      var id :| id in remaining;
      ghost var done := notes.Keys - remaining;
      b := AddNoteToBuckets(b, id, notes[id]);
      remaining := remaining - {id};
      assert notes.Keys - remaining == done + {id};
      forall t
        ensures t in b <==> exists id' | id' in done + {id} && id' in notes :: t in NoteTags(notes[id'])
      {
      }
    }
  }

  /** What `BucketsOf` says about the single bucket `t`. */
  lemma BucketFacts(notes: map<NoteId, Note>, b: Buckets, t: seq<char>)
    requires BucketsOf(notes, notes.Keys, b) && t in b
    ensures IsTagOf(notes, t) && |b[t]| > 0
    ensures forall e :: multiset(b[t])[e] == if e.id in notes && e.note == notes[e.id] then Weight(t, e.note) else 0
  {
    forall e
      ensures multiset(b[t])[e] == if e.id in notes && e.note == notes[e.id] then Weight(t, e.note) else 0
    {
      assert Mult(b, t, e) == multiset(b[t])[e];
    }
    var id :| id in notes && t in NoteTags(notes[id]);
    WeightPositive(t, notes[id]);
    assert multiset(b[t])[Entry(id, notes[id])] > 0;
  }

  /** The `BTreeMap`'s key order: the names of `keys`, ascending, each once. */
  method SortedNames(keys: set<seq<char>>) returns (names: seq<seq<char>>)
    ensures forall i, j | 0 <= i < j < |names| :: StrLt(names[i], names[j])
    ensures forall i | 0 <= i < |names| :: names[i] in keys
    ensures forall t | t in keys :: t in names
  {
    names := [];
    var left := keys;
    while left != {}
      invariant left <= keys
      invariant forall i | 0 <= i < |names| :: names[i] in keys && names[i] !in left
      invariant forall t | t in keys && t !in left :: t in names
      invariant forall i, j | 0 <= i < j < |names| :: StrLt(names[i], names[j])
      invariant forall i, t | 0 <= i < |names| && t in left :: StrLt(names[i], t)
      decreases |left|
    {
      MinimumExists(left);
      var t :| t in left && forall k | k in left :: StrLe(t, k);
      names := names + [t];
      left := left - {t};
    }
  }
}
