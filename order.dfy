/**
 * The orderings the read-only projections of src/ui.rs sort by: Rust's
 * `Ord` on `String` (byte-wise on the UTF-8 encoding, which orders like the
 * code points), `str::to_lowercase` on titles, and the lexicographic order
 * on the `(i64-like time, String)` keys passed to `sort_by_key`. `SortByKey`
 * is the sort itself.
 */
module Order {

  /** `String`'s `<=`: lexicographic by code point, a proper prefix sorting first. */
  predicate StrLe(a: seq<char>, b: seq<char>) {
    if a == [] then true
    else if b == [] then false
    else if a[0] != b[0] then a[0] < b[0]
    else StrLe(a[1..], b[1..])
  }

  predicate StrLt(a: seq<char>, b: seq<char>) {
    StrLe(a, b) && a != b
  }

  lemma {:induction false} StrLeTotal(a: seq<char>, b: seq<char>)
    ensures StrLe(a, b) || StrLe(b, a)
  {
    if a != [] && b != [] && a[0] == b[0] {
      StrLeTotal(a[1..], b[1..]);
    }
  }

  lemma {:induction false} StrLeTrans(a: seq<char>, b: seq<char>, c: seq<char>)
    requires StrLe(a, b) && StrLe(b, c)
    ensures StrLe(a, c)
  {
    if a != [] && b != [] && c != [] && a[0] == b[0] && b[0] == c[0] {
      StrLeTrans(a[1..], b[1..], c[1..]);
    }
  }

  lemma {:induction false} StrLeAntisym(a: seq<char>, b: seq<char>)
    requires StrLe(a, b) && StrLe(b, a)
    ensures a == b
  {
    if a != [] && b != [] {
      StrLeAntisym(a[1..], b[1..]);
      assert a == [a[0]] + a[1..] && b == [b[0]] + b[1..];
    }
  }

  /** Every element of a finite non-empty set of strings is at least `m`, and `m` is in the set. */
  lemma {:induction false} MinimumExists(keys: set<seq<char>>)
    requires keys != {}
    ensures exists m | m in keys :: forall k | k in keys :: StrLe(m, k)
  {
    var m := Least(keys);
  }

  /** The least element of `keys`, built by removing one element at a time. */
  lemma {:induction false} Least(keys: set<seq<char>>) returns (m: seq<char>)
    requires keys != {}
    ensures m in keys && forall k | k in keys :: StrLe(m, k)
    decreases |keys|
  {
    var x :| x in keys;
    var rest := keys - {x};
    if rest == {} {
      m := x;
      assert keys == {x};
      StrLeTotal(x, x);
    } else {
      var n := Least(rest);
      m := LeastOfTwo(keys, x, rest, n);
    }
  }

  /** Adding `x` back to `rest`, whose least element is `n`: the least of `n` and `x` is least. */
  lemma LeastOfTwo(keys: set<seq<char>>, x: seq<char>, rest: set<seq<char>>, n: seq<char>) returns (m: seq<char>)
    requires keys == rest + {x} && n in rest
    requires forall k | k in rest :: StrLe(n, k)
    ensures m in keys && forall k | k in keys :: StrLe(m, k)
  {
    StrLeTotal(n, x);
    if StrLe(n, x) {
      m := n;
    } else {
      m := x;
      forall k | k in keys
        ensures StrLe(x, k)
      {
        if k in rest {
          StrLeTrans(x, n, k);
        } else {
          StrLeTotal(x, x);
        }
      }
    }
  }

  /** `char::to_lowercase` on ASCII letters; every other character is kept. */
  function LowerChar(c: char): char {
    if 'A' <= c <= 'Z' then (c as int + 32) as char else c
  }

  /** `str::to_lowercase`, restricted to ASCII case mapping. */
  function Lower(s: seq<char>): (r: seq<char>)
    ensures |r| == |s| && forall i | 0 <= i < |s| :: r[i] == LowerChar(s[i])
  {
    seq(|s|, i requires 0 <= i < |s| => LowerChar(s[i]))
  }

  /** A `sort_by_key` key: a time, then a lowercase title. */
  datatype SortKey = SortKey(time: int, title: seq<char>)

  /** The derived `Ord` on the tuple `(time, title)`. */
  predicate KeyLe(a: SortKey, b: SortKey) {
    a.time < b.time || (a.time == b.time && StrLe(a.title, b.title))
  }

  lemma KeyLeTotal(a: SortKey, b: SortKey)
    ensures KeyLe(a, b) || KeyLe(b, a)
  {
    StrLeTotal(a.title, b.title);
  }

  lemma KeyLeTrans(a: SortKey, b: SortKey, c: SortKey)
    requires KeyLe(a, b) && KeyLe(b, c)
    ensures KeyLe(a, c)
  {
    if a.time == b.time && b.time == c.time {
      StrLeTrans(a.title, b.title, c.title);
    }
  }

  /** `xs` is in ascending key order. */
  ghost predicate SortedBy<T>(xs: seq<T>, key: T -> SortKey) {
    forall i, j | 0 <= i < j < |xs| :: KeyLe(key(xs[i]), key(xs[j]))
  }

  /** Inserts `x` after every element whose key is at most `x`'s. */
  method InsertSorted<T>(xs: seq<T>, x: T, key: T -> SortKey) returns (r: seq<T>)
    requires SortedBy(xs, key)
    ensures SortedBy(r, key) && multiset(r) == multiset(xs) + multiset{x}
  {
    var j := 0;
    while j < |xs| && KeyLe(key(xs[j]), key(x))
      invariant j <= |xs|
      invariant forall i | 0 <= i < j :: KeyLe(key(xs[i]), key(x))
    {
      j := j + 1;
    }
    if j < |xs| {
      KeyLeTotal(key(xs[j]), key(x));
      forall i | j <= i < |xs|
        ensures KeyLe(key(x), key(xs[i]))
      {
        if i > j {
          KeyLeTrans(key(x), key(xs[j]), key(xs[i]));
        }
      }
    }
    r := xs[..j] + [x] + xs[j..];
    assert xs == xs[..j] + xs[j..];
    forall a, b | 0 <= a < b < |r|
      ensures KeyLe(key(r[a]), key(r[b]))
    {
      if b < j || a > j {
      } else if a == j {
        assert r[b] == xs[b - 1];
      } else if b == j {
        assert r[a] == xs[a];
      } else {
        assert r[a] == xs[a] && r[b] == xs[b - 1];
        KeyLeTrans(key(xs[a]), key(x), key(xs[b - 1]));
      }
    }
  }

  /** `sort_by_key`: the same elements in ascending key order. */
  method SortByKey<T>(xs: seq<T>, key: T -> SortKey) returns (r: seq<T>)
    ensures SortedBy(r, key) && multiset(r) == multiset(xs)
  {
    r := [];
    for i := 0 to |xs|
      invariant SortedBy(r, key) && multiset(r) == multiset(xs[..i])
    {
      r := InsertSorted(r, xs[i], key);
      assert xs[..i + 1] == xs[..i] + [xs[i]];
    }
    assert xs[..|xs|] == xs;
  }
}
