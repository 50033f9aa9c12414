/** Character-level rules the store relies on: ASCII case folding (SQLite's
    LOWER, Python's str.lower), ASCII digit strings (Python's str.isdigit),
    and the byte-wise text order of SQLite's BINARY collation, with the sorted
    insertion that ORDER BY results are built with. */
module Text {

  function LowerChar(c: char): char {
    if 'A' <= c <= 'Z' then (c as int + 32) as char else c
  }

  /** ASCII lower-casing of every character. */
  function Lower(s: string): string {
    seq(|s|, i requires 0 <= i < |s| => LowerChar(s[i]))
  }

  predicate IsAsciiDigit(c: char) {
    '0' <= c <= '9'
  }

  /** Python's `str.isdigit` on ASCII text: non-empty and all digits. */
  predicate IsDigits(s: string) {
    |s| > 0 && forall i :: 0 <= i < |s| ==> IsAsciiDigit(s[i])
  }

  /** `a` sorts strictly before `b` when compared character by character, a
      proper prefix first. Code-point order equals the order of the UTF-8
      bytes that SQLite's BINARY collation compares. */
  predicate Below(a: string, b: string)
    decreases |a|
  {
    if |a| == 0 then |b| > 0
    else if |b| == 0 then false
    else if a[0] == b[0] then Below(a[1..], b[1..])
    else a[0] < b[0]
  }

  lemma {:induction false} BelowIrreflexive(a: string)
    ensures !Below(a, a)
    decreases |a|
  {
    if |a| > 0 {
      BelowIrreflexive(a[1..]);
    }
  }

  lemma {:induction false} BelowTransitive(a: string, b: string, c: string)
    requires Below(a, b) && Below(b, c)
    ensures Below(a, c)
    decreases |a|
  {
    if |a| > 0 && |b| > 0 && |c| > 0 && a[0] == b[0] && b[0] == c[0] {
      BelowTransitive(a[1..], b[1..], c[1..]);
    }
  }

  lemma {:induction false} BelowTotal(a: string, b: string)
    requires a != b
    ensures Below(a, b) || Below(b, a)
    decreases |a|
  {
    if |a| > 0 && |b| > 0 && a[0] == b[0] {
      assert a == [a[0]] + a[1..] && b == [b[0]] + b[1..];
      BelowTotal(a[1..], b[1..]);
    }
  }

  /** Strictly ascending in the BINARY collation, hence free of duplicates. */
  ghost predicate Ascending(s: seq<string>) {
    forall i, j :: 0 <= i < j < |s| ==> Below(s[i], s[j])
  }

  /** Adds `x` at its place in an ascending sequence (no change if present). */
  function InsertAscending(s: seq<string>, x: string): (r: seq<string>)
    requires Ascending(s)
    ensures Ascending(r)
    ensures forall y :: y in r <==> y in s || y == x
    ensures |r| <= |s| + 1
  {
    if s == [] then [x]
    else if x == s[0] then s
    else if Below(x, s[0]) then
      assert forall j :: 0 < j < |s| ==> Below(x, s[j]) by {
        forall j | 0 < j < |s| ensures Below(x, s[j]) {
          BelowTransitive(x, s[0], s[j]);
        }
      }
      [x] + s
    else
      BelowTotal(x, s[0]);
      var tail := InsertAscending(s[1..], x);
      assert forall y :: y in tail ==> Below(s[0], y);
      [s[0]] + tail
  }

  /** Sorted by a numeric key, largest first (ties in any order), as
      `ORDER BY key DESC` returns rows. */
  ghost predicate Descending<T>(s: seq<T>, key: T -> real) {
    forall i, j :: 0 <= i < j < |s| ==> key(s[i]) >= key(s[j])
  }

  /** The index of the first element whose key is not larger than `x`'s. */
  function InsertionPoint<T>(s: seq<T>, x: T, key: T -> real): (k: nat)
    ensures k <= |s|
    ensures forall i :: 0 <= i < k ==> key(s[i]) > key(x)
    ensures k < |s| ==> key(x) >= key(s[k])
  {
    if s == [] || key(x) >= key(s[0]) then 0 else 1 + InsertionPoint(s[1..], x, key)
  }

  /** Adds `x` before the first element whose key is not larger, so that the
      sequence stays sorted and gains exactly `x`. */
  function InsertDescending<T(!new)>(s: seq<T>, x: T, key: T -> real): (r: seq<T>)
    requires Descending(s, key)
    ensures Descending(r, key)
    ensures multiset(r) == multiset(s) + multiset{x}
    ensures forall y :: y in r <==> y in s || y == x
    ensures exists k :: 0 <= k <= |s| && r == s[..k] + [x] + s[k..]
  {
    var k := InsertionPoint(s, x, key);
    InsertAtPoint(s, x, key, k);
    assert s == s[..k] + s[k..];
    s[..k] + [x] + s[k..]
  }

  /** Placing `x` after every larger key and before the rest keeps the
      order. */
  lemma InsertAtPoint<T>(s: seq<T>, x: T, key: T -> real, k: int)
    requires Descending(s, key)
    requires 0 <= k <= |s|
    requires forall i :: 0 <= i < k ==> key(s[i]) > key(x)
    requires k < |s| ==> key(x) >= key(s[k])
    ensures Descending(s[..k] + [x] + s[k..], key)
  {
    var r := s[..k] + [x] + s[k..];
    forall i, j | 0 <= i < j < |r| ensures key(r[i]) >= key(r[j]) {
      if j < k {
        assert r[i] == s[i] && r[j] == s[j];
      } else if j == k {
        assert r[i] == s[i] && r[j] == x;
      } else if i < k {
        assert r[i] == s[i] && r[j] == s[j - 1];
      } else if i == k {
        assert r[i] == x && r[j] == s[j - 1];
      } else {
        assert r[i] == s[i - 1] && r[j] == s[j - 1];
      }
    }
  }

  /** No two entries of a listing share a key, as in a dictionary built
      from rows with a unique column. */
  ghost predicate DistinctKeys<K, V>(s: seq<(K, V)>) {
    forall i, j :: 0 <= i < j < |s| ==> s[i].0 != s[j].0
  }

  /** Inserting an entry whose key is new into a listing keeps its keys
      distinct. */
  lemma InsertKeepsDistinct<K, V>(s: seq<(K, V)>, x: (K, V), k: int)
    requires DistinctKeys(s)
    requires forall y :: y in s ==> y.0 != x.0
    requires 0 <= k <= |s|
    ensures DistinctKeys(s[..k] + [x] + s[k..])
  {
    var r := s[..k] + [x] + s[k..];
    forall i, j | 0 <= i < j < |r| ensures r[i].0 != r[j].0 {
      if j < k {
        assert r[i] == s[i] && r[j] == s[j];
      } else if j == k {
        assert r[i] == s[i] && r[j] == x;
      } else if i < k {
        assert r[i] == s[i] && r[j] == s[j - 1];
      } else if i == k {
        assert r[i] == x && r[j] == s[j - 1];
      } else {
        assert r[i] == s[i - 1] && r[j] == s[j - 1];
      }
    }
  }
}
