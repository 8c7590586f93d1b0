/** Python's ordering of `str` values and `sorted` over distinct strings. */
module Order {

  /** `a < b` on Python strings: lexicographic by code point, a proper prefix first. */
  predicate Below(a: string, b: string)
    decreases |a|
  {
    if |a| == 0 then |b| > 0
    else if |b| == 0 then false
    else if a[0] != b[0] then a[0] < b[0]
    else Below(a[1..], b[1..])
  }

  lemma {:induction false} BelowIrreflexive(a: string)
    ensures !Below(a, a)
    decreases |a|
  {
    if |a| > 0 { BelowIrreflexive(a[1..]); }
  }

  lemma {:induction false} BelowTransitive(a: string, b: string, c: string)
    requires Below(a, b) && Below(b, c)
    ensures Below(a, c)
    decreases |a|
  {
    if |a| > 0 && |b| > 0 && |c| > 0 && a[0] == b[0] && b[0] == c[0] {
      BelowTransitive(a[1..], b[1..], c[1..]);
    }
  }

  /** Distinct strings are ordered one way or the other, never both. */
  lemma {:induction false} BelowTotal(a: string, b: string)
    requires a != b
    ensures Below(a, b) != Below(b, a)
    decreases |a|
  {
    if |a| > 0 && |b| > 0 && a[0] == b[0] {
      assert a == [a[0]] + a[1..] && b == [b[0]] + b[1..];
      BelowTotal(a[1..], b[1..]);
    }
  }

  /** Strictly increasing. */
  ghost predicate Ascending(s: seq<string>) {
    forall i, j :: 0 <= i < j < |s| ==> Below(s[i], s[j])
  }

  ghost predicate Distinct(s: seq<string>) {
    forall i, j :: 0 <= i < j < |s| ==> s[i] != s[j]
  }

  lemma AscendingIsDistinct(s: seq<string>)
    requires Ascending(s)
    ensures Distinct(s)
  {
    forall i, j | 0 <= i < j < |s| ensures s[i] != s[j] {
      BelowIrreflexive(s[i]);
    }
  }

  /** Inserts `x` before the first element it is below. */
  function Insert(x: string, s: seq<string>): seq<string> {
    if s == [] then [x]
    else if Below(x, s[0]) then [x] + s
    else [s[0]] + Insert(x, s[1..])
  }

  lemma {:induction false} InsertMultiset(x: string, s: seq<string>)
    ensures multiset(Insert(x, s)) == multiset(s) + multiset{x}
  {
    if s != [] && !Below(x, s[0]) {
      InsertMultiset(x, s[1..]);
      assert s == [s[0]] + s[1..];
    }
  }

  lemma {:induction false} InsertAscending(x: string, s: seq<string>)
    requires Ascending(s) && x !in s
    ensures Ascending(Insert(x, s))
  {
    if s == [] {
    } else if Below(x, s[0]) {
      var r := [x] + s;
      forall i, j | 0 <= i < j < |r| ensures Below(r[i], r[j]) {
        if i == 0 && j > 1 { BelowTransitive(x, s[0], s[j - 1]); }
      }
    } else {
      BelowTotal(x, s[0]);
      var rest := Insert(x, s[1..]);
      InsertAscending(x, s[1..]);
      InsertMultiset(x, s[1..]);
      var r := [s[0]] + rest;
      forall i, j | 0 <= i < j < |r| ensures Below(r[i], r[j]) {
        if i == 0 {
          assert rest[j - 1] in multiset(rest);
          assert rest[j - 1] == x || rest[j - 1] in s[1..];
        }
      }
    }
  }

  /** `sorted(keys)` for distinct keys: the same strings, in ascending order. */
  function SortStrings(s: seq<string>): (r: seq<string>)
    ensures multiset(r) == multiset(s)
  {
    if s == [] then []
    else
      var init := SortStrings(s[..|s| - 1]);
      InsertMultiset(s[|s| - 1], init);
      assert s == s[..|s| - 1] + [s[|s| - 1]];
      Insert(s[|s| - 1], init)
  }

  /** Sorting distinct strings gives them back in ascending order, each exactly once. */
  lemma {:induction false} SortStringsSpec(s: seq<string>)
    requires Distinct(s)
    ensures Ascending(SortStrings(s))
    ensures multiset(SortStrings(s)) == multiset(s)
  {
    hide Insert;
    if s != [] {
      var init := s[..|s| - 1];
      var x := s[|s| - 1];
      SortStringsSpec(init);
      assert s == init + [x];
      assert x !in multiset(SortStrings(init));
      InsertAscending(x, SortStrings(init));
    }
  }
}
