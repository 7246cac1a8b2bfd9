/**
 * The order in which the favorites store lists its records: ascending by
 * title. Here titles compare character by character in code-point order,
 * and a missing title sorts before every present one. This stands in for the
 * non-localized `compare:` of the sort descriptor, whose order on strings
 * the model does not reproduce.
 */
module TitleOrder {
  import opened Wrappers
  import opened Entities

  /** Lexicographic `a <= b` on strings. */
  predicate LexLeq(a: string, b: string)
    decreases |a|
  {
    |a| == 0 || (|b| > 0 && (a[0] < b[0] || (a[0] == b[0] && LexLeq(a[1..], b[1..]))))
  }

  lemma {:induction false} LexLeqTotal(a: string, b: string)
    ensures LexLeq(a, b) || LexLeq(b, a)
    decreases |a|
  {
    if |a| > 0 && |b| > 0 && a[0] == b[0] {
      LexLeqTotal(a[1..], b[1..]);
    }
  }

  lemma {:induction false} LexLeqTransitive(a: string, b: string, c: string)
    requires LexLeq(a, b) && LexLeq(b, c)
    ensures LexLeq(a, c)
    decreases |a|
  {
    if |a| > 0 && a[0] == b[0] && b[0] == c[0] {
      LexLeqTransitive(a[1..], b[1..], c[1..]);
    }
  }

  /** `a` may come before `b` in title order. */
  predicate TitleLeq(a: Option<string>, b: Option<string>)
  {
    a.None? || (b.Some? && LexLeq(a.value, b.value))
  }

  lemma TitleLeqTotal(a: Option<string>, b: Option<string>)
    ensures TitleLeq(a, b) || TitleLeq(b, a)
  {
    if a.Some? && b.Some? {
      LexLeqTotal(a.value, b.value);
    }
  }

  predicate SortedByTitle(s: seq<FavoriteRecord>)
  {
    forall i :: 0 <= i < |s| - 1 ==> TitleLeq(s[i].title, s[i + 1].title)
  }

  /** Sorted in the adjacent sense means every earlier record's title is at most every later one's. */
  lemma {:induction false} SortedByTitleAllPairs(s: seq<FavoriteRecord>, i: int, j: int)
    requires SortedByTitle(s)
    requires 0 <= i < j < |s|
    ensures TitleLeq(s[i].title, s[j].title)
    decreases j - i
  {
    if i + 1 < j {
      SortedByTitleAllPairs(s, i + 1, j);
      var a, b, c := s[i].title, s[i + 1].title, s[j].title;
      if a.Some? {
        LexLeqTransitive(a.value, b.value, c.value);
      }
    }
  }

  /** Inserts `x` into a title-sorted sequence before the first record it may precede. */
  function Insert(x: FavoriteRecord, s: seq<FavoriteRecord>): (r: seq<FavoriteRecord>)
    ensures multiset(r) == multiset(s) + multiset{x}
    ensures |r| > 0 && (r[0] == x || (|s| > 0 && r[0] == s[0]))
    ensures SortedByTitle(s) ==> SortedByTitle(r)
  {
    if |s| == 0 then [x]
    else if TitleLeq(x.title, s[0].title) then [x] + s
    else
      TitleLeqTotal(x.title, s[0].title);
      var tail := Insert(x, s[1..]);
      assert s == [s[0]] + s[1..];
      [s[0]] + tail
  }

  /** The records in ascending title order: a sorted permutation of the input. */
  function SortByTitle(s: seq<FavoriteRecord>): (r: seq<FavoriteRecord>)
    ensures multiset(r) == multiset(s)
    ensures SortedByTitle(r)
  {
    if |s| == 0 then []
    else
      assert s == [s[0]] + s[1..];
      Insert(s[0], SortByTitle(s[1..]))
  }
}
