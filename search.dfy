/**
 * The list screen's search: the films whose lowercased title contains the
 * lowercased query, in list order.
 */
module Search {
  import opened Entities

  /**
   * Lowercasing of one character: Latin A-Z and the Cyrillic capitals
   * U+0400-U+042F map to their small letters; every other character is kept.
   */
  function LowerChar(c: char): char
  {
    if 'A' <= c <= 'Z' then (c as int + 32) as char
    else if 0x410 <= c as int <= 0x42F then (c as int + 32) as char
    else if 0x400 <= c as int <= 0x40F then (c as int + 80) as char
    else c
  }

  /** `lowercased()`, character by character. */
  function Lowercased(s: string): (r: string)
    ensures |r| == |s|
  {
    seq(|s|, i requires 0 <= i < |s| => LowerChar(s[i]))
  }

  /** Lowercasing a lowercased string changes nothing. */
  lemma LowercasedIdempotent(s: string)
    ensures Lowercased(Lowercased(s)) == Lowercased(s)
  {
  }

  /** `part` occurs in `text` starting at index `i`. */
  predicate OccursAt(text: string, part: string, i: int)
  {
    0 <= i <= |text| - |part| && text[i..i + |part|] == part
  }

  /**
   * `text.contains(part)`: `part` occurs in `text` as a contiguous run. Here
   * the empty `part` occurs in every text; Foundation's `contains` answers
   * false for it, a case the search screen never reaches because it handles
   * the empty search text separately. Both strings are compared scalar by
   * scalar, without Swift's canonical equivalence of Characters.
   */
  function Contains(text: string, part: string): (r: bool)
    ensures r ==> |part| <= |text|
    ensures |part| <= |text| && text[..|part|] == part ==> r
  {
    assert |part| <= |text| && text[..|part|] == part ==> OccursAt(text, part, 0);
    exists i :: 0 <= i <= |text| && OccursAt(text, part, i)
  }

  /** The search screen's test: the lowercased title contains the lowercased query. */
  function TitleMatches(film: Film, query: string): (r: bool)
    ensures r ==> |query| <= |film.nameRU|
    ensures query == film.nameRU ==> r
  {
    Contains(Lowercased(film.nameRU), Lowercased(query))
  }

  /** `dataSource.filter { ... }` with the title test of the search screen. */
  function FilterByTitle(films: seq<Film>, query: string): (r: seq<Film>)
    ensures |r| <= |films|
    ensures forall f :: f in r <==> f in films && TitleMatches(f, query)
  {
    if |films| == 0 then []
    else
      assert films == [films[0]] + films[1..];
      (if TitleMatches(films[0], query) then [films[0]] else []) + FilterByTitle(films[1..], query)
  }

  /** Every copy of a matching film is kept, and no other film. */
  lemma {:induction false} FilterKeepsEveryMatchingCopy(films: seq<Film>, query: string, f: Film)
    ensures multiset(FilterByTitle(films, query))[f] == if TitleMatches(f, query) then multiset(films)[f] else 0
  {
    if |films| > 0 {
      FilterKeepsEveryMatchingCopy(films[1..], query, f);
      assert films == [films[0]] + films[1..];
    }
  }

  /** `a` is `b` with some elements left out, the rest in their order. */
  predicate IsSubsequence(a: seq<Film>, b: seq<Film>)
    decreases |b|
  {
    |a| == 0 || (|b| > 0 && if a[0] == b[0] then IsSubsequence(a[1..], b[1..]) else IsSubsequence(a, b[1..]))
  }

  /** The search result keeps the list's order. */
  lemma {:induction false} FilterIsSubsequence(films: seq<Film>, query: string)
    ensures IsSubsequence(FilterByTitle(films, query), films)
  {
    if |films| > 0 {
      FilterIsSubsequence(films[1..], query);
      var rest := FilterByTitle(films[1..], query);
      if TitleMatches(films[0], query) {
        var r := [films[0]] + rest;
        assert r[1..] == rest;
      } else {
        assert FilterByTitle(films, query) == rest;
        if |rest| > 0 {
          assert rest[0] in rest;
          assert rest[0] != films[0];
        }
      }
    }
  }

  /** In this model the empty query occurs in every title, so filtering by it keeps the whole list. */
  lemma {:induction false} EmptyQueryKeepsEverything(films: seq<Film>)
    ensures FilterByTitle(films, "") == films
  {
    if |films| > 0 {
      var title := Lowercased(films[0].nameRU);
      assert OccursAt(title, Lowercased(""), 0);
      EmptyQueryKeepsEverything(films[1..]);
      assert films == [films[0]] + films[1..];
    }
  }

  /** The search is case-insensitive: queries that lowercase alike select the same films. */
  lemma {:induction false} CaseInsensitive(films: seq<Film>, q1: string, q2: string)
    requires Lowercased(q1) == Lowercased(q2)
    ensures FilterByTitle(films, q1) == FilterByTitle(films, q2)
  {
    if |films| > 0 {
      CaseInsensitive(films[1..], q1, q2);
    }
  }

  /** Lowercasing the query first changes nothing: the filter already compares lowercased text. */
  lemma QueryCaseIrrelevant(films: seq<Film>, query: string)
    ensures FilterByTitle(films, Lowercased(query)) == FilterByTitle(films, query)
  {
    LowercasedIdempotent(query);
    CaseInsensitive(films, Lowercased(query), query);
  }
}
