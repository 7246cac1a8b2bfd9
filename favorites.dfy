/**
 * The favorites store: the persisted set of favorite-film records, with
 * insertion guarded by an existence check, deletion of every record with an
 * id, a count-based membership test, a title-ordered listing and the
 * conversion of a record back into a film detail.
 *
 * The persistent container is modelled as the sequence of records it holds
 * (in insertion order, which no operation exposes). A failing fetch or count
 * request is a boolean parameter; commits are assumed to succeed.
 */
module Favorites {
  import opened Wrappers
  import opened Entities
  import opened GenreCodec
  import opened TitleOrder

  /** The poster URL used when a record's poster string is missing or does not parse. */
  const Placeholder: Url := Url("https://placeholder.com")

  /**
   * The id that `NSPredicate(format: "id == %d", id)` compares with, as the
   * source passes a 64-bit `Int` to it. `%d` reads a 32-bit `int`, so only
   * the argument's low 32 bits count, as a signed value.
   */
  function PredicateId(id: int): (k: int)
    ensures FitsInt32(k)
    ensures FitsInt32(id) ==> k == id
    ensures (id - k) % 0x1_0000_0000 == 0
  {
    var low := id % 0x1_0000_0000;
    if low < 0x8000_0000 then low else low - 0x1_0000_0000
  }

  /** The records a fetch request with predicate `id == id` returns, in store order. */
  function Matching(s: seq<FavoriteRecord>, id: int): (r: seq<FavoriteRecord>)
    ensures |r| <= |s|
    ensures forall i :: 0 <= i < |r| ==> r[i].id == id
  {
    if |s| == 0 then []
    else (if s[0].id == id then [s[0]] else []) + Matching(s[1..], id)
  }

  /** What a count request with predicate `id == id` returns. */
  function CountId(s: seq<FavoriteRecord>, id: int): (n: nat)
    ensures n <= |s|
  {
    |Matching(s, id)|
  }

  predicate HasId(s: seq<FavoriteRecord>, id: int)
  {
    exists x :: x in s && x.id == id
  }

  /** The store with every record of `id` deleted and the others kept in order. */
  function WithoutId(s: seq<FavoriteRecord>, id: int): (r: seq<FavoriteRecord>)
    ensures |r| + CountId(s, id) == |s|
    ensures forall i :: 0 <= i < |r| ==> r[i].id != id
  {
    if |s| == 0 then []
    else (if s[0].id != id then [s[0]] else []) + WithoutId(s[1..], id)
  }

  /** The uniqueness invariant: at most one record per id. */
  predicate NoDuplicateIds(s: seq<FavoriteRecord>)
  {
    |s| == 0 || (!HasId(s[1..], s[0].id) && NoDuplicateIds(s[1..]))
  }

  /** A record other than the first is in the tail. */
  lemma InTail(s: seq<FavoriteRecord>, x: FavoriteRecord)
    requires x in s && x != s[0]
    ensures x in s[1..]
  {
    assert s == [s[0]] + s[1..];
  }

  /** Index of the first record with `id`. */
  function FirstIdIndex(s: seq<FavoriteRecord>, id: int): (i: nat)
    requires HasId(s, id)
    ensures i < |s| && s[i].id == id
    ensures forall j :: 0 <= j < i ==> s[j].id != id
  {
    if s[0].id == id then 0
    else
      assert HasId(s[1..], id) by {
        var x :| x in s && x.id == id;
        InTail(s, x);
      }
      1 + FirstIdIndex(s[1..], id)
  }

  /** The record `addToFavorites` inserts for a film; `Int16(year)` traps outside its range. */
  function NewRecord(movie: MoviesDescription): (r: FavoriteRecord)
    requires FitsInt16(movie.year)
    ensures r.id == movie.kinopoiskID && r.year == movie.year && r.rating == movie.ratingKinopoisk
    ensures r.title == Some(movie.nameRU) && r.movieDescription == Some(movie.description)
    ensures r.posterUrl == Some(movie.posterURL.absoluteString)
    ensures r.genres == Some(Join(Names(movie.genres), Separator))
    ensures r.addedDate.None?
  {
    FavoriteRecord(
      movie.kinopoiskID,
      Some(movie.nameRU),
      Some(movie.posterURL.absoluteString),
      movie.ratingKinopoisk,
      movie.year,
      Some(movie.description),
      Some(EncodeGenres(movie.genres)),
      None)
  }

  /** The store after `addToFavorites(movie)` when its existence check succeeds. */
  function AfterAdd(s: seq<FavoriteRecord>, movie: MoviesDescription): (r: seq<FavoriteRecord>)
    requires HasId(s, movie.kinopoiskID) || FitsInt16(movie.year)
    ensures HasId(r, movie.kinopoiskID)
    ensures |s| <= |r| <= |s| + 1 && r[..|s|] == s
  {
    if HasId(s, movie.kinopoiskID) then s
    else
      var r := s + [NewRecord(movie)];
      assert r[|s|] in r;
      r
  }

  /**
   * `convertToMoviesDescription`: missing strings read as "", a missing or
   * unparsable poster as the placeholder (`parse` is `URL(string:)`, which
   * gives nil for ""), missing genres as none.
   */
  function ConvertToMoviesDescription(rec: FavoriteRecord, parse: string -> Option<Url>): (d: MoviesDescription)
    ensures d.kinopoiskID == rec.id && d.year == rec.year && d.ratingKinopoisk == rec.rating
    ensures rec.title.None? ==> d.nameRU == ""
    ensures rec.movieDescription.None? ==> d.description == ""
    ensures rec.posterUrl.None? && parse("") == None ==> d.posterURL == Placeholder
    ensures rec.posterUrl.Some? && parse(rec.posterUrl.value).None? ==> d.posterURL == Placeholder
    ensures rec.genres.None? ==> d.genres == []
    ensures rec.genres.Some? ==> |d.genres| >= 1
  {
    MoviesDescription(
      rec.id,
      rec.title.GetOr(""),
      parse(rec.posterUrl.GetOr("")).GetOr(Placeholder),
      rec.rating,
      rec.year,
      rec.movieDescription.GetOr(""),
      DecodeGenres(rec.genres))
  }

  // ---------------------------------------------------------------------------
  // Properties of the store's specification functions

  /** The fetch request returns exactly the records with the id. */
  lemma {:induction false} MatchingMembers(s: seq<FavoriteRecord>, id: int)
    ensures forall x :: x in Matching(s, id) <==> x in s && x.id == id
  {
    if |s| > 0 {
      MatchingMembers(s[1..], id);
      assert s == [s[0]] + s[1..];
    }
  }

  /** Removing keeps exactly the records of other ids. */
  lemma {:induction false} WithoutIdMembers(s: seq<FavoriteRecord>, id: int)
    ensures forall x :: x in WithoutId(s, id) <==> x in s && x.id != id
  {
    if |s| > 0 {
      WithoutIdMembers(s[1..], id);
      assert s == [s[0]] + s[1..];
    }
  }

  /** The count-based membership test agrees with "some record has this id". */
  lemma {:induction false} CountPositiveIffPresent(s: seq<FavoriteRecord>, id: int)
    ensures CountId(s, id) > 0 <==> HasId(s, id)
  {
    if |s| > 0 {
      CountPositiveIffPresent(s[1..], id);
      if HasId(s[1..], id) {
        var x :| x in s[1..] && x.id == id;
        assert x in s;
      }
      if HasId(s, id) && s[0].id != id {
        var x :| x in s && x.id == id;
        InTail(s, x);
      }
    }
  }

  lemma {:induction false} MatchingAppend(s: seq<FavoriteRecord>, x: FavoriteRecord, id: int)
    ensures Matching(s + [x], id) == Matching(s, id) + (if x.id == id then [x] else [])
  {
    if |s| == 0 {
      assert s + [x] == [x];
    } else {
      var t := s + [x];
      assert t[0] == s[0];
      assert t[1..] == s[1..] + [x];
      MatchingAppend(s[1..], x, id);
    }
  }

  /** Under the uniqueness invariant the store holds at most one record per id. */
  lemma {:induction false} NoDuplicatesAtMostOne(s: seq<FavoriteRecord>, id: int)
    requires NoDuplicateIds(s)
    ensures CountId(s, id) <= 1
  {
    if |s| > 0 {
      NoDuplicatesAtMostOne(s[1..], id);
      if s[0].id == id {
        CountPositiveIffPresent(s[1..], id);
      }
    }
  }

  lemma {:induction false} AppendKeepsNoDuplicates(s: seq<FavoriteRecord>, x: FavoriteRecord)
    requires NoDuplicateIds(s) && !HasId(s, x.id)
    ensures NoDuplicateIds(s + [x])
  {
    var t := s + [x];
    if |s| == 0 {
      assert t == [x];
      assert t[1..] == [];
    } else {
      assert t[1..] == s[1..] + [x];
      assert s[0] in s;
      assert !HasId(s[1..], x.id) by {
        forall y | y in s[1..] ensures y.id != x.id {
          assert y in s;
        }
      }
      AppendKeepsNoDuplicates(s[1..], x);
      assert !HasId(s[1..] + [x], s[0].id) by {
        forall y | y in s[1..] + [x] ensures y.id != s[0].id {
          if y != x {
            assert y in s[1..];
          }
        }
      }
    }
  }

  lemma {:induction false} WithoutIdKeepsNoDuplicates(s: seq<FavoriteRecord>, id: int)
    requires NoDuplicateIds(s)
    ensures NoDuplicateIds(WithoutId(s, id))
  {
    if |s| > 0 {
      WithoutIdKeepsNoDuplicates(s[1..], id);
      var rest := WithoutId(s[1..], id);
      if s[0].id != id {
        var r := [s[0]] + rest;
        assert WithoutId(s, id) == r;
        assert r[1..] == rest;
        WithoutIdMembers(s[1..], id);
        assert !HasId(rest, s[0].id) by {
          forall y | y in rest ensures y.id != s[0].id {
            assert y in s[1..];
          }
        }
      } else {
        assert WithoutId(s, id) == rest;
      }
    }
  }

  lemma {:induction false} NoMatchLeavesStore(s: seq<FavoriteRecord>, id: int)
    requires !HasId(s, id)
    ensures WithoutId(s, id) == s
  {
    if |s| > 0 {
      assert s[0] in s;
      assert !HasId(s[1..], id) by {
        forall y | y in s[1..] ensures y.id != id {
          assert y in s;
        }
      }
      NoMatchLeavesStore(s[1..], id);
      assert s == [s[0]] + s[1..];
    }
  }

  /** Removing deletes every record with the id, keeps every other record, and is a no-op when none match. */
  lemma RemoveDeletesExactlyTheId(s: seq<FavoriteRecord>, id: int)
    ensures !HasId(WithoutId(s, id), id)
    ensures forall x :: x in s && x.id != id ==> x in WithoutId(s, id)
    ensures !HasId(s, id) ==> WithoutId(s, id) == s
  {
    WithoutIdMembers(s, id);
    if !HasId(s, id) {
      NoMatchLeavesStore(s, id);
    }
  }

  /** The store with the record at index `i` deleted. */
  function DeleteAt(s: seq<FavoriteRecord>, i: nat): (r: seq<FavoriteRecord>)
    requires i < |s|
    ensures |r| == |s| - 1
    ensures multiset(r) == multiset(s) - multiset{s[i]}
    ensures forall j :: 0 <= j < |r| ==> r[j] == if j < i then s[j] else s[j + 1]
  {
    assert s == s[..i] + [s[i]] + s[i + 1..];
    s[..i] + s[i + 1..]
  }

  /** Deleting a record past the first keeps the first and deletes in the tail. */
  lemma DeleteAtTail(s: seq<FavoriteRecord>, i: nat)
    requires 0 < i < |s|
    ensures DeleteAt(s, i) == [s[0]] + DeleteAt(s[1..], i - 1)
  {
    assert s[..i] == [s[0]] + s[1..][..i - 1];
    assert s[i + 1..] == s[1..][i..];
  }

  /** Deleting the first record with `id` drops it from the matches and leaves the rest of the store alone. */
  lemma {:induction false} DeleteFirstMatch(s: seq<FavoriteRecord>, id: int)
    requires HasId(s, id)
    ensures Matching(s, id) != [] && Matching(s, id)[0] == s[FirstIdIndex(s, id)]
    ensures var i := FirstIdIndex(s, id);
      Matching(DeleteAt(s, i), id) == Matching(s, id)[1..] &&
      WithoutId(DeleteAt(s, i), id) == WithoutId(s, id)
  {
    var i := FirstIdIndex(s, id);
    var t := s[1..];
    if s[0].id == id {
      assert DeleteAt(s, i) == t;
      assert Matching(s, id) == [s[0]] + Matching(t, id);
      assert WithoutId(s, id) == WithoutId(t, id);
    } else {
      assert HasId(t, id) by {
        var x :| x in s && x.id == id;
        InTail(s, x);
      }
      DeleteFirstMatch(t, id);
      var j := FirstIdIndex(t, id);
      assert i == j + 1;
      var u := DeleteAt(s, i);
      DeleteAtTail(s, i);
      assert u[0] == s[0] && u[1..] == DeleteAt(t, j);
      assert Matching(u, id) == Matching(DeleteAt(t, j), id);
      assert Matching(s, id) == Matching(t, id);
      assert WithoutId(u, id) == [s[0]] + WithoutId(DeleteAt(t, j), id);
      assert WithoutId(s, id) == [s[0]] + WithoutId(t, id);
    }
  }

  /** Adding the same film a second time changes nothing. */
  lemma AddIdempotent(s: seq<FavoriteRecord>, movie: MoviesDescription)
    requires FitsInt16(movie.year)
    ensures AfterAdd(AfterAdd(s, movie), movie) == AfterAdd(s, movie)
  {
    var t := s + [NewRecord(movie)];
    assert t[|s|] in t;
  }

  /** After adding a film the store holds exactly one record of its id, whether or not it was there before. */
  lemma AddLeavesExactlyOne(s: seq<FavoriteRecord>, movie: MoviesDescription)
    requires NoDuplicateIds(s) && FitsInt16(movie.year)
    ensures NoDuplicateIds(AfterAdd(s, movie))
    ensures CountId(AfterAdd(s, movie), movie.kinopoiskID) == 1
  {
    var id := movie.kinopoiskID;
    if HasId(s, id) {
      NoDuplicatesAtMostOne(s, id);
      CountPositiveIffPresent(s, id);
    } else {
      AppendKeepsNoDuplicates(s, NewRecord(movie));
      MatchingAppend(s, NewRecord(movie), id);
      CountPositiveIffPresent(s, id);
    }
  }

  /**
   * Adding a film whose id is not stored appends exactly one record, which
   * carries the film's fields, its genre names joined with "," and no date.
   */
  lemma AddNewAppendsOneRecord(s: seq<FavoriteRecord>, movie: MoviesDescription)
    requires !HasId(s, movie.kinopoiskID) && FitsInt16(movie.year)
    ensures |AfterAdd(s, movie)| == |s| + 1 && AfterAdd(s, movie)[..|s|] == s
    ensures var r := AfterAdd(s, movie)[|s|];
      && r.id == movie.kinopoiskID && r.title == Some(movie.nameRU)
      && r.posterUrl == Some(movie.posterURL.absoluteString)
      && r.rating == movie.ratingKinopoisk && r.year == movie.year
      && r.movieDescription == Some(movie.description)
      && r.genres == Some(Join(Names(movie.genres), Separator))
      && r.addedDate.None?
  {
  }

  /** If the existence check's count request fails on a film already stored, adding it stores a second record. */
  lemma FailedCheckDuplicates(s: seq<FavoriteRecord>, movie: MoviesDescription)
    requires HasId(s, movie.kinopoiskID) && FitsInt16(movie.year)
    ensures CountId(s + [NewRecord(movie)], movie.kinopoiskID) >= 2
    ensures !NoDuplicateIds(s + [NewRecord(movie)])
  {
    var id := movie.kinopoiskID;
    MatchingAppend(s, NewRecord(movie), id);
    CountPositiveIffPresent(s, id);
    if NoDuplicateIds(s + [NewRecord(movie)]) {
      NoDuplicatesAtMostOne(s + [NewRecord(movie)], id);
    }
  }

  /** A record written by `addToFavorites` converts back to the film it was made from, genres included. */
  lemma ConvertRoundTrip(movie: MoviesDescription, parse: string -> Option<Url>)
    requires FitsInt16(movie.year)
    requires parse(movie.posterURL.absoluteString) == Some(movie.posterURL)
    requires |movie.genres| >= 1
    requires forall g :: g in movie.genres ==> Separator !in g.genre
    ensures ConvertToMoviesDescription(NewRecord(movie), parse) == movie
  {
    GenresRoundTrip(movie.genres);
  }

  /** A film stored with no genres comes back with one genre whose name is "". */
  lemma ConvertEmptyGenres(movie: MoviesDescription, parse: string -> Option<Url>)
    requires FitsInt16(movie.year) && movie.genres == []
    ensures ConvertToMoviesDescription(NewRecord(movie), parse).genres == [Genre("")]
  {
    EmptyGenresComeBackAsOneEmptyGenre();
  }

  /**
   * The `id == %d` requests as written, for a film whose id lies outside
   * `Int32` and whose low 32 bits name no stored record: the count finds
   * nothing though the film is stored, so `isMovieInFavorites` answers false,
   * `addToFavorites` inserts a second record of the id, and the fetch behind
   * `removeFromFavorites` returns nothing, so nothing is deleted.
   */
  lemma WideIdEscapesPredicate(s: seq<FavoriteRecord>, movie: MoviesDescription)
    requires HasId(s, movie.kinopoiskID) && !HasId(s, PredicateId(movie.kinopoiskID))
    requires FitsInt16(movie.year)
    ensures !FitsInt32(movie.kinopoiskID)
    ensures CountId(s, PredicateId(movie.kinopoiskID)) == 0 && CountId(s, movie.kinopoiskID) > 0
    ensures Matching(s, PredicateId(movie.kinopoiskID)) == []
    ensures !NoDuplicateIds(s + [NewRecord(movie)])
  {
    var id := movie.kinopoiskID;
    CountPositiveIffPresent(s, id);
    CountPositiveIffPresent(s, PredicateId(id));
    FailedCheckDuplicates(s, movie);
  }

  /** A store for which `WideIdEscapesPredicate` applies: one record with id 2^32 + 5. */
  lemma WideIdExample(movie: MoviesDescription)
    requires movie.kinopoiskID == 0x1_0000_0005 && FitsInt16(movie.year)
    ensures var s := [NewRecord(movie)];
      HasId(s, movie.kinopoiskID) && !HasId(s, PredicateId(movie.kinopoiskID)) && PredicateId(movie.kinopoiskID) == 5
  {
    var s := [NewRecord(movie)];
    assert s[0] in s;
  }

  // ---------------------------------------------------------------------------
  // The store

  class FavoritesStore {
    /** The records in the persistent store. */
    var records: seq<FavoriteRecord>

    ghost predicate Valid()
      reads this
    {
      NoDuplicateIds(records)
    }

    /** The store as loaded from disk. */
    constructor (persisted: seq<FavoriteRecord>)
      ensures records == persisted
    {
      records := persisted;
    }

    /** `isMovieInFavorites`: true when the count request succeeds and counts a record of `id`. */
    method IsMovieInFavorites(id: int, countOk: bool) returns (found: bool)
      ensures found <==> countOk && HasId(records, id)
    {
      if !countOk {
        return false;
      }
      var count := CountId(records, id);
      CountPositiveIffPresent(records, id);
      found := count > 0;
    }

    /**
     * `addToFavorites`: inserts the film's record unless the existence check
     * reports one with its id. A failed check reports "absent".
     */
    method AddToFavorites(movie: MoviesDescription, countOk: bool)
      requires !(countOk && HasId(records, movie.kinopoiskID)) ==> FitsInt16(movie.year)
      modifies this
      ensures records == if countOk then AfterAdd(old(records), movie) else old(records) + [NewRecord(movie)]
      ensures old(Valid()) && countOk ==> Valid()
      ensures countOk ==> HasId(records, movie.kinopoiskID)
    {
      var present := IsMovieInFavorites(movie.kinopoiskID, countOk);
      if !present {
        var favorite := NewRecord(movie);
        if old(Valid()) && countOk {
          AppendKeepsNoDuplicates(records, favorite);
        }
        records := records + [favorite];
        assert records[|records| - 1] == favorite;
      }
    }

    /**
     * `removeFromFavorites`: fetches the records with `id` and deletes them one
     * by one; a failed fetch changes nothing.
     */
    method RemoveFromFavorites(id: int, fetchOk: bool)
      modifies this
      ensures records == if fetchOk then WithoutId(old(records), id) else old(records)
      ensures old(Valid()) ==> Valid()
      ensures fetchOk ==> !HasId(records, id)
    {
      if !fetchOk {
        return;
      }
      var matches := Matching(records, id);
      var k := 0;
      while k < |matches|
        invariant 0 <= k <= |matches|
        invariant Matching(records, id) == matches[k..]
        invariant WithoutId(records, id) == WithoutId(old(records), id)
      {
        var movie := matches[k];
        assert CountId(records, id) == |matches| - k > 0;
        CountPositiveIffPresent(records, id);
        var i := FirstIdIndex(records, id);
        DeleteFirstMatch(records, id);
        assert records[i] == movie;
        records := DeleteAt(records, i);
        k := k + 1;
      }
      CountPositiveIffPresent(records, id);
      NoMatchLeavesStore(records, id);
      RemoveDeletesExactlyTheId(old(records), id);
      if old(Valid()) {
        WithoutIdKeepsNoDuplicates(old(records), id);
      }
    }

    /** `getAllFavorites`: every record, in ascending title order; `[]` when the fetch fails. */
    method GetAllFavorites(fetchOk: bool) returns (favorites: seq<FavoriteRecord>)
      ensures fetchOk ==> SortedByTitle(favorites) && multiset(favorites) == multiset(records)
      ensures !fetchOk ==> favorites == []
    {
      if !fetchOk {
        return [];
      }
      favorites := SortByTitle(records);
    }
  }
}
