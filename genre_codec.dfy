/**
 * The favorites store keeps a film's genre list as one string: the genre
 * names joined with "," on write (`joined(separator:)`) and split on "," on
 * read (`components(separatedBy:)`).
 */
module GenreCodec {
  import opened Wrappers
  import opened Entities

  const Separator: char := ','

  /**
   * `xs.joined(separator: [sep])`: the empty list joins to "". The result
   * starts with the first element, followed by the separator when a second
   * element follows.
   */
  function Join(xs: seq<string>, sep: char): (r: string)
    ensures |xs| == 0 ==> r == ""
    ensures |xs| >= 1 ==> |xs[0]| <= |r| && r[..|xs[0]|] == xs[0]
    ensures |xs| >= 2 ==> |xs[0]| < |r| && r[|xs[0]|] == sep
  {
    if |xs| == 0 then ""
    else if |xs| == 1 then xs[0]
    else xs[0] + [sep] + Join(xs[1..], sep)
  }

  /**
   * `s.components(separatedBy: [sep])`: the maximal separator-free pieces of
   * `s`, in order; "" splits to [""] and a separator at either end yields an
   * empty piece there.
   */
  function Split(s: string, sep: char): (r: seq<string>)
    ensures |r| >= 1
    ensures forall p :: p in r ==> sep !in p
  {
    if |s| == 0 then [""]
    else
      var rest := Split(s[1..], sep);
      if s[0] == sep then [""] + rest
      else [[s[0]] + rest[0]] + rest[1..]
  }

  /** A string without the separator is a single piece. */
  lemma {:induction false} SplitWithoutSeparator(a: string, sep: char)
    requires sep !in a
    ensures Split(a, sep) == [a]
  {
    if |a| > 0 {
      assert a[0] in a;
      SplitWithoutSeparator(a[1..], sep);
      assert [a[0]] + a[1..] == a;
    }
  }

  /** A separator-free prefix followed by the separator splits off as the first piece. */
  lemma {:induction false} SplitAtSeparator(a: string, sep: char, b: string)
    requires sep !in a
    ensures Split(a + [sep] + b, sep) == [a] + Split(b, sep)
  {
    var s := a + [sep] + b;
    if |a| == 0 {
      assert s[1..] == b;
    } else {
      assert s[1..] == a[1..] + [sep] + b;
      SplitAtSeparator(a[1..], sep, b);
      assert [a[0]] + a[1..] == a;
    }
  }

  /** Joining names free of the separator puts exactly one separator between each two of them. */
  lemma {:induction false} JoinSeparatorCount(xs: seq<string>, sep: char)
    requires forall x :: x in xs ==> sep !in x
    ensures multiset(Join(xs, sep))[sep] == if |xs| == 0 then 0 else |xs| - 1
  {
    if |xs| >= 1 {
      assert xs[0] in xs;
      if |xs| >= 2 {
        JoinSeparatorCount(xs[1..], sep);
        assert multiset(Join(xs, sep)) == multiset(xs[0]) + multiset{sep} + multiset(Join(xs[1..], sep));
      }
    }
  }

  /** Splitting undoes joining when the list is non-empty and no name holds the separator. */
  lemma {:induction false} SplitJoin(xs: seq<string>, sep: char)
    requires |xs| >= 1
    requires forall x :: x in xs ==> sep !in x
    ensures Split(Join(xs, sep), sep) == xs
  {
    if |xs| == 1 {
      SplitWithoutSeparator(xs[0], sep);
    } else {
      SplitJoin(xs[1..], sep);
      SplitAtSeparator(xs[0], sep, Join(xs[1..], sep));
    }
  }

  /** Joining undoes splitting, for every string. */
  lemma {:induction false} JoinSplit(s: string, sep: char)
    ensures Join(Split(s, sep), sep) == s
  {
    if |s| > 0 {
      var rest := Split(s[1..], sep);
      JoinSplit(s[1..], sep);
      if s[0] == sep {
        assert ([""] + rest)[1..] == rest;
      } else if |rest| == 1 {
        assert s == [s[0]] + s[1..];
      } else {
        var r := [[s[0]] + rest[0]] + rest[1..];
        assert r[1..] == rest[1..];
        assert Join(rest, sep) == rest[0] + [sep] + Join(rest[1..], sep);
        assert s == [s[0]] + s[1..];
      }
    }
  }

  /** The genre names, in order. */
  function Names(gs: seq<Genre>): (r: seq<string>)
    ensures |r| == |gs| && forall i :: 0 <= i < |gs| ==> r[i] == gs[i].genre
  {
    seq(|gs|, i requires 0 <= i < |gs| => gs[i].genre)
  }

  /** Genre names free of the separator stay so as a list of names. */
  lemma NamesKeepSeparatorFree(gs: seq<Genre>)
    ensures (forall g :: g in gs ==> Separator !in g.genre) ==> forall x :: x in Names(gs) ==> Separator !in x
  {
    var names := Names(gs);
    if forall g :: g in gs ==> Separator !in g.genre {
      forall x | x in names ensures Separator !in x {
        var i :| 0 <= i < |names| && names[i] == x;
        assert gs[i] in gs;
      }
    }
  }

  /**
   * The stored form of a genre list: the names joined with ",", so a list of
   * comma-free names is stored with one "," fewer than it has genres.
   */
  function EncodeGenres(gs: seq<Genre>): (r: string)
    ensures |gs| == 0 ==> r == ""
    ensures (forall g :: g in gs ==> Separator !in g.genre) ==>
              multiset(r)[Separator] == if |gs| == 0 then 0 else |gs| - 1
  {
    var names := Names(gs);
    assert (forall x :: x in names ==> Separator !in x) ==>
             multiset(Join(names, Separator))[Separator] == if |gs| == 0 then 0 else |gs| - 1 by {
      if forall x :: x in names ==> Separator !in x {
        JoinSeparatorCount(names, Separator);
      }
    }
    NamesKeepSeparatorFree(gs);
    Join(names, Separator)
  }

  /** The genre list read back from the stored attribute; a nil attribute reads as no genres. */
  function DecodeGenres(stored: Option<string>): (r: seq<Genre>)
    ensures stored.None? ==> r == []
    ensures stored.Some? ==> |r| >= 1
    ensures forall g :: g in r ==> Separator !in g.genre
  {
    match stored
    case None => []
    case Some(s) =>
      var pieces := Split(s, Separator);
      seq(|pieces|, i requires 0 <= i < |pieces| => Genre(pieces[i]))
  }

  /** A non-empty genre list whose names hold no "," comes back unchanged. */
  lemma GenresRoundTrip(gs: seq<Genre>)
    requires |gs| >= 1
    requires forall g :: g in gs ==> Separator !in g.genre
    ensures DecodeGenres(Some(EncodeGenres(gs))) == gs
  {
    NamesKeepSeparatorFree(gs);
    SplitJoin(Names(gs), Separator);
  }

  /** The empty genre list does not round-trip: it comes back as one empty-named genre. */
  lemma EmptyGenresComeBackAsOneEmptyGenre()
    ensures EncodeGenres([]) == ""
    ensures DecodeGenres(Some(EncodeGenres([]))) == [Genre("")]
  {
  }
}
