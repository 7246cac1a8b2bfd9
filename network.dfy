/**
 * The catalog client: the outcome of one page or detail fetch, and
 * `fetchAllMovies`, which walks the listing page by page.
 *
 * The API key lookup, URL construction, transport and JSON decoding are
 * inputs: the stored key, whether the URL could be built, the body the
 * transport delivered (if any) and a decoder.
 */
module Network {
  import opened Wrappers
  import opened Entities

  /**
   * The client's errors. The first three are the app's `NetworkError`;
   * `Unauthorized` exists only for the corrected fetch (`FetchCorrected`).
   */
  datatype NetworkError = InvalidURL | DecodingError | NoData | Unauthorized

  /** What a fetch does with its completion handler: never calls it, or calls it with a result. */
  datatype Reply<T> = Silent | Completed(result: Result<T, NetworkError>)

  /** One fetch: whether a request went out, and the reply. */
  datatype Exchange<T> = Exchange(requestSent: bool, reply: Reply<T>)

  /**
   * `fetchMovies(page:)` and `fetchDescriptionMovies(for:)`: without a stored
   * key, return at once, with no request and no reply; otherwise reply with
   * exactly one of invalid URL, no data, decoding error or the decoded value.
   */
  function Fetch<T>(apiKey: Option<string>, urlBuilt: bool, body: Option<Bytes>, decode: Bytes -> Option<T>): (e: Exchange<T>)
    ensures e.requestSent <==> apiKey.Some? && urlBuilt
    ensures e.reply.Silent? <==> apiKey.None?
    ensures e.reply == Completed(Failure(InvalidURL)) <==> apiKey.Some? && !urlBuilt
    ensures e.reply == Completed(Failure(NoData)) <==> e.requestSent && body.None?
    ensures e.reply == Completed(Failure(DecodingError)) <==> e.requestSent && body.Some? && decode(body.value).None?
    ensures e.reply.Completed? && e.reply.result.Success? <==> e.requestSent && body.Some? && decode(body.value).Some?
    ensures e.reply.Completed? && e.reply.result.Success? ==> decode(body.value) == Some(e.reply.result.value)
    ensures e.reply.Completed? ==> e.reply.result.Success? || e.reply.result.error != Unauthorized
  {
    if apiKey.None? then Exchange(false, Silent)
    else if !urlBuilt then Exchange(false, Completed(Failure(InvalidURL)))
    else if body.None? then Exchange(true, Completed(Failure(NoData)))
    else match decode(body.value)
      case None => Exchange(true, Completed(Failure(DecodingError)))
      case Some(v) => Exchange(true, Completed(Success(v)))
  }

  /**
   * The fetch as it was evidently meant to behave: a missing key is reported
   * to the completion handler as `Unauthorized`, so every fetch replies.
   */
  function FetchCorrected<T>(apiKey: Option<string>, urlBuilt: bool, body: Option<Bytes>, decode: Bytes -> Option<T>): (e: Exchange<T>)
    ensures e.reply.Completed?
    ensures apiKey.None? ==> !e.requestSent && e.reply == Completed(Failure(Unauthorized))
    ensures apiKey.Some? ==> e == Fetch(apiKey, urlBuilt, body, decode)
  {
    if apiKey.None? then Exchange(false, Completed(Failure(Unauthorized)))
    else Fetch(apiKey, urlBuilt, body, decode)
  }

  /**
   * The listing pages' replies, page by page, as `fetchMovies` produces them:
   * without a key no page ever replies, with one every page does.
   */
  function PageReplies(apiKey: Option<string>, urlBuilt: bool, transport: int -> Option<Bytes>, decode: Bytes -> Option<Movies>): (r: int -> Reply<Movies>)
    ensures forall page :: r(page).Silent? <==> apiKey.None?
  {
    var r := (page: int) => Fetch(apiKey, urlBuilt, transport(page), decode).reply;
    assert forall page :: r(page) == Fetch(apiKey, urlBuilt, transport(page), decode).reply;
    r
  }

  /** The listing pages' replies with the corrected fetch: every page replies. */
  function PageRepliesCorrected(apiKey: Option<string>, urlBuilt: bool, transport: int -> Option<Bytes>, decode: Bytes -> Option<Movies>): (r: int -> Reply<Movies>)
    ensures forall page :: r(page).Completed?
  {
    var r := (page: int) => FetchCorrected(apiKey, urlBuilt, transport(page), decode).reply;
    assert forall page :: r(page) == FetchCorrected(apiKey, urlBuilt, transport(page), decode).reply;
    r
  }

  // ---------------------------------------------------------------------------
  // The page chain of `fetchAllMovies`

  /** Page `page` succeeded and its reply says more pages follow, so the next page is requested. */
  predicate Continues(replies: int -> Reply<Movies>, page: int)
  {
    replies(page).Completed? && replies(page).result.Success? && page < replies(page).result.value.pagesCount
  }

  /** Page `page` replied and the chain stops there. */
  predicate Ends(replies: int -> Reply<Movies>, page: int)
  {
    replies(page).Completed? && !Continues(replies, page)
  }

  /** The films page `page` adds to the accumulator: its films on success, none on failure. */
  function PageFilms(replies: int -> Reply<Movies>, page: int): seq<Film>
  {
    if replies(page).Completed? && replies(page).result.Success? then replies(page).result.value.films else []
  }

  /** The accumulator after the replies of pages 1..k: their films, page after page. */
  function Collected(replies: int -> Reply<Movies>, k: nat): seq<Film>
  {
    if k == 0 then [] else Collected(replies, k - 1) + PageFilms(replies, k)
  }

  /**
   * What `fetchAllMovies` does when at most `fuel` page replies are followed:
   * it requests pages 1, 2, ... consecutively, each once; a page is followed
   * by the next exactly when it succeeded below its `pagesCount`; the
   * completion fires exactly when the last requested page replied without
   * continuing, and then always with success and the accumulated films.
   */
  predicate ChainOutcome(replies: int -> Reply<Movies>, fuel: nat, requested: seq<int>,
                         completion: Option<Result<seq<Film>, NetworkError>>)
  {
    && 1 <= |requested| <= fuel + 1
    && (forall i :: 0 <= i < |requested| ==> requested[i] == i + 1)
    && (forall p :: 1 <= p < |requested| ==> Continues(replies, p))
    && (completion.Some? <==> |requested| <= fuel && Ends(replies, |requested|))
    && (completion.None? ==> replies(|requested|).Silent? || |requested| == fuel + 1)
    && (completion.Some? ==> completion.value == Success(Collected(replies, |requested|)))
  }

  /**
   * `fetchAllMovies`. Page `p + 1` is requested from inside page `p`'s reply,
   * so the chain is sequential; the loop handles one reply per iteration.
   * `groupCounts` records the dispatch group's count after every enter and
   * leave: one entry per requested page and one per reply handled. A page
   * that asks for the next enters the group for it before leaving, so the
   * count alternates 1, 2, 1, ... and drops to zero only at the last reply;
   * the group's notification, and with it the completion, fires then.
   * `fuel` bounds the number of replies followed.
   */
  method FetchAllMovies(replies: int -> Reply<Movies>, fuel: nat)
    returns (requested: seq<int>, completion: Option<Result<seq<Film>, NetworkError>>, ghost groupCounts: seq<int>)
    ensures ChainOutcome(replies, fuel, requested, completion)
    ensures |groupCounts| == |requested| + (if completion.Some? then |requested| else |requested| - 1)
    ensures groupCounts[0] == 1
    ensures forall i :: 0 <= i < |groupCounts| ==> 0 <= groupCounts[i] <= 2
    ensures forall i :: 0 <= i < |groupCounts| - 1 ==> groupCounts[i] >= 1
    ensures completion.Some? <==> groupCounts[|groupCounts| - 1] == 0
    ensures forall i :: 0 <= i < |groupCounts| - 1 ==> groupCounts[i] == 1 + i % 2
  {
    var allMovies: seq<Film> := [];
    var currentPage := 1;
    ghost var group := 0;
    // loadPage(page: 1)
    group := group + 1;
    groupCounts := [group];
    requested := [currentPage];
    var outstanding := true;
    var handled := 0;
    while outstanding && handled < fuel && replies(currentPage).Completed?
      invariant currentPage == |requested| >= 1
      invariant forall i :: 0 <= i < |requested| ==> requested[i] == i + 1
      invariant forall p :: 1 <= p < |requested| ==> Continues(replies, p)
      invariant handled == if outstanding then |requested| - 1 else |requested|
      invariant handled <= fuel
      invariant allMovies == Collected(replies, handled)
      invariant !outstanding ==> Ends(replies, currentPage)
      invariant group == if outstanding then 1 else 0
      // one entry per enter (one per requested page) and one per leave (one per reply)
      invariant |groupCounts| == |requested| + handled
      invariant groupCounts[0] == 1 && groupCounts[|groupCounts| - 1] == group
      invariant forall i :: 0 <= i < |groupCounts| - 1 ==> groupCounts[i] == 1 + i % 2
      invariant |groupCounts| % 2 == if outstanding then 1 else 0
      decreases fuel - handled
    {
      var page := currentPage;
      handled := handled + 1;
      match replies(page).result
      case Success(movies) =>
        allMovies := allMovies + movies.films;
        if page < movies.pagesCount {
          // loadPage(page: currentPage + 1), entered before this reply leaves
          currentPage := currentPage + 1;
          group := group + 1;
          groupCounts := groupCounts + [group];
          requested := requested + [currentPage];
        } else {
          outstanding := false;
        }
        group := group - 1;
        groupCounts := groupCounts + [group];
      case Failure(_) =>
        outstanding := false;
        group := group - 1;
        groupCounts := groupCounts + [group];
    }
    if outstanding {
      completion := None;
    } else {
      completion := Some(Success(allMovies));
    }
  }

  // ---------------------------------------------------------------------------
  // Properties of the chain

  /** The chain's outcome is determined by the replies and the fuel. */
  lemma ChainOutcomeUnique(replies: int -> Reply<Movies>, fuel: nat,
                           r1: seq<int>, c1: Option<Result<seq<Film>, NetworkError>>,
                           r2: seq<int>, c2: Option<Result<seq<Film>, NetworkError>>)
    requires ChainOutcome(replies, fuel, r1, c1)
    requires ChainOutcome(replies, fuel, r2, c2)
    ensures r1 == r2 && c1 == c2
  {
    var n1, n2 := |r1|, |r2|;
    // each chain's last page is a page the other chain would have continued past, were it longer
    assert Continues(replies, n1) || !Continues(replies, n1);
    assert Continues(replies, n2) || !Continues(replies, n2);
    assert n1 == n2;
    assert forall i :: 0 <= i < n1 ==> r1[i] == r2[i];
  }

  /** A page whose reply never comes is the last one requested, and the completion never fires. */
  lemma SilentPageNeverCompletes(replies: int -> Reply<Movies>, fuel: nat, requested: seq<int>,
                                 completion: Option<Result<seq<Film>, NetworkError>>, page: int)
    requires ChainOutcome(replies, fuel, requested, completion)
    requires 1 <= page <= |requested| && replies(page).Silent?
    ensures page == |requested| && completion.None?
  {
    assert !Continues(replies, page);
  }

  /** When page 1 fails, only page 1 is requested and the completion still reports success, with no films. */
  lemma FirstPageFailureCompletesEmpty(replies: int -> Reply<Movies>, fuel: nat, requested: seq<int>,
                                       completion: Option<Result<seq<Film>, NetworkError>>)
    requires ChainOutcome(replies, fuel, requested, completion)
    requires fuel >= 1 && replies(1).Completed? && replies(1).result.Failure?
    ensures requested == [1] && completion == Some(Success([]))
  {
    assert !Continues(replies, 1);
    assert |requested| == 1;
    assert Collected(replies, 1) == Collected(replies, 0) + PageFilms(replies, 1) == [];
  }

  /**
   * A failed page ends the chain: with three pages and page 2 failing, page 3
   * is never requested and the result holds page 1's films only.
   */
  lemma SecondPageFailureDropsLaterPages(replies: int -> Reply<Movies>, fuel: nat, requested: seq<int>,
                                         completion: Option<Result<seq<Film>, NetworkError>>, first: Movies)
    requires ChainOutcome(replies, fuel, requested, completion)
    requires fuel >= 2
    requires replies(1) == Completed(Success(first)) && first.pagesCount == 3
    requires replies(2).Completed? && replies(2).result.Failure?
    ensures requested == [1, 2] && completion == Some(Success(first.films))
  {
    assert !Continues(replies, 2) && Continues(replies, 1) && !Ends(replies, 1);
    assert |requested| == 2;
    assert Collected(replies, 1) == Collected(replies, 0) + PageFilms(replies, 1) == first.films;
    assert requested[0] == 1 && requested[1] == 2;
    assert Ends(replies, 2);
    assert PageFilms(replies, 2) == [];
    assert Collected(replies, 2) == Collected(replies, 1) + PageFilms(replies, 2) == first.films;
    assert completion == Some(Success(Collected(replies, 2)));
  }

  /**
   * If every page replies and no reply claims more than `n` pages, a chain
   * given at least `n` replies of fuel completes after at most `n` pages.
   */
  lemma BoundedChainCompletes(replies: int -> Reply<Movies>, fuel: nat, requested: seq<int>,
                              completion: Option<Result<seq<Film>, NetworkError>>, n: nat)
    requires ChainOutcome(replies, fuel, requested, completion)
    requires forall p :: 1 <= p ==> replies(p).Completed?
    requires forall p :: 1 <= p && replies(p).Completed? && replies(p).result.Success? ==> replies(p).result.value.pagesCount <= n
    requires 1 <= n <= fuel
    ensures completion.Some? && |requested| <= n
  {
    var k := |requested|;
    assert Continues(replies, k - 1) || !Continues(replies, k - 1);
    assert k <= n;
    assert replies(k).Completed?;
  }

  /** The accumulator only grows at the end: the films of earlier pages keep their positions. */
  lemma {:induction false} CollectedPrefix(replies: int -> Reply<Movies>, j: nat, k: nat)
    requires j <= k
    ensures |Collected(replies, j)| <= |Collected(replies, k)|
    ensures Collected(replies, k)[..|Collected(replies, j)|] == Collected(replies, j)
    decreases k - j
  {
    if j < k {
      CollectedPrefix(replies, j, k - 1);
      var a, b := Collected(replies, j), Collected(replies, k - 1);
      assert Collected(replies, k) == b + PageFilms(replies, k);
      assert (b + PageFilms(replies, k))[..|a|] == b[..|a|];
    }
  }

  /** Without a stored key no listing page ever replies. */
  lemma MissingKeySilencesEveryPage(urlBuilt: bool, transport: int -> Option<Bytes>, decode: Bytes -> Option<Movies>, page: int)
    ensures PageReplies(None, urlBuilt, transport, decode)(page).Silent?
    ensures PageRepliesCorrected(None, urlBuilt, transport, decode)(page) == Completed(Failure(Unauthorized))
  {
    assert PageReplies(None, urlBuilt, transport, decode)(page) == Fetch(None, urlBuilt, transport(page), decode).reply;
    assert PageRepliesCorrected(None, urlBuilt, transport, decode)(page) == FetchCorrected(None, urlBuilt, transport(page), decode).reply;
  }
}
