/**
 * The film list screen: its two film lists, the `isLoading` guard around
 * loading the catalog, and the search box that narrows the shown list.
 */
module MoviesScreen {
  import opened Wrappers
  import opened Entities
  import opened Network
  import opened Search

  /**
   * What the search box selects from `dataSource` for a non-nil search text:
   * the whole list for the empty text, the title filter otherwise. With this
   * model's `Contains`, where the empty text occurs in every title, the two
   * branches agree, so the result is always the title filter.
   */
  function SearchResults(dataSource: seq<Film>, searchText: string): (r: seq<Film>)
    ensures r == FilterByTitle(dataSource, searchText)
    ensures IsSubsequence(r, dataSource)
  {
    EmptyQueryKeepsEverything(dataSource);
    FilterIsSubsequence(dataSource, searchText);
    if |searchText| == 0 then dataSource
    else FilterByTitle(dataSource, searchText)
  }

  class MoviesViewController {
    /** The catalog as last loaded. */
    var dataSource: seq<Film>
    /** The films shown: `dataSource` narrowed by the search text. */
    var filteredMovies: seq<Film>
    /** A catalog load is under way; a further load request is ignored. */
    var isLoading: bool

    constructor ()
      ensures dataSource == [] && filteredMovies == [] && !isLoading
    {
      dataSource := [];
      filteredMovies := [];
      isLoading := false;
    }

    /**
     * The first half of `fetchAllMovies()`: while a load is under way it
     * returns at once and starts nothing; otherwise it raises `isLoading`
     * and the page chain starts. The lists are left alone either way.
     */
    method StartLoading() returns (started: bool)
      modifies this`isLoading
      ensures started <==> !old(isLoading)
      ensures isLoading
    {
      if isLoading {
        return false;
      }
      isLoading := true;
      started := true;
    }

    /**
     * The second half of `fetchAllMovies()`, its completion handler: lowers
     * `isLoading` and, on success, shows the loaded films in both lists,
     * replacing whatever a search made of `filteredMovies` meanwhile.
     */
    method FinishLoading(result: Result<seq<Film>, NetworkError>)
      modifies this
      ensures !isLoading
      ensures result.Success? ==> dataSource == result.value && filteredMovies == result.value
      ensures result.Failure? ==> dataSource == old(dataSource) && filteredMovies == old(filteredMovies)
    {
      isLoading := false;
      match result
      case Success(movies) =>
        dataSource := movies;
        filteredMovies := movies;
      case Failure(_) =>
    }

    /**
     * `fetchAllMovies()` of the screen with nothing else happening between
     * its start and its completion: the start, the page chain, and the
     * completion handler when the chain's completion fires. If the
     * completion never fires, `isLoading` stays raised.
     */
    method FetchAllMovies(replies: int -> Reply<Movies>, fuel: nat)
      returns (requested: seq<int>, completion: Option<Result<seq<Film>, NetworkError>>)
      modifies this
      ensures old(isLoading) ==> requested == [] && completion.None?
      ensures !old(isLoading) ==> ChainOutcome(replies, fuel, requested, completion)
      ensures isLoading <==> old(isLoading) || completion.None?
      ensures completion.Some? && completion.value.Success? ==>
                dataSource == completion.value.value && filteredMovies == completion.value.value
      ensures !(completion.Some? && completion.value.Success?) ==>
                dataSource == old(dataSource) && filteredMovies == old(filteredMovies)
    {
      var started := StartLoading();
      if !started {
        return [], None;
      }
      ghost var groupCounts;
      requested, completion, groupCounts := Network.FetchAllMovies(replies, fuel);
      if completion.Some? {
        FinishLoading(completion.value);
      }
    }

    /**
     * `updateSearchResults(for:)`: a nil search text changes nothing; any
     * other text replaces `filteredMovies` with the films of `dataSource`
     * whose lowercased title contains the lowercased text, in list order,
     * and the empty text with the whole of `dataSource`.
     */
    method UpdateSearchResults(searchText: Option<string>)
      modifies this`filteredMovies
      ensures dataSource == old(dataSource)
      ensures searchText.None? ==> filteredMovies == old(filteredMovies)
      ensures searchText == Some("") ==> filteredMovies == dataSource
      ensures searchText.Some? ==> filteredMovies == FilterByTitle(dataSource, searchText.value)
      ensures searchText.Some? ==> IsSubsequence(filteredMovies, dataSource)
    {
      if searchText.None? {
        return;
      }
      filteredMovies := SearchResults(dataSource, searchText.value);
    }
  }

  /**
   * First launch without a stored key, as the screen is written: the load
   * started while the key alert is up never completes, so the load started
   * after the key is saved is swallowed by the guard and nothing is
   * requested; the screen stays loading.
   */
  method FirstLaunchAsWritten(key: string, urlBuilt: bool, transport: int -> Option<Bytes>,
                              decode: Bytes -> Option<Movies>, fuel: nat)
    returns (requestedAfterKey: seq<int>, stillLoading: bool)
    ensures requestedAfterKey == [] && stillLoading
  {
    var screen := new MoviesViewController();
    var withoutKey := PageReplies(None, urlBuilt, transport, decode);
    var r1, c1 := screen.FetchAllMovies(withoutKey, fuel);
    MissingKeySilencesEveryPage(urlBuilt, transport, decode, 1);
    SilentPageNeverCompletes(withoutKey, fuel, r1, c1, 1);
    var r2, c2 := screen.FetchAllMovies(PageReplies(Some(key), urlBuilt, transport, decode), fuel);
    requestedAfterKey := r2;
    stillLoading := screen.isLoading;
  }

  /**
   * The same launch with the corrected fetch, which reports a missing key to
   * its completion: the first load completes (empty), so the load after the
   * key is saved runs the page chain from page 1.
   */
  method FirstLaunchCorrected(key: string, urlBuilt: bool, transport: int -> Option<Bytes>,
                              decode: Bytes -> Option<Movies>, fuel: nat)
    returns (requestedAfterKey: seq<int>, completionAfterKey: Option<Result<seq<Film>, NetworkError>>, stillLoading: bool)
    requires fuel >= 1
    ensures |requestedAfterKey| >= 1 && requestedAfterKey[0] == 1
    ensures ChainOutcome(PageRepliesCorrected(Some(key), urlBuilt, transport, decode), fuel, requestedAfterKey, completionAfterKey)
    ensures stillLoading <==> completionAfterKey.None?
  {
    var screen := new MoviesViewController();
    var withoutKey := PageRepliesCorrected(None, urlBuilt, transport, decode);
    var r1, c1 := screen.FetchAllMovies(withoutKey, fuel);
    MissingKeySilencesEveryPage(urlBuilt, transport, decode, 1);
    FirstPageFailureCompletesEmpty(withoutKey, fuel, r1, c1);
    requestedAfterKey, completionAfterKey := screen.FetchAllMovies(PageRepliesCorrected(Some(key), urlBuilt, transport, decode), fuel);
    stillLoading := screen.isLoading;
  }

  /**
   * A refresh while a load is under way starts nothing; once that load has
   * completed, the next refresh starts a load again.
   */
  method RefreshDuringLoad(films: seq<Film>) returns (firstStarted: bool, refreshStarted: bool, laterStarted: bool)
    ensures firstStarted && !refreshStarted && laterStarted
  {
    var screen := new MoviesViewController();
    firstStarted := screen.StartLoading();
    refreshStarted := screen.StartLoading();
    screen.FinishLoading(Success(films));
    laterStarted := screen.StartLoading();
  }

  /**
   * A search typed while a reload is under way filters the list loaded
   * before; the reload's completion then shows the whole new list, not its
   * filter, although the search text is still there.
   */
  method SearchDuringLoad(loaded: seq<Film>, query: string, films: seq<Film>)
    returns (shownWhileLoading: seq<Film>, shownAfter: seq<Film>)
    ensures shownWhileLoading == FilterByTitle(loaded, query)
    ensures shownAfter == films
  {
    var screen := new MoviesViewController();
    var first := screen.StartLoading();
    screen.FinishLoading(Success(loaded));
    var reload := screen.StartLoading();
    screen.UpdateSearchResults(Some(query));
    shownWhileLoading := screen.filteredMovies;
    screen.FinishLoading(Success(films));
    shownAfter := screen.filteredMovies;
  }
}
