# MovieList in Dafny

A model of the logic of the MovieList iOS app, a client for the Kinopoisk
unofficial API that lists top films, shows their details and keeps favorites.
The model covers four parts of the app, and leaves out the UIKit screens around them:

- **The favorites store** (`CoreDataManager`, module `Favorites`). The store is a
  class holding the sequence of favorite-film records.
  - Adding is guarded by a count-based existence check.
  - Removing deletes every record with the id, one at a time in a loop.
  - Listing returns the records sorted by title.
  - A record converts back into a film detail. Genres are stored as one
    `","`-joined string (module `GenreCodec`).
  - The ids stay unique (`Valid`) whenever the existence check works.
- **The image cache** (`ImageCacheManager`, module `ImageCache`). The cache
  directory is a class holding a map from file name to bytes. A file name is
  the decimal `description` of the URL string's hash, and the hash is a
  parameter of the cache.
  - Save, load, exists and clear are methods. A failed save or clear is
    modelled by how far it got, not as "nothing changes".
  - Last-write-wins on a hash collision and "other entries unchanged" are
    proved about them.
- **The page chain** (`NetworkManager`, module `Network`).
  - `Fetch` classifies what one `fetchMovies` / `fetchDescriptionMovies` call
    does with its completion.
  - `FetchAllMovies` is the loop that follows the listing pages. It keeps a
    ghost trace of the dispatch group's count, one entry per enter and one per
    leave. Its contract says the count stays at least 1 until the last reply
    and reaches zero exactly when the completion fires.
  - `ChainOutcome` states the chain's result: pages 1..k requested in order,
    each once; stop at the first failure or at the last page; completion
    exactly when the last requested page replied without asking for another,
    and then always `.success` with the films concatenated in page order.
- **The film list screen** (`MoviesViewController`, modules `Search` and
  `MoviesScreen`).
  - The `isLoading` guard around loading the catalog. A load has two events,
    its start (`StartLoading`) and its completion (`FinishLoading`), and other
    events such as a refresh or a search can come between them.
  - The search filter: case-insensitive substring match on the Russian title,
    order-preserving.

The page chain is easy to misread as a concurrent aggregator; the model follows the code:

- `fetchAllMovies` is a sequential chain. Page `p + 1` is requested from inside
  page `p`'s completion. It is not a concurrent fan-out.
- A failed page ends the chain. Later pages are never requested, and the
  result holds only the earlier pages' films (`SecondPageFailureDropsLaterPages`).
  It does not skip the failed page and go on.
- `fetchAllMovies` never reports a failure. A failing first page gives
  `.success([])`.

The outside world is represented by parameters:

- the Keychain (`apiKey: Option<string>`);
- whether a URL could be built;
- the transport's body per page;
- the JSON decoder (`decode: Bytes -> Option<T>`);
- the string hash;
- URL parsing;
- whether a Core Data fetch or count succeeds;
- how a file-system call ends: a write may fail before opening the file or
  part way, leaving a truncated file, and a directory removal may fail after
  deleting some files.

## Model

| member | source | states |
|---|---|---|
| GenreCodec.Join | MovieList/CoreData/CoreDataManager.swift:50 | `joined(separator:)`: "" for no names, otherwise the first name followed by the separator when a second name follows |
| GenreCodec.JoinSeparatorCount | MovieList/CoreData/CoreDataManager.swift:50 | joining separator-free names puts exactly one separator between each two of them |
| GenreCodec.Split | MovieList/CoreData/CoreDataManager.swift:98 | `components(separatedBy: ",")` always yields at least one piece, and no piece contains the separator |
| GenreCodec.SplitWithoutSeparator | MovieList/CoreData/CoreDataManager.swift:98 | a string without the separator splits into itself alone |
| GenreCodec.SplitAtSeparator | MovieList/CoreData/CoreDataManager.swift:98 | splitting `a + "," + b` (with no separator in `a`) gives `a` followed by the pieces of `b` |
| GenreCodec.SplitJoin | MovieList/CoreData/CoreDataManager.swift:98 | split after join returns the names when the list is non-empty and no name contains "," |
| GenreCodec.JoinSplit | MovieList/CoreData/CoreDataManager.swift:98 | join after split returns every string unchanged |
| GenreCodec.Names | MovieList/CoreData/CoreDataManager.swift:50 | `genres.map { $0.genre }`: the same length, and the i-th name is the i-th genre's name |
| GenreCodec.NamesKeepSeparatorFree | MovieList/CoreData/CoreDataManager.swift:50 | genres whose names hold no "," give a name list with no "," |
| GenreCodec.EncodeGenres | MovieList/CoreData/CoreDataManager.swift:50 | no genres are stored as ""; comma-free genres are stored with one "," fewer than there are genres |
| GenreCodec.DecodeGenres | MovieList/CoreData/CoreDataManager.swift:98 | a nil genres string decodes to no genres, a present one to at least one genre, and no genre name contains "," |
| GenreCodec.GenresRoundTrip | MovieList/CoreData/CoreDataManager.swift:98 | decoding the stored string gives back the genres when there is at least one and none contains "," |
| GenreCodec.EmptyGenresComeBackAsOneEmptyGenre | MovieList/CoreData/CoreDataManager.swift:50 | an empty genre list is stored as "" and comes back as the single genre "" |
| TitleOrder.LexLeqTotal | MovieList/CoreData/CoreDataManager.swift:87 | any two titles are comparable |
| TitleOrder.LexLeqTransitive | MovieList/CoreData/CoreDataManager.swift:87 | the title order is transitive |
| TitleOrder.TitleLeqTotal | MovieList/CoreData/CoreDataManager.swift:87 | any two optional titles are comparable (nil first) |
| TitleOrder.SortedByTitleAllPairs | MovieList/CoreData/CoreDataManager.swift:87 | in a title-sorted list every earlier title is at most every later one |
| TitleOrder.Insert | MovieList/CoreData/CoreDataManager.swift:87 | inserting adds exactly that record to the multiset and keeps a sorted list sorted |
| TitleOrder.SortByTitle | MovieList/CoreData/CoreDataManager.swift:87 | the ascending title sort is a permutation of its input and sorted |
| Favorites.Matching | MovieList/CoreData/CoreDataManager.swift:58-62 | the fetch with `id == %d` returns no more records than are stored, each with that id |
| Favorites.CountId | MovieList/CoreData/CoreDataManager.swift:77 | the count with `id == %d` is at most the number of stored records |
| Favorites.WithoutId | MovieList/CoreData/CoreDataManager.swift:57-66 | the store after removal: only records with other ids, exactly the counted records fewer |
| Favorites.NewRecord | MovieList/CoreData/CoreDataManager.swift:41-51 | the inserted record carries the film's id, year, rating, title, description and poster string, its ","-joined genre names, and no date |
| Favorites.AfterAdd | MovieList/CoreData/CoreDataManager.swift:38-53 | after a working existence check the film's id is stored, the old records stay in place, and at most one record is added |
| Favorites.ConvertToMoviesDescription | MovieList/CoreData/CoreDataManager.swift:97-109 | id, year and rating are copied; a missing title or description reads as ""; a missing or unparsable poster reads as the placeholder URL; nil genres read as none, a stored string as at least one genre |
| Favorites.FirstIdIndex | MovieList/CoreData/CoreDataManager.swift:59-64 | the first record with the id: it has the id and no earlier record has it |
| Favorites.DeleteAt | MovieList/CoreData/CoreDataManager.swift:64 | `context.delete` of one record removes exactly that record, one occurrence of it, and keeps the others in order |
| Favorites.PredicateId | MovieList/CoreData/CoreDataManager.swift:59 | the id `NSPredicate(format: "id == %d", id)` compares with: a 32-bit value, equal to the id when it fits `Int32` and congruent to it modulo 2^32 always |
| Favorites.WideIdEscapesPredicate | MovieList/CoreData/CoreDataManager.swift:72-78 | as written, a stored id outside `Int32` whose low 32 bits name no record is counted 0, fetched as nothing, and added a second time |
| Favorites.WideIdExample | MovieList/CoreData/CoreDataManager.swift:59 | a store with one record of id 2^32 + 5 meets that case: its predicate id is 5 |
| Favorites.MatchingMembers | MovieList/CoreData/CoreDataManager.swift:58-59 | the fetch request with `id == %d` returns exactly the records with that id |
| Favorites.WithoutIdMembers | MovieList/CoreData/CoreDataManager.swift:57-66 | after removal a record is stored iff it was stored and has a different id |
| Favorites.CountPositiveIffPresent | MovieList/CoreData/CoreDataManager.swift:77-78 | the count of records with the id is positive iff a record with the id is stored |
| Favorites.MatchingAppend | MovieList/CoreData/CoreDataManager.swift:41-53 | appending a record adds it to the fetch result for its id, and to no other |
| Favorites.NoDuplicatesAtMostOne | MovieList/CoreData/CoreDataManager.swift:77 | in a store with unique ids each id is counted at most once |
| Favorites.AppendKeepsNoDuplicates | MovieList/CoreData/CoreDataManager.swift:40-53 | appending a record whose id is absent keeps the ids unique |
| Favorites.WithoutIdKeepsNoDuplicates | MovieList/CoreData/CoreDataManager.swift:57-66 | removal keeps the ids unique |
| Favorites.NoMatchLeavesStore | MovieList/CoreData/CoreDataManager.swift:57-66 | removing an absent id leaves the store as it was |
| Favorites.RemoveDeletesExactlyTheId | MovieList/CoreData/CoreDataManager.swift:57-66 | after removal no record has the id, every record with another id is kept, and removing an absent id changes nothing |
| Favorites.DeleteFirstMatch | MovieList/CoreData/CoreDataManager.swift:63-65 | deleting the first record with the id drops the head of the id's fetch result and leaves the store without that id the same |
| Favorites.AddNewAppendsOneRecord | MovieList/CoreData/CoreDataManager.swift:40-53 | adding an absent id appends exactly one record with the film's id, title, poster string, rating, year, description and ","-joined genres, and no date |
| Favorites.AddIdempotent | MovieList/CoreData/CoreDataManager.swift:38-40 | adding the same film twice is the same as adding it once |
| Favorites.AddLeavesExactlyOne | MovieList/CoreData/CoreDataManager.swift:38-53 | after an add the store holds exactly one record of the film's id and the ids stay unique |
| Favorites.FailedCheckDuplicates | MovieList/CoreData/CoreDataManager.swift:79-81 | when the count request fails for a stored film, adding it stores a second record of that id |
| Favorites.ConvertRoundTrip | MovieList/CoreData/CoreDataManager.swift:97-109 | a stored film converts back to itself when its poster URL parses back and its genres are non-empty and contain no "," |
| Favorites.ConvertEmptyGenres | MovieList/CoreData/CoreDataManager.swift:98 | a film stored with no genres converts back with the single genre "" |
| Favorites.FavoritesStore.constructor | MovieList/CoreData/CoreDataManager.swift:9-21 | the store opens with the persisted records |
| Favorites.FavoritesStore.IsMovieInFavorites | MovieList/CoreData/CoreDataManager.swift:72-83 | true iff the count request succeeds and a record with the id is stored |
| Favorites.FavoritesStore.AddToFavorites | MovieList/CoreData/CoreDataManager.swift:38-55 | the store after the guarded insert; ids stay unique and the film is stored when the check works; a failed check inserts unconditionally |
| Favorites.FavoritesStore.RemoveFromFavorites | MovieList/CoreData/CoreDataManager.swift:57-70 | the loop deletes exactly the records with the id, keeps all others, and changes nothing when the fetch fails |
| Favorites.FavoritesStore.GetAllFavorites | MovieList/CoreData/CoreDataManager.swift:85-95 | all stored records sorted ascending by title, or [] when the fetch fails |
| ImageCache.Description | MovieList/Helpers/ImageCacheManager.swift:79 | `Int.description`: non-empty, starting with "-" iff negative, digits after the first character |
| ImageCache.Digits | MovieList/Helpers/ImageCacheManager.swift:79 | the decimal digits of a natural: non-empty, one digit iff below 10, every character a digit |
| ImageCache.DigitsInjective | MovieList/Helpers/ImageCacheManager.swift:79 | distinct naturals have distinct digit strings |
| ImageCache.DescriptionInjective | MovieList/Helpers/ImageCacheManager.swift:79 | two hashes give the same `description` iff they are equal |
| ImageCache.ImageCacheManager.CacheFileName | MovieList/Helpers/ImageCacheManager.swift:77-81 | the file name is the hash's decimal text: non-empty, starting with "-" iff the hash is negative |
| ImageCache.ImageCacheManager.SameFileIffSameHash | MovieList/Helpers/ImageCacheManager.swift:77-81 | two URLs share a cache file iff their strings hash alike |
| ImageCache.ImageCacheManager.constructor | MovieList/Helpers/ImageCacheManager.swift:9-22 | an existing directory is kept with its files; otherwise an empty one exists iff its creation succeeds |
| ImageCache.ImageCacheManager.SaveImageToCache | MovieList/Helpers/ImageCacheManager.swift:30-39 | with a directory and an encoded image, the URL's file holds the bytes after a full write, is unchanged after a failure before opening, and holds the written prefix after a failure part way; otherwise nothing changes |
| ImageCache.ImageCacheManager.LoadImageFromCache | MovieList/Helpers/ImageCacheManager.swift:44-55 | the URL's file contents when the file exists and reads, nil otherwise |
| ImageCache.ImageCacheManager.ImageExistsInCache | MovieList/Helpers/ImageCacheManager.swift:60-63 | true iff the URL's file exists |
| ImageCache.ImageCacheManager.ClearCache | MovieList/Helpers/ImageCacheManager.swift:66-73 | after a successful removal the cache is empty and the directory exists iff recreation succeeds; a removal failing part way loses only the files deleted so far; without a directory nothing changes |
| ImageCache.SaveThenLoad | MovieList/Helpers/ImageCacheManager.swift:30-50 | loading a URL just saved returns the saved bytes |
| ImageCache.CollidingSavesShareOneFile | MovieList/Helpers/ImageCacheManager.swift:32-35 | two URLs with colliding hashes share one file, and the last write wins for both |
| ImageCache.SaveKeepsOtherUrls | MovieList/Helpers/ImageCacheManager.swift:30-39 | saving for one URL, however the write ends, leaves what another URL (with a different hash) loads unchanged |
| ImageCache.FailedSaveCanLeaveAFile | MovieList/Helpers/ImageCacheManager.swift:35-38 | a write failing part way leaves a file, so the URL counts as cached with only a prefix of the image |
| ImageCache.ClearThenExists | MovieList/Helpers/ImageCacheManager.swift:66-70 | after a successful clear no URL is cached and loading gives nil |
| ImageCache.FailedClearKeepsOnlyOldFiles | MovieList/Helpers/ImageCacheManager.swift:66-72 | after a failed clear a URL loads what it loaded before or nothing, and nothing for a file deleted before the failure |
| Network.Fetch | MovieList/Controllers/Movies/NetworkManager.swift:35-78 | without a key: no request and no completion; otherwise exactly one of invalid URL, no data, decoding error or the decoded value |
| Network.FetchCorrected | MovieList/Controllers/Movies/NetworkManager.swift:36-39 | the fetch with a missing key reported as a failure: it always completes |
| Network.FetchAllMovies | MovieList/Controllers/Movies/NetworkManager.swift:80-107 | the chain outcome (pages 1..k, stop rules, completion iff the last page replied without continuing, success with the page films in order); the group-count trace has one entry per requested page and one per reply, reads 1, 2, 1, ... (each next page entered before its parent leaves) and so stays at least 1 until its last entry, which is 0 exactly when the completion fires |
| Network.PageReplies | MovieList/Controllers/Movies/NetworkManager.swift:87 | with the fetch as written, a page never replies iff there is no key |
| Network.PageRepliesCorrected | MovieList/Controllers/Movies/NetworkManager.swift:87 | with the corrected fetch, every page replies |
| Network.ChainOutcomeUnique | MovieList/Controllers/Movies/NetworkManager.swift:80-107 | the chain's requests and completion are determined by the page replies |
| Network.SilentPageNeverCompletes | MovieList/Controllers/Movies/NetworkManager.swift:36-39 | a page whose completion is never called is the last one requested, and the chain never completes |
| Network.FirstPageFailureCompletesEmpty | MovieList/Controllers/Movies/NetworkManager.swift:95-106 | when page 1 fails only page 1 is requested and the result is `.success([])` |
| Network.SecondPageFailureDropsLaterPages | MovieList/Controllers/Movies/NetworkManager.swift:89-97 | with three pages and page 2 failing, pages 1 and 2 are requested and the result holds only page 1's films |
| Network.BoundedChainCompletes | MovieList/Controllers/Movies/NetworkManager.swift:91-94 | when every page replies and no reply claims more than n pages, the chain completes after at most n pages |
| Network.CollectedPrefix | MovieList/Controllers/Movies/NetworkManager.swift:81-90 | the accumulator only grows at its end: earlier pages' films keep their positions |
| Network.MissingKeySilencesEveryPage | MovieList/Controllers/Movies/NetworkManager.swift:36-39 | without a key no listing page ever completes; with the corrected fetch each completes as unauthorized |
| Search.Lowercased | MovieList/Controllers/Movies/MoviesList/MoviesViewController.swift:393 | lowercasing keeps the length |
| Search.LowercasedIdempotent | MovieList/Controllers/Movies/MoviesList/MoviesViewController.swift:393 | lowercasing twice is lowercasing once |
| Search.Contains | MovieList/Controllers/Movies/MoviesList/MoviesViewController.swift:393 | a match needs a query no longer than the text, and a prefix of the text always matches |
| Search.TitleMatches | MovieList/Controllers/Movies/MoviesList/MoviesViewController.swift:393 | a matching query is no longer than the title, and a film's own title finds it |
| Search.FilterByTitle | MovieList/Controllers/Movies/MoviesList/MoviesViewController.swift:392-394 | a film is in the result iff it is in the list and its lowercased title contains the lowercased query |
| Search.FilterKeepsEveryMatchingCopy | MovieList/Controllers/Movies/MoviesList/MoviesViewController.swift:392-394 | every copy of a matching film is kept and no copy of another |
| Search.FilterIsSubsequence | MovieList/Controllers/Movies/MoviesList/MoviesViewController.swift:392-394 | the result keeps the list's order |
| Search.EmptyQueryKeepsEverything | MovieList/Controllers/Movies/MoviesList/MoviesViewController.swift:389-394 | with the model's `Contains`, filtering by the empty text keeps the whole list |
| Search.CaseInsensitive | MovieList/Controllers/Movies/MoviesList/MoviesViewController.swift:393 | queries that lowercase alike select the same films |
| Search.QueryCaseIrrelevant | MovieList/Controllers/Movies/MoviesList/MoviesViewController.swift:393 | filtering by the lowercased query selects the same films as by the query |
| MoviesScreen.SearchResults | MovieList/Controllers/Movies/MoviesList/MoviesViewController.swift:389-395 | the empty-text branch agrees with the filter, and the result is an ordered selection of the list |
| MoviesScreen.MoviesViewController.constructor | MovieList/Controllers/Movies/MoviesList/MoviesViewController.swift:14-16 | both lists start empty and no load is under way |
| MoviesScreen.MoviesViewController.StartLoading | MovieList/Controllers/Movies/MoviesList/MoviesViewController.swift:222-224 | a load starts iff none is under way, and afterwards one is |
| MoviesScreen.MoviesViewController.FinishLoading | MovieList/Controllers/Movies/MoviesList/MoviesViewController.swift:230-243 | the completion clears `isLoading`; on success both lists become the loaded films, on failure both are unchanged |
| MoviesScreen.MoviesViewController.FetchAllMovies | MovieList/Controllers/Movies/MoviesList/MoviesViewController.swift:221-245 | with no other event in between: while loading, nothing is requested and nothing changes; otherwise the page chain runs, `isLoading` stays set iff its completion never fires, and on success both lists become the films |
| MoviesScreen.MoviesViewController.UpdateSearchResults | MovieList/Controllers/Movies/MoviesList/MoviesViewController.swift:386-398 | nil text changes nothing; "" shows the whole list; other text shows the title filter in list order; `dataSource` is never changed |
| MoviesScreen.RefreshDuringLoad | MovieList/Controllers/Movies/MoviesList/MoviesViewController.swift:222 | a refresh during a load starts nothing, and a refresh after its completion starts a new load |
| MoviesScreen.SearchDuringLoad | MovieList/Controllers/Movies/MoviesList/MoviesViewController.swift:234-237 | a search during a reload filters the earlier list, and the reload's completion then shows the whole new list |
| MoviesScreen.FirstLaunchAsWritten | MovieList/Controllers/Movies/MoviesList/MoviesViewController.swift:222-230 | on first launch without a key, the load after the key is saved requests nothing and the screen stays loading |
| MoviesScreen.FirstLaunchCorrected | MovieList/Controllers/Movies/NetworkManager.swift:36-39 | with the corrected fetch, the load after the key is saved runs the page chain from page 1 |

## Left out

- Network.FetchAllMovies: follows at most `fuel` page replies. A chain that
  has not ended after `fuel` replies is reported as not completed. The
  server's `pagesCount` could in principle keep a real chain going forever.
- Dispatch queues, `DispatchGroup` threads and main-thread hops. The chain is
  sequential, so only the group's count is kept, as a ghost trace.
- `URLSession`, the HTTP status code and `JSONDecoder`. The transport's body and
  the decoder are parameters. `fetchPoster` (`Data(contentsOf:)` on a
  background queue) is not modelled: it has no logic beyond the library call.
- `setApiKey` and the `KeychainManager`. The key is an `Option<string>` parameter.
- `UIImage` JPEG encoding and decoding. The cache stores bytes. A failed
  encoding is `jpeg == None`. An unreadable file or undecodable image is `readOk == false`.
- The string hash. `url.absoluteString.hash` is Foundation's `NSString` hash,
  which is the same in every process, so cached files are found again after a
  relaunch (the cache's constructor takes the directory left on disk). The
  model keeps the hash as a parameter of the cache.
- `NSPersistentContainer` loading (its `fatalError`) and `saveContext` failures,
  which are only printed. Commits are assumed to succeed.
- Core Data's store order. The store is a sequence in insertion order, and
  no operation exposes that order.
- Search.Lowercased: maps only Latin A-Z and the Cyrillic capitals U+0400-U+042F.
  Every other character is kept, whereas Swift's `lowercased()` applies full
  Unicode case mapping.
- Search.Contains: compares titles and queries as sequences of Unicode
  scalars, with no canonical equivalence and no grapheme-cluster boundaries,
  whereas Swift's `String.contains` compares Characters under canonical
  equivalence. The model assumes NFC text without combining marks: a title
  spelled with a decomposed "Ё" (U+0415 U+0308) does not match the query "ё"
  here, though Swift matches it, and the bound `|part| <= |text|` counts scalars.
- TitleOrder.SortByTitle: orders titles by code point with nil first, not by
  the non-localized `compare:` that `NSSortDescriptor(key:ascending:)` uses. The model promises sorted and
  a permutation, not one particular order among equal titles.
- MoviesScreen.MoviesViewController.FetchAllMovies: runs the start, the page
  chain and the completion as one step. Events between the start and the
  completion (a refresh, a search) are expressed with `StartLoading`,
  `FinishLoading` and `UpdateSearchResults` called in that order, as
  `RefreshDuringLoad` and `SearchDuringLoad` do, but not by this method.
- `Double` arithmetic. A rating is a `real` and is copied unchanged.
- The UIKit screens and their presentation: layout, loading indicator, empty
  state, rating colours and number formatting.
- The `Int64(kinopoiskID)` conversion. Ids are unbounded integers. `Int16(year)`
  traps outside its range, and that is a precondition of adding a new film.
- Favorites.Matching, Favorites.CountId, Favorites.FavoritesStore.IsMovieInFavorites,
  Favorites.FavoritesStore.AddToFavorites and Favorites.FavoritesStore.RemoveFromFavorites
  match ids exactly. The `id == %d` predicate matches by the id's low 32 bits
  (`PredicateId`), so that holds only for ids within `Int32`, and the model
  assumes ids in that range, as Kinopoisk ids are. What the code does outside
  that range is under "## Findings".

## Findings

| source | as written | input that shows it | evidently intended | confidence | as-written member | corrected member |
|---|---|---|---|---|---|---|
| MovieList/Controllers/Movies/NetworkManager.swift:36-39 | without a stored key `fetchMovies` returns without calling its completion, so the screen's `fetchAllMovies` (MoviesViewController.swift:222-230), started from `configure()` at line 45 while the key alert is up, leaves `isLoading` set for good; the load started at line 76 after the key is saved is then dropped by the guard | first launch with no key in the Keychain, then any key entered in the alert | a missing key is reported to the completion as a failure, so `isLoading` is cleared and the load after the key is saved requests page 1 | not executed | MoviesScreen.FirstLaunchAsWritten | MoviesScreen.FirstLaunchCorrected |
| MovieList/CoreData/CoreDataManager.swift:72-78 | `NSPredicate(format: "id == %d", id)` with a 64-bit `Int` (also at line 59): `%d` reads a 32-bit `int`, so the requests compare stored ids with the argument's low 32 bits | a favorite with id 2^32 + 5: `isMovieInFavorites` answers false, `addToFavorites` stores a second record, `removeFromFavorites` deletes nothing | the predicate matches the whole 64-bit id (`%lld`, or an `NSNumber` argument) | not executed; depends on how `NSPredicate` reads a `%d` argument | Favorites.WideIdEscapesPredicate | Favorites.MatchingMembers |
