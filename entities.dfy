/**
 * The value types of the app: a page of the top-films listing, a film summary,
 * a film's detail record with its genres, and the persisted favorite record.
 */
module Entities {
  import opened Wrappers

  /** A URL, identified by its absolute string. */
  datatype Url = Url(absoluteString: string)

  /** A film summary as listed on a catalog page. */
  datatype Film = Film(filmID: int, nameRU: string, posterURLPreview: Url)

  /** One page of the catalog listing: the total page count and this page's films. */
  datatype Movies = Movies(pagesCount: int, films: seq<Film>)

  datatype Genre = Genre(genre: string)

  /**
   * A film's detail record. The rating is a Swift `Double` that the model only
   * copies, never computes with, so it is a `real` here.
   */
  datatype MoviesDescription = MoviesDescription(
    kinopoiskID: int,
    nameRU: string,
    posterURL: Url,
    ratingKinopoisk: real,
    year: int,
    description: string,
    genres: seq<Genre>)

  /** A point in time, as seconds since a reference date. */
  type Date = int

  /**
   * A persisted favorite. `id` is an `Int64`, `year` an `Int16`; the optional
   * attributes of the managed object are `Option`s.
   */
  datatype FavoriteRecord = FavoriteRecord(
    id: int,
    title: Option<string>,
    posterUrl: Option<string>,
    rating: real,
    year: int,
    movieDescription: Option<string>,
    genres: Option<string>,
    addedDate: Option<Date>)

  /** Raw bytes, as `Data` holds them. */
  type Bytes = seq<bv8>

  /** The range of a 32-bit C `int`. */
  predicate FitsInt32(x: int) {
    -0x8000_0000 <= x < 0x8000_0000
  }

  /** The range of Swift's `Int16`; `Int16(x)` traps outside it. */
  predicate FitsInt16(x: int) {
    -0x8000 <= x < 0x8000
  }
}
