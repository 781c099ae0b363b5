/** An optional value: `None` stands for JavaScript's `null`/`undefined`. */
module Wrappers {
  datatype Option<+T> = None | Some(value: T)
}

/** The records the watched-list logic works on. */
module Movies {
  import opened Wrappers

  /** The movie database's identifier (`imdbID`). */
  type MovieId = string

  /** The highest rating the star widget offers (`maxRating={10}`). */
  const MaxRating: nat := 10

  /**
   * The fields of a fetched detail response that adding a movie reads.
   * `runtime` is the text the database returns, e.g. "148 min", and `None`
   * when the response has no `Runtime` field (an error body stored as the
   * detail, or nothing loaded yet); `imdbRating` is kept as the returned text.
   */
  datatype MovieDetail = MovieDetail(
    title: string,
    year: string,
    poster: string,
    runtime: Option<string>,
    imdbRating: string)

  /**
   * One entry of the watched list. `runtime` is `None` where the source's
   * `Number(...)` would give NaN.
   */
  datatype WatchedMovie = WatchedMovie(
    imdbID: MovieId,
    imdbRating: string,
    title: string,
    year: string,
    poster: string,
    runtime: Option<nat>,
    userRating: nat,
    countRatingDecisions: nat)
}
