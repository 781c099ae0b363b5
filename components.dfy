/**
 * The state the React components hold and the handlers that replace it:
 * `App` (watched list and selection), `MovieDetails` (the user's rating and
 * the rating-decision counter) and `Box` (open/closed).
 */
module Components {
  import opened Wrappers
  import opened Movies
  import WatchedList
  import RuntimeText
  import Selection
  import RatingCounter

  /**
   * The record `handleAdd` builds from the selected id, the detail data, the
   * rating and the counter; `None` when the detail has no runtime text, where
   * `runtime.split` throws and no record is built.
   */
  function NewWatchedMovie(id: MovieId, detail: MovieDetail, userRating: nat, count: nat): (movie: Option<WatchedMovie>)
    ensures movie.None? <==> detail.runtime.None?
    ensures movie.Some? ==>
      && movie.value.imdbID == id
      && movie.value.userRating == userRating
      && movie.value.countRatingDecisions == count
      && movie.value.runtime == RuntimeText.ParseRuntime(detail.runtime.value)
      && movie.value.title == detail.title
      && movie.value.year == detail.year
      && movie.value.poster == detail.poster
      && movie.value.imdbRating == detail.imdbRating
  {
    match detail.runtime
    case None => None
    case Some(runtime) =>
      Some(WatchedMovie(
        imdbID := id,
        imdbRating := detail.imdbRating,
        title := detail.title,
        year := detail.year,
        poster := detail.poster,
        runtime := RuntimeText.ParseRuntime(runtime),
        userRating := userRating,
        countRatingDecisions := count))
  }

  /**
   * The new entry carries the selected id, the rating and the counter, and a
   * runtime text "<minutes> min" becomes its minutes.
   */
  lemma NewWatchedMovieFields(id: MovieId, detail: MovieDetail, userRating: nat, count: nat, minutes: nat, unit: string)
    requires detail.runtime == Some(RuntimeText.NatToDigits(minutes) + unit)
    requires unit == [] || unit[0] == ' '
    ensures NewWatchedMovie(id, detail, userRating, count).Some?
    ensures NewWatchedMovie(id, detail, userRating, count).value.imdbID == id
    ensures NewWatchedMovie(id, detail, userRating, count).value.userRating == userRating
    ensures NewWatchedMovie(id, detail, userRating, count).value.countRatingDecisions == count
    ensures NewWatchedMovie(id, detail, userRating, count).value.runtime == Some(minutes)
  {
    RuntimeText.RuntimeRoundTrip(minutes, unit);
  }

  /** The top-level component: the watched list and the selected movie. */
  class App {
    var watched: seq<WatchedMovie>
    var selectedMovieId: Option<MovieId>

    /** Nothing selected; the watched list is the one read back from storage at start-up. */
    constructor (stored: seq<WatchedMovie>)
      ensures watched == stored && selectedMovieId == None
    {
      watched := stored;
      selectedMovieId := None;
    }

    /** Clicking a movie in the search results. */
    method HandleSelectMovieId(id: MovieId)
      modifies this`selectedMovieId
      ensures selectedMovieId == Selection.NextSelection(old(selectedMovieId), id)
    {
      selectedMovieId := Selection.NextSelection(selectedMovieId, id);
    }

    /** The back button or Escape in the detail view. */
    method HandleCloseMovie()
      modifies this`selectedMovieId
      ensures selectedMovieId == None
    {
      selectedMovieId := None;
    }

    method HandleAddWatched(movie: WatchedMovie)
      modifies this`watched
      ensures watched == WatchedList.AddWatched(old(watched), movie)
      ensures |watched| == |old(watched)| + 1 && watched[..|old(watched)|] == old(watched)
      ensures WatchedList.IsWatched(watched, movie.imdbID)
    {
      watched := WatchedList.AddWatched(watched, movie);
      WatchedList.AddedIsWatched(old(watched), movie);
    }

    method HandleDeleteWatched(id: MovieId)
      modifies this`watched
      ensures watched == WatchedList.DeleteWatched(old(watched), id)
      ensures !WatchedList.IsWatched(watched, id)
      ensures !WatchedList.IsWatched(old(watched), id) ==> watched == old(watched)
      ensures WatchedList.UniqueIds(old(watched)) ==> WatchedList.UniqueIds(watched)
    {
      watched := WatchedList.DeleteWatched(watched, id);
      WatchedList.DeleteRemovesAll(old(watched), id);
      WatchedList.DeleteUnchangedIff(old(watched), id);
      if WatchedList.UniqueIds(old(watched)) {
        WatchedList.DeleteKeepsUnique(old(watched), id);
      }
    }
  }

  /**
   * The detail view of the selected movie. It is rendered without a `key`,
   * so a new selection while it is open keeps its rating and its counter.
   */
  class MovieDetails {
    var selectedMovieId: MovieId
    /** The user's rating; 0 stands for the initial `''`. */
    var userRating: nat
    /** `countRef.current`. */
    var countRatingDecisions: nat
    /** Every rating set since the view was mounted, in order. */
    ghost var ratings: seq<nat>

    ghost predicate Valid()
      reads this
    {
      && (forall k :: 0 <= k < |ratings| ==> 1 <= ratings[k] <= MaxRating)
      && userRating == RatingCounter.CurrentRating(ratings)
      && countRatingDecisions == RatingCounter.RatingDecisions(ratings)
    }

    /** Mounting: empty rating, counter at 0 (the mount-time effect sees a falsy rating). */
    constructor (id: MovieId)
      ensures Valid() && selectedMovieId == id
      ensures ratings == [] && userRating == 0 && countRatingDecisions == 0
    {
      selectedMovieId := id;
      userRating := 0;
      countRatingDecisions := 0;
      ratings := [];
    }

    /** A new `selectedMovieId` prop while mounted: rating and counter stay. */
    method ReceiveSelectedMovieId(id: MovieId)
      requires Valid()
      modifies this`selectedMovieId
      ensures Valid()
      ensures selectedMovieId == id
    {
      selectedMovieId := id;
    }

    /**
     * The star widget's `setUserRating(rating)`, then the effect on
     * `[userRating]`: it runs only when the rating changed, and counts only
     * a non-empty rating.
     */
    method SetUserRating(rating: nat)
      requires Valid()
      requires 1 <= rating <= MaxRating
      modifies this`userRating, this`countRatingDecisions, this`ratings
      ensures Valid()
      ensures ratings == old(ratings) + [rating]
      ensures userRating == rating
      ensures countRatingDecisions == old(countRatingDecisions) + (if rating != old(userRating) then 1 else 0)
    {
      var changed := rating != userRating;
      userRating := rating;
      if changed && userRating != 0 {
        countRatingDecisions := countRatingDecisions + 1;
      }
      ratings := ratings + [rating];
      RatingCounter.RatingDecisionsStep(old(ratings), rating);
    }

    /**
     * The add button is rendered only for a movie not yet watched with a
     * rating above 0; the view then shows no earlier rating for it.
     */
    predicate CanAdd(watched: seq<WatchedMovie>)
      reads this
      ensures CanAdd(watched) <==> WatchedList.Occurrences(watched, selectedMovieId) == 0 && userRating > 0
      ensures CanAdd(watched) ==> WatchedList.WatchedUserRating(watched, selectedMovieId) == None
    {
      !WatchedList.IsWatched(watched, selectedMovieId) && userRating > 0
    }

    /**
     * The add button: append the new entry to the App's list, then close
     * the detail view. The view's id is always the App's selection. When the
     * detail has no runtime text, `runtime.split` throws before either
     * setter runs: nothing is appended and the view stays open. When the
     * button was shown and the list had one entry per id, it still has, and
     * the view would now show the rating given.
     */
    method HandleAdd(detail: MovieDetail, app: App) returns (added: bool)
      requires Valid()
      requires app.selectedMovieId == Some(selectedMovieId)
      modifies app
      ensures added <==> detail.runtime.Some?
      ensures !added ==> app.watched == old(app.watched) && app.selectedMovieId == old(app.selectedMovieId)
      ensures added ==>
        && NewWatchedMovie(selectedMovieId, detail, userRating, countRatingDecisions).Some?
        && app.watched == WatchedList.AddWatched(old(app.watched),
             NewWatchedMovie(selectedMovieId, detail, userRating, countRatingDecisions).value)
        && app.watched[|app.watched| - 1].imdbID == old(app.selectedMovieId).value
        && app.selectedMovieId == None
      ensures added && old(CanAdd(app.watched)) ==> 1 <= app.watched[|app.watched| - 1].userRating <= MaxRating
      ensures added && old(CanAdd(app.watched)) ==>
        WatchedList.WatchedUserRating(app.watched, selectedMovieId) == Some(userRating)
      ensures added && old(CanAdd(app.watched)) && WatchedList.UniqueIds(old(app.watched)) ==>
        WatchedList.UniqueIds(app.watched)
    {
      var built := NewWatchedMovie(selectedMovieId, detail, userRating, countRatingDecisions);
      if built.None? {
        return false;
      }
      var movie := built.value;
      app.HandleAddWatched(movie);
      app.HandleCloseMovie();
      WatchedList.AddedIsWatched(old(app.watched), movie);
      WatchedList.AddKeepsUniqueIff(old(app.watched), movie);
      added := true;
    }
  }

  /** A collapsible container: open at first, the toggle button flips it. */
  class Box {
    var isOpen: bool

    constructor ()
      ensures isOpen
    {
      isOpen := true;
    }

    method Toggle()
      modifies this
      ensures isOpen == !old(isOpen)
    {
      isOpen := !isOpen;
    }
  }

  /**
   * A session: search result clicked, rating 8 given, movie added. With a
   * loaded detail the list grows by one entry with that id and rating 8, and
   * the view closes; without a runtime text the add throws and nothing
   * changes.
   */
  method RateAndAddSession(stored: seq<WatchedMovie>, id: MovieId, detail: MovieDetail)
    returns (app: App)
    requires !WatchedList.IsWatched(stored, id)
    ensures detail.runtime.Some? ==>
      && |app.watched| == |stored| + 1 && app.watched[..|stored|] == stored
      && app.watched[|stored|].imdbID == id && app.watched[|stored|].userRating == 8
      && app.watched[|stored|].countRatingDecisions == 1
      && app.selectedMovieId == None
    ensures detail.runtime.None? ==> app.watched == stored && app.selectedMovieId == Some(id)
  {
    app := new App(stored);
    app.HandleSelectMovieId(id);
    var details := new MovieDetails(id);
    details.SetUserRating(8);
    assert details.CanAdd(app.watched);
    var added := details.HandleAdd(detail, app);
  }
}
