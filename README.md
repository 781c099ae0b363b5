# usePopcorn: the watched list and selection logic

usePopcorn is a single-page movie watchlist. A user searches a movie
database, opens a movie's details, rates it with a star widget and adds it
to a persisted "watched" list. Entries can later be deleted from that list.
This project models the in-memory logic of `src/App.js` in Dafny and proves
its properties:

- the watched list as a sequence of records keyed by `imdbID`. Adding
  appends, deleting filters out every entry with an id, and the detail view
  asks whether an id is watched and which rating was given for it
  (modules `Movies` and `WatchedList`);
- the runtime text parse done when an entry is built, "148 min" → 148
  (module `RuntimeText`);
- the selection toggle: clicking the selected movie closes it, clicking
  another selects it (module `Selection`);
- the rating-decision counter kept in a ref. It is bumped after every
  render in which the rating changed to a non-empty value (module
  `RatingCounter`);
- the component state as classes whose methods replace it as the React
  setters do: `App` (list and selection), `MovieDetails` (rating, counter,
  the add handler) and `Box` (open/closed toggle), all in module
  `Components`.

The list never enforces "one entry per id". Only the UI keeps it: the add
button is rendered only when the movie is not watched and the rating is
above 0. The model states that invariant (`WatchedList.UniqueIds`) and
proves that these guards keep it. Because a delete removes every entry
with the id, add-then-delete restores the list exactly when the id was
absent before; `WatchedList.AddThenDeleteIff` proves both directions.
One might expect add-then-delete to be an unconditional round trip, and a
watched entry to be removed on its own. The code's filter removes every
entry with the id, and the model follows the code.

Modelling choices:

- A user rating is a `nat`. 0 stands for the initial `''`, which is falsy
  like 0 and not above 0. The star widget (`maxRating={10}`) sets ratings
  from 1 to 10.
- `MovieDetails` is rendered without a `key`. A new selection while the
  view is open therefore keeps its rating and counter
  (`MovieDetails.ReceiveSelectedMovieId`). Closing unmounts it, and so does
  collapsing the right `Box` (`{isOpen && children}`, src/App.js:170), which
  keeps App's selection; the next opening or expanding builds a fresh one
  with an empty rating and the counter at 0 (the constructor).
- `MovieDetails.HandleAdd` receives the App object whose setters it calls,
  in place of the `onAddWatched` and `onCloseMovie` callbacks.
- The list read from browser storage at start-up is a constructor parameter
  of `App`.

## Model

| member | source | states |
|---|---|---|
| `WatchedList.IsWatched` | src/App.js:219-221 | the movie is watched exactly when some entry's `imdbID` equals the selected id (the `map` of line 220 is the helper `WatchedList.Ids`, the list's ids in order); `CanAdd` applies it to the view's id |
| `WatchedList.Occurrences` | src/App.js:35 | the number of entries with an id is positive exactly when the id is watched, and at most the list's length |
| `WatchedList.AddWatched` | src/App.js:28-29 | adding makes the list one longer, keeps every earlier entry in place and puts the new entry last |
| `WatchedList.DeleteWatched` | src/App.js:34-35 | deleting removes exactly the entries with the id (the new length is the old one minus their number), keeps every entry with another id and introduces none |
| `WatchedList.Find` | src/App.js:223-225 | the found entry is the first one with the id, and nothing is found exactly when the id is not watched |
| `WatchedList.WatchedUserRating` | src/App.js:223-225 | the shown rating is the `userRating` of the first entry with the id, absent exactly when the id is not watched; `CanAdd` and `HandleAdd` apply it to the view's id |
| `WatchedList.DeleteConcat` | src/App.js:35 | deleting distributes over concatenation, so the kept entries keep their relative order |
| `WatchedList.DeleteSingle` | src/App.js:35 | a single entry is dropped exactly when it carries the id |
| `WatchedList.DeleteRemovesAll` | src/App.js:35 | after a delete no entry with the id remains |
| `WatchedList.DeleteUnchangedIff` | src/App.js:35 | a delete leaves the list unchanged exactly when the id is absent |
| `WatchedList.DeleteIdempotent` | src/App.js:35 | deleting an id twice is the same as deleting it once |
| `WatchedList.DeleteCommutes` | src/App.js:34-35 | deletes of two ids commute |
| `WatchedList.AddThenDeleteIff` | src/App.js:28-35 | adding an entry and deleting its id restores the list exactly when the id was absent before |
| `WatchedList.AddThenDeleteOther` | src/App.js:28-35 | deleting a different id after an add equals adding after the delete |
| `WatchedList.AddKeepsUniqueIff` | src/App.js:313 | adding keeps one entry per id exactly when the list had one entry per id and the new id was not watched |
| `WatchedList.DeleteKeepsUnique` | src/App.js:34-35 | deleting keeps one entry per id |
| `WatchedList.UniqueOccursAtMostOnce` | src/App.js:34-35 | with one entry per id, an id occurs at most once and a delete removes at most one entry |
| `WatchedList.UniqueRatingIff` | src/App.js:223-225 | with one entry per id, the shown rating is r exactly when the entry with the id has rating r |
| `WatchedList.AddedIsWatched` | src/App.js:219-225 | an added movie is watched, and if its id was new its rating is the one shown |
| `WatchedList.AddKeepsEarlierRating` | src/App.js:223-225 | adding does not change the rating shown for an id already in the list |
| `WatchedList.DeletedShowsNoRating` | src/App.js:223-225 | after a delete the view shows no rating for the id |
| `RuntimeText.FirstToken` | src/App.js:247 | the token is a prefix of the text, holds no space, and is followed by a space whenever it stops short of the end |
| `RuntimeText.NatToDigits` | src/App.js:247 | the decimal spelling of a number is a non-empty digit string without leading zeros, starting with '0' only for 0 |
| `RuntimeText.ParseRuntime` | src/App.js:247 | `Number(runtime.split(' ').at(0))` gives a number exactly when the text before the first space is all digits, and for a token without leading zeros that number spells back to the token; `RuntimeText.RuntimeRoundTrip` and `RuntimeText.ParseRuntimeExamples` state the other direction |
| `RuntimeText.SpellingRoundTrip` | src/App.js:247 | a digit string without leading zeros is the spelling of the number it reads as |
| `RuntimeText.DigitsRoundTrip` | src/App.js:247 | reading back the decimal spelling of a number gives the number |
| `RuntimeText.FirstTokenOfPrefix` | src/App.js:247 | the token of a space-free prefix followed by a space (or by nothing) is that prefix |
| `RuntimeText.RuntimeRoundTrip` | src/App.js:247 | a runtime text "<minutes>" followed by nothing or by a space and anything parses to those minutes |
| `RuntimeText.ParseRuntimeExamples` | src/App.js:247 | "N/A" gives no number, "" gives 0 and "148 min" gives 148 |
| `Selection.NextSelection` | src/App.js:18-22 | clicking gives no selection exactly when the clicked movie was selected, and otherwise selects the clicked movie |
| `Selection.SelectTwiceIff` | src/App.js:18-22 | two clicks on one movie restore the selection exactly when nothing or that movie was selected; from another selection they leave nothing selected |
| `Selection.LastClickWins` | src/App.js:18-22 | of two clicks on different movies, the second decides the selection |
| `RatingCounter.RatingDecisions` | src/App.js:210-217 | the counter never exceeds the number of ratings set |
| `RatingCounter.RatingDecisionsStep` | src/App.js:212-217 | one more rating adds one to the counter exactly when it changes the rating to a non-empty value, and becomes the current rating |
| `RatingCounter.RatingDecisionsMonotone` | src/App.js:210-217 | the counter never decreases as ratings are set |
| `RatingCounter.AllCountedIff` | src/App.js:212-217 | the counter equals the number of ratings set exactly when each one changed the rating to a non-empty value |
| `RatingCounter.SameRatingNotCounted` | src/App.js:212-217 | setting the rating already shown leaves the counter unchanged |
| `Components.NewWatchedMovie` | src/App.js:241-250 | a record is built exactly when the detail has a runtime text (otherwise `split` throws), and it carries the selected id, the rating, the counter, the title and the parsed runtime |
| `Components.NewWatchedMovieFields` | src/App.js:240-250 | the new entry has the selected id, the user's rating, the counter's value, and the minutes of a "<minutes> min" runtime |
| `Components.App.constructor` | src/App.js:13-16 | at start nothing is selected and the watched list is the stored one |
| `Components.App.HandleSelectMovieId` | src/App.js:18-22 | the new selection is the toggle of the old one by the clicked id |
| `Components.App.HandleCloseMovie` | src/App.js:24-26 | closing always clears the selection |
| `Components.App.HandleAddWatched` | src/App.js:28-29 | the list becomes the old list with the movie appended, and the movie is watched |
| `Components.App.HandleDeleteWatched` | src/App.js:34-35 | the list becomes the filtered old list: no entry with the id remains, an absent id changes nothing, and one entry per id is kept |
| `Components.MovieDetails.constructor` | src/App.js:206-217 | a mounted detail view starts with an empty rating and the counter at 0 |
| `Components.MovieDetails.ReceiveSelectedMovieId` | src/App.js:60-66 | a new selection while the view is open changes only the selected id; the rating and the counter are kept |
| `Components.MovieDetails.SetUserRating` | src/App.js:208-217 | the rating becomes the one set and the counter goes up by one exactly when the rating changed, keeping the counter equal to the count of decisions so far |
| `Components.MovieDetails.CanAdd` | src/App.js:313-327 | while the detail is not loading, the add button is shown exactly when no entry has the view's id and the rating is above 0, and then no earlier rating is shown |
| `Components.MovieDetails.HandleAdd` | src/App.js:240-254 | with a runtime text, the App's list gains the new entry, whose id is the App's selection, at the end and the selection is cleared; without one, it returns false, standing for the `TypeError` at `runtime.split`, and the list and selection stay as they were; when the add button was shown (src/App.js:313, 320) the entry's rating is 1 to 10, it is the rating now shown, and one entry per id is kept |
| `Components.Box.constructor` | src/App.js:159 | a box starts open |
| `Components.Box.Toggle` | src/App.js:163-165 | the toggle button flips the box between open and closed |
| `Components.RateAndAddSession` | src/App.js:18-29 | selecting a new movie, rating it 8 and adding it grows the list by one entry with that id, rating 8 and one rating decision, and closes the view; with no runtime text in the detail, the list is unchanged and the movie stays selected |

## Left out

- Rendering: every JSX view component (`NavBar`, `Search`, `MovieList`, `Movie`, `WatchedSummary`, `WatchedMoviesList`, `WatchedMovie`, `Loader`, `ErrorMessage`, `Main`, `Logo`) is presentation only. `Box` is kept for its toggle.
- `average` and the `toFixed` display in the summary (src/App.js:7-8, 348-375): floating-point arithmetic. Over an empty list `reduce` returns its initial value 0 and divides nothing.
- `imdbRating`: the entry keeps the detail's text. The source's `Number(imdbRating)` is a floating-point conversion.
- RuntimeText.ParseRuntime: reads only a token of decimal digits, as its value; every other token gives `None`, standing for NaN. JavaScript's `Number` also accepts surrounding whitespace, a sign, decimals, exponents, `Infinity` and the `0x`, `0o` and `0b` prefixes, and rounds long numbers to a double. None of these is modelled.
- A missing `Runtime` field is modelled: `MovieDetail.runtime` is `None`, and `HandleAdd` then returns false, standing for the `TypeError` at `runtime.split`, with the list and the selection unchanged. The add button can reach this case only when the stored detail is an error body from the database (src/App.js:264-265): the rating section is guarded by `!isWatched` alone, so the user can then rate it and press Add. A detail not yet loaded also falls under `None`, but the button is not shown then: on the first render after mounting the rating is still empty, and during a re-selection's fetch the view shows only the loader.
- The loading flag `isLoading` (src/App.js:207, 258, 266, 289) goes with the left-out fetch effect: `CanAdd` is the button's guard for a view that is not loading. The other detail fields are kept as text even when the response lacks them (JavaScript would store `undefined`).
- Components.MovieDetails.SetUserRating: requires a rating from 1 to 10. The star widget that produces it is not part of this model.
- The detail `fetch` effect (src/App.js:256-271) and its out-of-order-response race: network I/O and asynchronous interleaving. The detail data is a parameter of `HandleAdd`.
- The `document.title` effect (src/App.js:273-283) and the keyboard bindings through `useKey` (src/App.js:119-123, 285): DOM and global-event plumbing. Escape calls `HandleCloseMovie`, which is modelled.
- `useMovies`, `useLocalStorageState`, `useKey` and `StarRating` are not part of this model. They hold the search cancellation, the local-storage persistence and the rating widget. The stored list is a parameter of the `App` constructor.
- The search query state (src/App.js:13, 41): it only feeds `useMovies`.
- Rendering's truthiness test on `selectedMovieId` (src/App.js:60): an empty-string id would show the list instead of the details. Ids are non-empty in practice.
- src/index.js: the React root bootstrap.
