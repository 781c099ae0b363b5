/**
 * The watched list as a value: the pure transforms that the App's state
 * setters apply (append, filter by id) and the two queries the detail view
 * makes (membership, first-match rating).
 */
module WatchedList {
  import opened Wrappers
  import opened Movies

  /** The identifiers of the list, in list order (`watched.map(movie => movie.imdbID)`). */
  function Ids(watched: seq<WatchedMovie>): (ids: seq<MovieId>)
    ensures |ids| == |watched|
    ensures forall i :: 0 <= i < |watched| ==> ids[i] == watched[i].imdbID
  {
    seq(|watched|, i requires 0 <= i < |watched| => watched[i].imdbID)
  }

  /** `isWatched`: the id occurs among the list's identifiers. */
  function IsWatched(watched: seq<WatchedMovie>, id: MovieId): (b: bool)
    ensures b <==> exists i :: 0 <= i < |watched| && watched[i].imdbID == id
  {
    id in Ids(watched)
  }

  /** Number of entries carrying the given id. */
  function Occurrences(watched: seq<WatchedMovie>, id: MovieId): (n: nat)
    ensures n <= |watched|
    ensures n > 0 <==> IsWatched(watched, id)
  {
    if watched == [] then 0
    else (if watched[0].imdbID == id then 1 else 0) + Occurrences(watched[1..], id)
  }

  /** At most one entry per identifier: the invariant the UI's guards keep. */
  ghost predicate UniqueIds(watched: seq<WatchedMovie>)
  {
    forall i, j :: 0 <= i < j < |watched| ==> watched[i].imdbID != watched[j].imdbID
  }

  /** `handleAddWatched`: `[...watched, movie]`. */
  function AddWatched(watched: seq<WatchedMovie>, movie: WatchedMovie): (added: seq<WatchedMovie>)
    ensures |added| == |watched| + 1
    ensures added[..|watched|] == watched
    ensures added[|watched|] == movie
  {
    watched + [movie]
  }

  /** `handleDeleteWatched`: `watched.filter(movie => movie.imdbID !== id)`. */
  function DeleteWatched(watched: seq<WatchedMovie>, id: MovieId): (kept: seq<WatchedMovie>)
    ensures |kept| == |watched| - Occurrences(watched, id)
    ensures forall m :: m in kept ==> m in watched && m.imdbID != id
    ensures forall m :: m in watched && m.imdbID != id ==> m in kept
  {
    if watched == [] then []
    else if watched[0].imdbID != id then [watched[0]] + DeleteWatched(watched[1..], id)
    else DeleteWatched(watched[1..], id)
  }

  /** `watched.find(movie => movie.imdbID === id)`: the first entry with the id. */
  function Find(watched: seq<WatchedMovie>, id: MovieId): (found: Option<WatchedMovie>)
    ensures found.None? <==> !IsWatched(watched, id)
    ensures found.Some? ==>
      exists i :: 0 <= i < |watched| && watched[i] == found.value && watched[i].imdbID == id &&
        forall j :: 0 <= j < i ==> watched[j].imdbID != id
  {
    if watched == [] then None
    else if watched[0].imdbID == id then Some(watched[0])
    else
      var rest := Find(watched[1..], id);
      assert rest.Some? ==> exists i :: 1 <= i < |watched| && watched[i] == rest.value && watched[i].imdbID == id &&
                                  (forall j :: 0 <= j < i ==> watched[j].imdbID != id) by {
        if rest.Some? {
          var i :| 0 <= i < |watched[1..]| && watched[1..][i] == rest.value && watched[1..][i].imdbID == id &&
            forall j :: 0 <= j < i ==> watched[1..][j].imdbID != id;
          assert watched[i + 1] == rest.value;
          assert forall j :: 0 <= j < i + 1 ==> watched[j].imdbID != id by {
            forall j | 0 <= j < i + 1 ensures watched[j].imdbID != id {
              if j > 0 { assert watched[j] == watched[1..][j - 1]; }
            }
          }
        }
      }
      rest
  }

  /** `watchedUserRating`: the user rating of the first entry with the id, if any. */
  function WatchedUserRating(watched: seq<WatchedMovie>, id: MovieId): (rating: Option<nat>)
    ensures rating.None? <==> !IsWatched(watched, id)
    ensures rating.Some? ==>
      exists i :: 0 <= i < |watched| && watched[i].imdbID == id && watched[i].userRating == rating.value &&
        forall j :: 0 <= j < i ==> watched[j].imdbID != id
  {
    match Find(watched, id)
    case Some(movie) => Some(movie.userRating)
    case None => None
  }

  // ---------------------------------------------------------------------
  // Deleting by id

  /** Deleting distributes over concatenation: the kept entries stay in list order. */
  lemma {:induction false} DeleteConcat(a: seq<WatchedMovie>, b: seq<WatchedMovie>, id: MovieId)
    ensures DeleteWatched(a + b, id) == DeleteWatched(a, id) + DeleteWatched(b, id)
  {
    if a == [] {
      assert a + b == b;
    } else {
      assert (a + b)[0] == a[0];
      assert (a + b)[1..] == a[1..] + b;
      DeleteConcat(a[1..], b, id);
    }
  }

  /** Deleting a single entry drops it exactly when it carries the id. */
  lemma DeleteSingle(movie: WatchedMovie, id: MovieId)
    ensures DeleteWatched([movie], id) == if movie.imdbID == id then [] else [movie]
  {
    assert [movie][1..] == [];
  }

  /** No entry with the id survives a delete. */
  lemma DeleteRemovesAll(watched: seq<WatchedMovie>, id: MovieId)
    ensures !IsWatched(DeleteWatched(watched, id), id)
  {
    var kept := DeleteWatched(watched, id);
    forall i | 0 <= i < |kept| ensures kept[i].imdbID != id {
      assert kept[i] in kept;
    }
  }

  /** Deleting leaves the list unchanged exactly when the id is absent. */
  lemma {:induction false} DeleteUnchangedIff(watched: seq<WatchedMovie>, id: MovieId)
    ensures DeleteWatched(watched, id) == watched <==> !IsWatched(watched, id)
  {
    if !IsWatched(watched, id) {
      if watched != [] {
        assert watched[0].imdbID != id;
        assert !IsWatched(watched[1..], id) by {
          forall i | 0 <= i < |watched[1..]| ensures watched[1..][i].imdbID != id {
            assert watched[1..][i] == watched[i + 1];
          }
        }
        DeleteUnchangedIff(watched[1..], id);
        assert [watched[0]] + watched[1..] == watched;
      }
    }
  }

  /** Deleting twice is deleting once. */
  lemma DeleteIdempotent(watched: seq<WatchedMovie>, id: MovieId)
    ensures DeleteWatched(DeleteWatched(watched, id), id) == DeleteWatched(watched, id)
  {
    DeleteRemovesAll(watched, id);
    DeleteUnchangedIff(DeleteWatched(watched, id), id);
  }

  /** Deletes of two ids may be done in either order. */
  lemma {:induction false} DeleteCommutes(watched: seq<WatchedMovie>, a: MovieId, b: MovieId)
    ensures DeleteWatched(DeleteWatched(watched, a), b) == DeleteWatched(DeleteWatched(watched, b), a)
  {
    if watched != [] {
      var head, tail := watched[0], watched[1..];
      assert watched == [head] + tail;
      DeleteConcat([head], tail, a);
      DeleteConcat([head], tail, b);
      DeleteSingle(head, a);
      DeleteSingle(head, b);
      DeleteConcat(DeleteWatched([head], a), DeleteWatched(tail, a), b);
      DeleteConcat(DeleteWatched([head], b), DeleteWatched(tail, b), a);
      DeleteCommutes(tail, a, b);
    }
  }

  // ---------------------------------------------------------------------
  // Adding, then deleting

  /**
   * Adding an entry and deleting its id gives back the original list
   * exactly when no entry with that id was there before: the filter removes
   * every entry with the id, not just the one added.
   */
  lemma AddThenDeleteIff(watched: seq<WatchedMovie>, movie: WatchedMovie)
    ensures DeleteWatched(AddWatched(watched, movie), movie.imdbID) == watched
        <==> !IsWatched(watched, movie.imdbID)
  {
    DeleteConcat(watched, [movie], movie.imdbID);
    DeleteSingle(movie, movie.imdbID);
    assert DeleteWatched(watched, movie.imdbID) + [] == DeleteWatched(watched, movie.imdbID);
    DeleteUnchangedIff(watched, movie.imdbID);
  }

  /** Deleting another id commutes with adding. */
  lemma AddThenDeleteOther(watched: seq<WatchedMovie>, movie: WatchedMovie, id: MovieId)
    requires movie.imdbID != id
    ensures DeleteWatched(AddWatched(watched, movie), id) == AddWatched(DeleteWatched(watched, id), movie)
  {
    DeleteConcat(watched, [movie], id);
    DeleteSingle(movie, id);
  }

  // ---------------------------------------------------------------------
  // The "one entry per id" invariant

  /** Adding keeps the ids unique exactly when the list had unique ids and the new id was absent. */
  lemma AddKeepsUniqueIff(watched: seq<WatchedMovie>, movie: WatchedMovie)
    ensures UniqueIds(AddWatched(watched, movie)) <==> UniqueIds(watched) && !IsWatched(watched, movie.imdbID)
  {
    var added := AddWatched(watched, movie);
    if UniqueIds(added) {
      assert UniqueIds(watched) by {
        forall i, j | 0 <= i < j < |watched| ensures watched[i].imdbID != watched[j].imdbID {
          assert added[i] == watched[i] && added[j] == watched[j];
        }
      }
      forall i | 0 <= i < |watched| ensures watched[i].imdbID != movie.imdbID {
        assert added[i] == watched[i];
      }
    }
  }

  /** A list with unique ids has a tail with unique ids. */
  lemma UniqueTail(watched: seq<WatchedMovie>)
    requires watched != [] && UniqueIds(watched)
    ensures UniqueIds(watched[1..])
  {
    var tail := watched[1..];
    forall i, j | 0 <= i < j < |tail| ensures tail[i].imdbID != tail[j].imdbID {
      assert tail[i] == watched[i + 1] && tail[j] == watched[j + 1];
    }
  }

  /** Putting an entry whose id is new in front of a list with unique ids keeps them unique. */
  lemma UniqueCons(head: WatchedMovie, rest: seq<WatchedMovie>)
    requires UniqueIds(rest)
    requires forall m :: m in rest ==> m.imdbID != head.imdbID
    ensures UniqueIds([head] + rest)
  {
    var list := [head] + rest;
    forall i, j | 0 <= i < j < |list| ensures list[i].imdbID != list[j].imdbID {
      assert list[j] == rest[j - 1] && rest[j - 1] in rest;
      if i > 0 {
        assert list[i] == rest[i - 1];
      }
    }
  }

  /** Deleting keeps the ids unique. */
  lemma {:induction false} DeleteKeepsUnique(watched: seq<WatchedMovie>, id: MovieId)
    requires UniqueIds(watched)
    ensures UniqueIds(DeleteWatched(watched, id))
  {
    if watched != [] {
      var tail := watched[1..];
      UniqueTail(watched);
      DeleteKeepsUnique(tail, id);
      if watched[0].imdbID != id {
        var rest := DeleteWatched(tail, id);
        forall m | m in rest ensures m.imdbID != watched[0].imdbID {
          var k :| 0 <= k < |tail| && tail[k] == m;
          assert tail[k] == watched[k + 1];
        }
        UniqueCons(watched[0], rest);
      }
    }
  }

  /** With unique ids an entry occurs at most once, so a delete removes at most one entry. */
  lemma {:induction false} UniqueOccursAtMostOnce(watched: seq<WatchedMovie>, id: MovieId)
    requires UniqueIds(watched)
    ensures Occurrences(watched, id) <= 1
    ensures |DeleteWatched(watched, id)| == |watched| - (if IsWatched(watched, id) then 1 else 0)
  {
    if watched != [] {
      var tail := watched[1..];
      UniqueTail(watched);
      UniqueOccursAtMostOnce(tail, id);
      if watched[0].imdbID == id {
        forall k | 0 <= k < |tail| ensures tail[k].imdbID != id {
          assert tail[k] == watched[k + 1];
        }
      }
    }
  }

  // ---------------------------------------------------------------------
  // The detail view's queries after list changes

  /** With unique ids the shown rating is the rating of the one entry with the id. */
  lemma UniqueRatingIff(watched: seq<WatchedMovie>, id: MovieId, rating: nat)
    requires UniqueIds(watched)
    ensures WatchedUserRating(watched, id) == Some(rating)
        <==> exists i :: 0 <= i < |watched| && watched[i].imdbID == id && watched[i].userRating == rating
  {
    if exists i :: 0 <= i < |watched| && watched[i].imdbID == id && watched[i].userRating == rating {
      var i :| 0 <= i < |watched| && watched[i].imdbID == id && watched[i].userRating == rating;
      var r := WatchedUserRating(watched, id);
      var k :| 0 <= k < |watched| && watched[k].imdbID == id && watched[k].userRating == r.value &&
        forall j :: 0 <= j < k ==> watched[j].imdbID != id;
      assert k == i;
    }
  }

  /** Once added, a movie is watched, and its rating is shown unless an earlier entry has its id. */
  lemma AddedIsWatched(watched: seq<WatchedMovie>, movie: WatchedMovie)
    ensures IsWatched(AddWatched(watched, movie), movie.imdbID)
    ensures !IsWatched(watched, movie.imdbID) ==>
      WatchedUserRating(AddWatched(watched, movie), movie.imdbID) == Some(movie.userRating)
  {
    var added := AddWatched(watched, movie);
    assert added[|watched|] == movie;
    if !IsWatched(watched, movie.imdbID) {
      var r := WatchedUserRating(added, movie.imdbID);
      forall k | 0 <= k < |watched| ensures added[k].imdbID != movie.imdbID {
        assert added[k] == watched[k];
      }
    }
  }

  /** Adding an entry does not change the rating shown for an id already in the list. */
  lemma AddKeepsEarlierRating(watched: seq<WatchedMovie>, movie: WatchedMovie, id: MovieId)
    requires IsWatched(watched, id)
    ensures WatchedUserRating(AddWatched(watched, movie), id) == WatchedUserRating(watched, id)
  {
    var added := AddWatched(watched, movie);
    var r := WatchedUserRating(watched, id);
    var s := WatchedUserRating(added, id);
    var k :| 0 <= k < |watched| && watched[k].imdbID == id && watched[k].userRating == r.value &&
      forall j :: 0 <= j < k ==> watched[j].imdbID != id;
    assert added[k] == watched[k];
    var l :| 0 <= l < |added| && added[l].imdbID == id && added[l].userRating == s.value &&
      forall j :: 0 <= j < l ==> added[j].imdbID != id;
    assert l == k;
  }

  /** After a delete the detail view shows no rating for the id. */
  lemma DeletedShowsNoRating(watched: seq<WatchedMovie>, id: MovieId)
    ensures WatchedUserRating(DeleteWatched(watched, id), id) == None
  {
    DeleteRemovesAll(watched, id);
  }
}
