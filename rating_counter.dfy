/**
 * The count of rating decisions the detail view keeps in a ref: the effect
 * on `[userRating]` adds one after every render in which the rating changed
 * to a non-empty value. Ratings are naturals; 0 stands for the initial
 * empty rating `''`, which is falsy like 0 and not above 0.
 */
module RatingCounter {

  /** The rating after the given `setUserRating` calls, in call order. */
  function CurrentRating(ratings: seq<nat>): nat
  {
    if ratings == [] then 0 else ratings[|ratings| - 1]
  }

  /** Call `k` changed the rating to a non-empty value. */
  predicate Decides(ratings: seq<nat>, k: nat)
    requires k < |ratings|
  {
    ratings[k] != 0 && ratings[k] != CurrentRating(ratings[..k])
  }

  /** The counter's value after the given calls. */
  function RatingDecisions(ratings: seq<nat>): (count: nat)
    ensures count <= |ratings|
  {
    if ratings == [] then 0
    else
      var before := ratings[..|ratings| - 1];
      var rating := ratings[|ratings| - 1];
      RatingDecisions(before) + (if rating != CurrentRating(before) && rating != 0 then 1 else 0)
  }

  /** One more call adds one exactly when it changes the rating to a non-empty value. */
  lemma RatingDecisionsStep(ratings: seq<nat>, rating: nat)
    ensures CurrentRating(ratings + [rating]) == rating
    ensures RatingDecisions(ratings + [rating]) ==
      RatingDecisions(ratings) + (if rating != CurrentRating(ratings) && rating != 0 then 1 else 0)
  {
    assert (ratings + [rating])[..|ratings|] == ratings;
  }

  /** The counter never decreases: later calls only add to it. */
  lemma {:induction false} RatingDecisionsMonotone(earlier: seq<nat>, later: seq<nat>)
    ensures RatingDecisions(earlier) <= RatingDecisions(earlier + later)
  {
    if later == [] {
      assert earlier + later == earlier;
    } else {
      var front := later[..|later| - 1];
      assert earlier + later == (earlier + front) + [later[|later| - 1]];
      RatingDecisionsStep(earlier + front, later[|later| - 1]);
      RatingDecisionsMonotone(earlier, front);
    }
  }

  /** The counter equals the number of calls exactly when every call was a decision. */
  lemma {:induction false} AllCountedIff(ratings: seq<nat>)
    ensures RatingDecisions(ratings) == |ratings|
        <==> forall k :: 0 <= k < |ratings| ==> Decides(ratings, k)
  {
    if ratings != [] {
      var n := |ratings| - 1;
      var before := ratings[..n];
      AllCountedIff(before);
      assert forall k :: 0 <= k < n ==> (Decides(ratings, k) <==> Decides(before, k)) by {
        forall k | 0 <= k < n ensures Decides(ratings, k) <==> Decides(before, k) {
          assert ratings[..k] == before[..k];
        }
      }
      assert before + [ratings[n]] == ratings;
      RatingDecisionsStep(before, ratings[n]);
      assert Decides(ratings, n) <==> ratings[n] != CurrentRating(before) && ratings[n] != 0;
      if forall k :: 0 <= k < |ratings| ==> Decides(ratings, k) {
        assert Decides(ratings, n);
      }
    }
  }

  /** Setting the rating the view already shows does not count. */
  lemma {:induction false} SameRatingNotCounted(ratings: seq<nat>)
    ensures RatingDecisions(ratings + [CurrentRating(ratings)]) == RatingDecisions(ratings)
  {
    RatingDecisionsStep(ratings, CurrentRating(ratings));
  }
}
