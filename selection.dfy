/** Which movie's details are open: `null` (no selection) or one id. */
module Selection {
  import opened Wrappers
  import opened Movies

  /**
   * The updater `handleSelectMovieId` passes to the setter: clicking the
   * selected movie closes it, clicking any other movie selects that one.
   */
  function NextSelection(selected: Option<MovieId>, id: MovieId): (next: Option<MovieId>)
    ensures next.None? <==> selected == Some(id)
    ensures next.Some? ==> next.value == id
  {
    if selected == Some(id) then None else Some(id)
  }

  /**
   * Clicking the same movie twice restores the selection exactly when
   * nothing or that movie was selected; from another selection the two
   * clicks end with nothing selected.
   */
  lemma SelectTwiceIff(selected: Option<MovieId>, id: MovieId)
    ensures NextSelection(NextSelection(selected, id), id) == selected
        <==> selected.None? || selected == Some(id)
    ensures selected.Some? && selected != Some(id) ==>
      NextSelection(NextSelection(selected, id), id).None?
  {
    if selected.Some? && selected != Some(id) {
      assert NextSelection(selected, id) == Some(id);
    }
  }

  /** Of two clicks on different movies, the last one decides the selection. */
  lemma LastClickWins(selected: Option<MovieId>, first: MovieId, second: MovieId)
    requires first != second
    ensures NextSelection(NextSelection(selected, first), second) == Some(second)
  {
    var middle := NextSelection(selected, first);
    assert middle != Some(second);
  }
}
