/**
 * The game of jeopardy.js: the global `categories` board, the start
 * button's `setupAndStart` and the cell click handler `handleClick`.
 */
module Jeopardy {
  import opened Wrappers
  import opened BoardModel
  import opened CellIds
  import opened Clicking
  import opened Sampling
  import opened Fetching

  /** Number of categories `setupAndStart` asks for. */
  const CategoryCount: nat := 6

  /** Number of rows `setupAndStart` asks `fillTable` for. */
  const NumQuestions: nat := 5

  /**
   * The random choices follow `_.sampleSize`: `idPicks` selects the
   * category ids from the listing, and `cluePicks[k]` selects the clues of
   * the k-th of those ids.
   */
  predicate SamplerFits(api: Api, idPicks: seq<nat>, cluePicks: seq<seq<nat>>)
  {
    api.listing.Some? ==>
      IsSelection(idPicks, |api.listing.value|, CategoryCount) &&
      CluePicksSelect(api, Sample(IdsOf(api.listing.value), idPicks), cluePicks)
  }

  class Game {
    /** The global `categories` array: one category per column, in column order. */
    var categories: seq<Category>

    constructor ()
      ensures categories == []
    {
      categories := [];
    }

    /**
     * `handleClick` on the cell with id `id`, as written: the step from
     * `'question'` draws the answer and leaves `showing` as it was.
     */
    method HandleClick(id: string) returns (r: ClickResult)
      modifies this
      ensures Outcome(categories, r) == Click(old(categories), id, Advance)
    {
      var loc := Locate(categories, id);
      if loc.None? {
        return TypeError;
      }
      var clue := categories[loc.value.col].clues[loc.value.row];
      if clue.showing == Null {
        categories := SetShowing(categories, loc.value, Question);
        r := ShowQuestion(id[..2], clue.question);
      } else if clue.showing == Question {
        // the statement meant to store 'answer' here only compares, so nothing is stored
        ClickQuestionAsWritten(categories, id, loc.value);
        r := ShowAnswer(id[..2], clue.answer);
      } else {
        ClickOtherNoEffect(categories, id, loc.value);
        r := NoEffect;
      }
    }

    /** `handleClick` with the step from `'question'` storing `'answer'`, as its comment intends. */
    method HandleClickIntended(id: string) returns (r: ClickResult)
      modifies this
      ensures Outcome(categories, r) == Click(old(categories), id, AdvanceIntended)
    {
      var loc := Locate(categories, id);
      if loc.None? {
        return TypeError;
      }
      var clue := categories[loc.value.col].clues[loc.value.row];
      if clue.showing == Null {
        categories := SetShowing(categories, loc.value, Question);
        r := ShowQuestion(id[..2], clue.question);
      } else if clue.showing == Question {
        categories := SetShowing(categories, loc.value, Answer);
        r := ShowAnswer(id[..2], clue.answer);
      } else {
        ClickOtherNoEffect(categories, id, loc.value);
        r := NoEffect;
      }
    }

    /**
     * `setupAndStart`: empty the board, draw six category ids, push the
     * category of each id in id order, then build a table of five rows.
     * A rejected request throws out of it, leaving the categories pushed
     * so far and no table; the result is None then.
     */
    method SetupAndStart(api: Api, idPicks: seq<nat>, cluePicks: seq<seq<nat>>) returns (cells: Option<seq<seq<string>>>)
      requires SamplerFits(api, idPicks, cluePicks)
      modifies this
      ensures api.listing.None? ==> categories == [] && cells.None?
      ensures api.listing.Some? ==>
        var b := Populate(api, Sample(IdsOf(api.listing.value), idPicks), cluePicks);
        categories == b.cats &&
        (cells.Some? <==> b.complete) &&
        (cells.Some? ==> IsIdGrid(cells.value, NumQuestions))
    {
      categories := [];
      var randomIds := GetCategoryIds(api, CategoryCount, idPicks);
      if randomIds.None? {
        return None;
      }
      var complete := PushCategories(api, randomIds.value, cluePicks);
      if !complete {
        return None;
      }
      var grid := FillTable(NumQuestions);
      cells := Some(grid);
    }

    /**
     * The loop of `setupAndStart` over the drawn ids: fetch each id's
     * category and push it, until a fetch throws. The result says whether
     * the loop ran to the end.
     */
    method PushCategories(api: Api, ids: seq<int>, cluePicks: seq<seq<nat>>) returns (complete: bool)
      requires CluePicksSelect(api, ids, cluePicks)
      requires categories == []
      modifies this
      ensures PicksFit(api, ids, cluePicks)
      ensures Populate(api, ids, cluePicks) == Built(categories, complete)
    {
      var n := 0;
      while n < |ids|
        invariant 0 <= n <= |ids|
        invariant PicksFit(api, ids[..n], cluePicks[..n])
        invariant Populate(api, ids[..n], cluePicks[..n]) == Built(categories, true)
      {
        PopulateNext(api, ids, cluePicks, n);
        var catData := GetCategory(api, ids[n], cluePicks[n]);
        if catData.None? {
          PopulateStops(api, ids, cluePicks, n + 1);
          return false;
        }
        categories := categories + [catData.value];
        n := n + 1;
      }
      assert ids[..n] == ids && cluePicks[..n] == cluePicks;
      complete := true;
    }
  }

  /**
   * What a complete setup builds: one category per drawn id (six, or all
   * of a shorter listing), in id order, each with at most five clues, all
   * hidden.
   */
  lemma SetupBoard(api: Api, idPicks: seq<nat>, cluePicks: seq<seq<nat>>)
    requires SamplerFits(api, idPicks, cluePicks) && api.listing.Some?
    ensures InRange(idPicks, |api.listing.value|)
    ensures var ids := Sample(IdsOf(api.listing.value), idPicks);
      PicksFit(api, ids, cluePicks) &&
      var b := Populate(api, ids, cluePicks);
      AllHidden(b.cats) && |b.cats| <= |ids| &&
      (b.complete ==> |b.cats| == Min(CategoryCount, |api.listing.value|)) &&
      (forall k :: 0 <= k < |b.cats| ==>
        Some(b.cats[k]) == FetchCategory(api, ids[k], cluePicks[k]) && |b.cats[k].clues| <= CluesPerCategory)
  {
    var ids := Sample(IdsOf(api.listing.value), idPicks);
    PopulateOrder(api, ids, cluePicks);
    PopulateFresh(api, ids, cluePicks);
  }

  /**
   * Every cell of the table `fillTable(5)` builds selects, when clicked,
   * the clue of its own row and column, or throws when the board has no
   * clue there (fewer than six categories, or a category with fewer than
   * five clues).
   */
  lemma GridTargets(cats: seq<Category>, cells: seq<seq<string>>)
    requires IsIdGrid(cells, NumQuestions)
    ensures forall i, j :: 0 <= i < NumQuestions && 0 <= j < Columns ==>
      Locate(cats, cells[i][j]) == if j < |cats| && i < |cats[j].clues| then Some(Loc(j, i)) else None
  {
  }
}
