/**
 * Building the board from the trivia service: `getCategoryIds` and
 * `getCategory`. The service's answers are inputs (`Api`); a request the
 * service rejects is None, and makes the awaiting function throw.
 */
module Fetching {
  import opened Wrappers
  import opened BoardModel
  import opened Sampling

  /** An element of the `categories` listing; other fields are ignored. */
  datatype CategoryRecord = CategoryRecord(id: int)

  /** An element of the `clues` response; other fields are ignored. */
  datatype ClueRecord = ClueRecord(question: string, answer: string)

  /** The `category` response; other fields are ignored. */
  datatype CategoryInfo = CategoryInfo(title: string)

  /**
   * The answers of the three endpoints: the `categories` listing (requested
   * with `count: 100`), the `clues` of a category id and the `category`
   * record of an id. None stands for a rejected request.
   */
  datatype Api = Api(
    listing: Option<seq<CategoryRecord>>,
    clues: int -> Option<seq<ClueRecord>>,
    category: int -> Option<CategoryInfo>)

  /** Number of clues `getCategory` samples per category. */
  const CluesPerCategory: nat := 5

  /** The `id` of each listing element, in response order. */
  function IdsOf(response: seq<CategoryRecord>): (ids: seq<int>)
    ensures |ids| == |response|
    ensures forall k :: 0 <= k < |response| ==> ids[k] == response[k].id
  {
    if response == [] then [] else [response[0].id] + IdsOf(response[1..])
  }

  /** A new clue object for a fetched record: its question and answer, and `showing: null`. */
  function NewClue(rec: ClueRecord): (c: Clue)
    ensures c.showing == Null
  {
    Clue(rec.question, rec.answer, Null)
  }

  /** The category `getCategory` returns, or None when either request was rejected. */
  function FetchCategory(api: Api, id: int, picks: seq<nat>): (cat: Option<Category>)
    requires api.clues(id).Some? ==> InRange(picks, |api.clues(id).value|)
    ensures cat.Some? <==> api.clues(id).Some? && api.category(id).Some?
    ensures cat.Some? ==>
      cat.value.title == api.category(id).value.title &&
      |cat.value.clues| == |picks| &&
      forall k :: 0 <= k < |picks| ==> cat.value.clues[k] == NewClue(api.clues(id).value[picks[k]])
  {
    match api.clues(id)
    case None => None
    case Some(clueInfo) =>
      match api.category(id)
      case None => None
      case Some(info) =>
        var sampled := Sample(clueInfo, picks);
        Some(Category(info.title, seq(|sampled|, k requires 0 <= k < |sampled| => NewClue(sampled[k]))))
  }

  /**
   * `getCategoryIds(num)`: the ids of the listing in response order, then a
   * sample of `num` of them; None when the listing request was rejected.
   */
  method GetCategoryIds(api: Api, num: nat, picks: seq<nat>) returns (ids: Option<seq<int>>)
    requires api.listing.Some? ==> IsSelection(picks, |api.listing.value|, num)
    ensures ids.Some? <==> api.listing.Some?
    ensures ids.Some? ==> ids.value == Sample(IdsOf(api.listing.value), picks)
    ensures ids.Some? ==> |ids.value| == Min(num, |api.listing.value|)
    ensures ids.Some? ==> multiset(ids.value) <= multiset(IdsOf(api.listing.value))
    ensures ids.Some? && Distinct(IdsOf(api.listing.value)) ==> Distinct(ids.value)
  {
    if api.listing.None? {
      return None;
    }
    var response := api.listing.value;
    var allIds: seq<int> := [];
    for i := 0 to |response|
      invariant |allIds| == i
      invariant forall k :: 0 <= k < i ==> allIds[k] == response[k].id
    {
      allIds := allIds + [response[i].id];
    }
    assert allIds == IdsOf(response);
    SampleFromInput(allIds, picks);
    if Distinct(allIds) {
      SampleDistinct(allIds, picks);
    }
    ids := Some(Sample(allIds, picks));
  }

  /**
   * `getCategory(catId)`: the clue request, then the category request, then
   * one new hidden clue per sampled record, in sample order.
   */
  method GetCategory(api: Api, catId: int, picks: seq<nat>) returns (cat: Option<Category>)
    requires api.clues(catId).Some? ==> IsSelection(picks, |api.clues(catId).value|, CluesPerCategory)
    ensures cat == FetchCategory(api, catId, picks)
    ensures cat.Some? ==> |cat.value.clues| == Min(CluesPerCategory, |api.clues(catId).value|) <= CluesPerCategory
    ensures cat.Some? ==> AllHidden([cat.value])
  {
    if api.clues(catId).None? || api.category(catId).None? {
      return None;
    }
    var clueInfo := api.clues(catId).value;
    var categoryInfo := api.category(catId).value;
    var clues := Sample(clueInfo, picks);
    var clueArr: seq<Clue> := [];
    for i := 0 to |clues|
      invariant |clueArr| == i
      invariant forall k :: 0 <= k < i ==> clueArr[k] == NewClue(clues[k])
    {
      clueArr := clueArr + [Clue(clues[i].question, clues[i].answer, Null)];
    }
    assert clueArr == seq(|clues|, k requires 0 <= k < |clues| => NewClue(clues[k]));
    cat := Some(Category(categoryInfo.title, clueArr));
  }

  /** The outcome of the population loop: the categories pushed, and whether it ran to the end. */
  datatype Built = Built(cats: seq<Category>, complete: bool)

  /** The clue picks fit the clue lists of the ids they go with. */
  predicate PicksFit(api: Api, ids: seq<int>, cluePicks: seq<seq<nat>>)
  {
    |cluePicks| == |ids| &&
    forall k :: 0 <= k < |ids| && api.clues(ids[k]).Some? ==> InRange(cluePicks[k], |api.clues(ids[k]).value|)
  }

  /**
   * The loop of `setupAndStart` over the ids: push the category of each id
   * in turn, stopping at the first one whose fetch throws.
   */
  function Populate(api: Api, ids: seq<int>, cluePicks: seq<seq<nat>>): (b: Built)
    requires PicksFit(api, ids, cluePicks)
    ensures |b.cats| <= |ids|
    ensures b.complete <==> |b.cats| == |ids|
    decreases |ids|
  {
    if ids == [] then Built([], true)
    else
      var n := |ids| - 1;
      assert PicksFit(api, ids[..n], cluePicks[..n]);
      var prior := Populate(api, ids[..n], cluePicks[..n]);
      if !prior.complete then prior
      else match FetchCategory(api, ids[n], cluePicks[n])
        case None => Built(prior.cats, false)
        case Some(c) => Built(prior.cats + [c], true)
  }

  /**
   * The population loop pushes, in id order, the category of every id up
   * to the first failing fetch: all of them when it completes, and
   * otherwise those before the id whose fetch was rejected.
   */
  lemma {:induction false} PopulateOrder(api: Api, ids: seq<int>, cluePicks: seq<seq<nat>>)
    requires PicksFit(api, ids, cluePicks)
    ensures var b := Populate(api, ids, cluePicks);
      |b.cats| <= |ids| &&
      (forall k :: 0 <= k < |b.cats| ==> FetchCategory(api, ids[k], cluePicks[k]) == Some(b.cats[k])) &&
      (b.complete <==> |b.cats| == |ids|) &&
      (!b.complete ==> FetchCategory(api, ids[|b.cats|], cluePicks[|b.cats|]).None?)
    decreases |ids|
  {
    if ids != [] {
      var n := |ids| - 1;
      assert PicksFit(api, ids[..n], cluePicks[..n]);
      PopulateOrder(api, ids[..n], cluePicks[..n]);
    }
  }

  /** The clue picks follow `_.sampleSize(clues, 5)` for every id whose clue request succeeds. */
  predicate CluePicksSelect(api: Api, ids: seq<int>, cluePicks: seq<seq<nat>>)
  {
    |cluePicks| == |ids| &&
    forall k :: 0 <= k < |ids| && api.clues(ids[k]).Some? ==>
      IsSelection(cluePicks[k], |api.clues(ids[k]).value|, CluesPerCategory)
  }

  /** Every category the loop pushes is new: at most five clues, all hidden, texts copied from the service. */
  lemma PopulateFresh(api: Api, ids: seq<int>, cluePicks: seq<seq<nat>>)
    requires CluePicksSelect(api, ids, cluePicks)
    ensures PicksFit(api, ids, cluePicks)
    ensures var b := Populate(api, ids, cluePicks);
      AllHidden(b.cats) && NoneAnswered(b.cats) && |b.cats| <= |ids| &&
      forall k :: 0 <= k < |b.cats| ==>
        api.clues(ids[k]).Some? && api.category(ids[k]).Some? &&
        b.cats[k].title == api.category(ids[k]).value.title &&
        |b.cats[k].clues| == Min(CluesPerCategory, |api.clues(ids[k]).value|) <= CluesPerCategory
  {
    PopulateOrder(api, ids, cluePicks);
  }

  /** Once a fetch has failed, the later ids change nothing: the loop has already thrown. */
  lemma {:induction false} PopulateStops(api: Api, ids: seq<int>, cluePicks: seq<seq<nat>>, i: nat)
    requires PicksFit(api, ids, cluePicks) && i <= |ids|
    requires PicksFit(api, ids[..i], cluePicks[..i])
    requires !Populate(api, ids[..i], cluePicks[..i]).complete
    ensures Populate(api, ids, cluePicks) == Populate(api, ids[..i], cluePicks[..i])
    decreases |ids|
  {
    if i < |ids| {
      var n := |ids| - 1;
      assert PicksFit(api, ids[..n], cluePicks[..n]);
      assert ids[..n][..i] == ids[..i] && cluePicks[..n][..i] == cluePicks[..i];
      PopulateStops(api, ids[..n], cluePicks[..n], i);
    } else {
      assert ids[..i] == ids && cluePicks[..i] == cluePicks;
    }
  }

  /** Pushing the next fetched category extends a completed prefix by one. */
  lemma PopulateNext(api: Api, ids: seq<int>, cluePicks: seq<seq<nat>>, i: nat)
    requires PicksFit(api, ids, cluePicks) && i < |ids|
    ensures PicksFit(api, ids[..i], cluePicks[..i]) && PicksFit(api, ids[..i + 1], cluePicks[..i + 1])
    ensures var prior := Populate(api, ids[..i], cluePicks[..i]);
      prior.complete ==>
        Populate(api, ids[..i + 1], cluePicks[..i + 1]) ==
          match FetchCategory(api, ids[i], cluePicks[i])
          case None => Built(prior.cats, false)
          case Some(c) => Built(prior.cats + [c], true)
  {
    assert ids[..i + 1][..i] == ids[..i] && cluePicks[..i + 1][..i] == cluePicks[..i];
  }
}
