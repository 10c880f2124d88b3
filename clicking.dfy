/**
 * The click step of `handleClick`: decode the clicked cell's id, look up
 * `categories[col - 1].clues[row - 1]`, advance its `showing` field and
 * say what is drawn into the cell.
 */
module Clicking {
  import opened Wrappers
  import opened BoardModel
  import opened CellIds

  /** A clue position, counted from 0: `categories[col].clues[row]`. */
  datatype Loc = Loc(col: nat, row: nat)

  predicate ValidLoc(cats: seq<Category>, loc: Loc)
  {
    loc.col < |cats| && loc.row < |cats[loc.col].clues|
  }

  /**
   * What a click does: draw a question or an answer into cell `cell`, do
   * nothing, or throw the TypeError JavaScript raises when reading a field
   * of `undefined` (the lookup missed).
   */
  datatype ClickResult =
    | ShowQuestion(cell: string, text: string)
    | ShowAnswer(cell: string, text: string)
    | NoEffect
    | TypeError

  datatype Outcome = Outcome(board: seq<Category>, result: ClickResult)

  /**
   * The clue a cell id selects, or None when `categories[col - 1]` or its
   * `clues[row - 1]` is undefined.
   */
  function Locate(cats: seq<Category>, id: string): (loc: Option<Loc>)
    ensures loc.Some? ==> ValidLoc(cats, loc.value) && |id| >= 2
    ensures loc.Some? ==> DecodeId(id) == Some((loc.value.row + 1, loc.value.col + 1))
  {
    match DecodeId(id)
    case None => None
    case Some((r, c)) =>
      if 1 <= c <= |cats| && 1 <= r <= |cats[c - 1].clues| then Some(Loc(c - 1, r - 1)) else None
  }

  /** The board with the `showing` field of the clue at `loc` set to `s`, and nothing else changed. */
  function SetShowing(cats: seq<Category>, loc: Loc, s: Showing): (r: seq<Category>)
    requires ValidLoc(cats, loc)
    ensures SameTexts(cats, r)
    ensures r[loc.col].clues[loc.row].showing == s
    ensures forall c, q :: 0 <= c < |r| && 0 <= q < |r[c].clues| && Loc(c, q) != loc ==> r[c].clues[q] == cats[c].clues[q]
  {
    var cat := cats[loc.col];
    cats[loc.col := cat.(clues := cat.clues[loc.row := cat.clues[loc.row].(showing := s)])]
  }

  /**
   * One click on the cell with id `id`, with `step` as the step applied
   * to the clue's `showing` field.
   */
  function Click(cats: seq<Category>, id: string, step: Showing -> Transition): (o: Outcome)
    ensures SameTexts(cats, o.board)
    ensures o.result == TypeError <==> Locate(cats, id).None?
    ensures Locate(cats, id).None? ==> o.board == cats
    ensures Locate(cats, id).Some? ==>
      var loc := Locate(cats, id).value;
      o.board == SetShowing(cats, loc, step(cats[loc.col].clues[loc.row].showing).next)
  {
    match Locate(cats, id)
    case None => Outcome(cats, TypeError)
    case Some(loc) =>
      var clue := cats[loc.col].clues[loc.row];
      var t := step(clue.showing);
      var result := match t.face
        case QuestionText => ShowQuestion(id[..2], clue.question)
        case AnswerText => ShowAnswer(id[..2], clue.answer)
        case Nothing => NoEffect;
      Outcome(SetShowing(cats, loc, t.next), result)
  }

  /** The results of `n` clicks in a row on the same cell. */
  function Clicks(cats: seq<Category>, id: string, step: Showing -> Transition, n: nat): seq<ClickResult>
    decreases n
  {
    if n == 0 then []
    else
      var o := Click(cats, id, step);
      [o.result] + Clicks(o.board, id, step, n - 1)
  }

  function Repeat(x: ClickResult, n: nat): (r: seq<ClickResult>)
    ensures |r| == n && forall k :: 0 <= k < n ==> r[k] == x
  {
    seq(n, _ => x)
  }

  /**
   * Which clue the cell written as `${row}${col}` selects: the clue
   * `categories[col - 1].clues[row - 1]` when it exists, and none (the
   * click throws) when the column has no category or the category has
   * fewer than `row` clues.
   */
  lemma LocateCell(cats: seq<Category>, row: nat, col: nat)
    requires 1 <= row <= 9 && 1 <= col <= 9
    ensures Locate(cats, EncodeId(row, col)) ==
      if col <= |cats| && row <= |cats[col - 1].clues| then Some(Loc(col - 1, row - 1)) else None
  {
  }

  /**
   * A click changes at most the `showing` field of the one clue its id
   * selects: titles, the texts and every other clue stay as they were, and
   * a click that misses the board throws and changes nothing.
   */
  lemma ClickFrame(cats: seq<Category>, id: string, step: Showing -> Transition)
    ensures var o := Click(cats, id, step);
      SameTexts(cats, o.board) &&
      (forall c, q :: 0 <= c < |cats| && 0 <= q < |cats[c].clues| && Locate(cats, id) != Some(Loc(c, q)) ==>
        o.board[c].clues[q] == cats[c].clues[q])
    ensures Click(cats, id, step).result == TypeError <==> Locate(cats, id).None?
    ensures Locate(cats, id).None? ==> Click(cats, id, step).board == cats
  {
  }

  /** Clicking a hidden clue sets its `showing` to `'question'` and draws its question. */
  lemma ClickHidden(cats: seq<Category>, id: string, loc: Loc)
    requires Locate(cats, id) == Some(loc)
    requires cats[loc.col].clues[loc.row].showing == Null
    ensures var o := Click(cats, id, Advance);
      o.result == ShowQuestion(id[..2], cats[loc.col].clues[loc.row].question) &&
      o.board[loc.col].clues[loc.row].showing == Question &&
      o.board == SetShowing(cats, loc, Question)
  {
  }

  /**
   * Clicking a clue whose question is showing draws its answer and, as the
   * source is written, leaves the whole board as it was: `showing` stays
   * `'question'`.
   */
  lemma ClickQuestionAsWritten(cats: seq<Category>, id: string, loc: Loc)
    requires Locate(cats, id) == Some(loc)
    requires cats[loc.col].clues[loc.row].showing == Question
    ensures Click(cats, id, Advance) == Outcome(cats, ShowAnswer(id[..2], cats[loc.col].clues[loc.row].answer))
  {
    var cat := cats[loc.col];
    assert cat.clues[loc.row := cat.clues[loc.row].(showing := Question)] == cat.clues;
    assert cats[loc.col := cat.(clues := cat.clues)] == cats;
  }

  /** A clue whose `showing` is neither `null` nor `'question'` is neither changed nor drawn. */
  lemma ClickOtherNoEffect(cats: seq<Category>, id: string, loc: Loc)
    requires Locate(cats, id) == Some(loc)
    requires cats[loc.col].clues[loc.row].showing == Answer
    ensures Click(cats, id, Advance) == Outcome(cats, NoEffect)
    ensures Click(cats, id, AdvanceIntended) == Outcome(cats, NoEffect)
  {
    var cat := cats[loc.col];
    assert cat.clues[loc.row := cat.clues[loc.row].(showing := Answer)] == cat.clues;
    assert cats[loc.col := cat.(clues := cat.clues)] == cats;
  }

  /** `showing` only moves forward: no click returns a clue to an earlier state. */
  lemma ClickMonotone(cats: seq<Category>, id: string)
    ensures forall c, q :: 0 <= c < |cats| && 0 <= q < |cats[c].clues| ==>
      Rank(cats[c].clues[q].showing) <= Rank(Click(cats, id, Advance).board[c].clues[q].showing) &&
      Rank(cats[c].clues[q].showing) <= Rank(Click(cats, id, AdvanceIntended).board[c].clues[q].showing)
  {
  }

  /** As written, no click ever makes a clue's `showing` equal `'answer'`. */
  lemma ClickNeverAnswers(cats: seq<Category>, id: string)
    requires NoneAnswered(cats)
    ensures NoneAnswered(Click(cats, id, Advance).board)
  {
  }

  /** With the intended step, clicking a clue whose question is showing stores `'answer'` and draws the answer. */
  lemma ClickQuestionIntended(cats: seq<Category>, id: string, loc: Loc)
    requires Locate(cats, id) == Some(loc)
    requires cats[loc.col].clues[loc.row].showing == Question
    ensures var o := Click(cats, id, AdvanceIntended);
      o.result == ShowAnswer(id[..2], cats[loc.col].clues[loc.row].answer) &&
      o.board == SetShowing(cats, loc, Answer)
  {
  }

  /** From a clue whose question is showing, every further click (as written) draws the answer again. */
  lemma {:induction false} ClicksFromQuestion(cats: seq<Category>, id: string, loc: Loc, n: nat)
    requires Locate(cats, id) == Some(loc)
    requires cats[loc.col].clues[loc.row].showing == Question
    ensures Clicks(cats, id, Advance, n) == Repeat(ShowAnswer(id[..2], cats[loc.col].clues[loc.row].answer), n)
    decreases n
  {
    if n > 0 {
      ClickQuestionAsWritten(cats, id, loc);
      ClicksFromQuestion(cats, id, loc, n - 1);
    }
  }

  /**
   * Repeated clicks on a hidden clue, as written: the question once, then
   * the answer on every later click, for ever.
   */
  lemma {:induction false} RepeatedClicksAsWritten(cats: seq<Category>, id: string, loc: Loc, n: nat)
    requires Locate(cats, id) == Some(loc)
    requires cats[loc.col].clues[loc.row].showing == Null
    requires n >= 1
    ensures Clicks(cats, id, Advance, n) ==
      [ShowQuestion(id[..2], cats[loc.col].clues[loc.row].question)] +
      Repeat(ShowAnswer(id[..2], cats[loc.col].clues[loc.row].answer), n - 1)
  {
    var board := Click(cats, id, Advance).board;
    ClickHidden(cats, id, loc);
    LocateSameShape(cats, board, id);
    ClicksFromQuestion(board, id, loc, n - 1);
  }

  /**
   * Repeated clicks on a hidden clue with the intended step: the question,
   * then the answer, then nothing on every later click.
   */
  lemma {:induction false} RepeatedClicksIntended(cats: seq<Category>, id: string, loc: Loc, n: nat)
    requires Locate(cats, id) == Some(loc)
    requires cats[loc.col].clues[loc.row].showing == Null
    requires n >= 2
    ensures Clicks(cats, id, AdvanceIntended, n) ==
      [ShowQuestion(id[..2], cats[loc.col].clues[loc.row].question),
       ShowAnswer(id[..2], cats[loc.col].clues[loc.row].answer)] +
      Repeat(NoEffect, n - 2)
  {
    var b1 := Click(cats, id, AdvanceIntended).board;
    LocateSameShape(cats, b1, id);
    ClickQuestionIntended(b1, id, loc);
    var b2 := Click(b1, id, AdvanceIntended).board;
    LocateSameShape(b1, b2, id);
    ClicksFromAnswer(b2, id, loc, n - 2);
  }

  /** Once a clue's `showing` is `'answer'`, the intended step draws nothing on any further click. */
  lemma {:induction false} ClicksFromAnswer(cats: seq<Category>, id: string, loc: Loc, n: nat)
    requires Locate(cats, id) == Some(loc)
    requires cats[loc.col].clues[loc.row].showing == Answer
    ensures Clicks(cats, id, AdvanceIntended, n) == Repeat(NoEffect, n)
    decreases n
  {
    if n > 0 {
      ClickOtherNoEffect(cats, id, loc);
      ClicksFromAnswer(cats, id, loc, n - 1);
    }
  }

  /** The clue a cell id selects depends only on the board's shape. */
  lemma LocateSameShape(a: seq<Category>, b: seq<Category>, id: string)
    requires SameTexts(a, b)
    ensures Locate(a, id) == Locate(b, id)
  {
  }

  /**
   * The game of one category "Math" with the single clue 2+2 = 4: as
   * written, three clicks on cell 11 draw the question, the answer, and the
   * answer again.
   */
  lemma MathBoardAsWritten()
    ensures Clicks([Category("Math", [Clue("2+2", "4", Null)])], "11", Advance, 3) ==
      [ShowQuestion("11", "2+2"), ShowAnswer("11", "4"), ShowAnswer("11", "4")]
  {
    var cats := [Category("Math", [Clue("2+2", "4", Null)])];
    IdRoundTrip(1, 1);
    LocateCell(cats, 1, 1);
    assert "11"[..2] == "11";
    RepeatedClicksAsWritten(cats, "11", Loc(0, 0), 3);
    assert Repeat(ShowAnswer("11", "4"), 2) == [ShowAnswer("11", "4"), ShowAnswer("11", "4")];
  }

  /** The same game with the intended step: question, answer, then nothing. */
  lemma MathBoardIntended()
    ensures Clicks([Category("Math", [Clue("2+2", "4", Null)])], "11", AdvanceIntended, 3) ==
      [ShowQuestion("11", "2+2"), ShowAnswer("11", "4"), NoEffect]
  {
    var cats := [Category("Math", [Clue("2+2", "4", Null)])];
    IdRoundTrip(1, 1);
    LocateCell(cats, 1, 1);
    assert "11"[..2] == "11";
    RepeatedClicksIntended(cats, "11", Loc(0, 0), 3);
    assert Repeat(NoEffect, 1) == [NoEffect];
  }
}
