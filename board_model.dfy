/**
 * The board of jeopardy.js: the global `categories` array holds one
 * `{title, clues}` object per column, and each clue is
 * `{question, answer, showing}`.
 */
module BoardModel {

  /** The `showing` field of a clue: JavaScript `null`, `'question'` or `'answer'`. */
  datatype Showing = Null | Question | Answer

  datatype Clue = Clue(question: string, answer: string, showing: Showing)

  /** One column of the board; `clues[r]` is shown in row `r + 1`. */
  datatype Category = Category(title: string, clues: seq<Clue>)

  /** What a click draws into the clicked cell. */
  datatype Face = QuestionText | AnswerText | Nothing

  /** The new `showing` value of the clicked clue and what is drawn. */
  datatype Transition = Transition(next: Showing, face: Face)

  /**
   * The reveal step of `handleClick` as the source has it: `null` becomes
   * `'question'` and the question is drawn; from `'question'` the answer is
   * drawn but `showing` keeps its value, because the statement meant to
   * store `'answer'` is a comparison; any other value does nothing.
   */
  function Advance(s: Showing): (t: Transition)
    ensures Rank(s) <= Rank(t.next)
    ensures t.next == Answer <==> s == Answer
    ensures t.face == Nothing <==> s == Answer
  {
    match s
    case Null => Transition(Question, QuestionText)
    case Question => Transition(Question, AnswerText)
    case Answer => Transition(Answer, Nothing)
  }

  /** The reveal step the comment above that statement describes: `'question'` becomes `'answer'`. */
  function AdvanceIntended(s: Showing): (t: Transition)
    ensures s != Answer ==> Rank(t.next) == Rank(s) + 1
    ensures s == Answer ==> t.next == Answer
    ensures t.face == Nothing <==> s == Answer
  {
    match s
    case Null => Transition(Question, QuestionText)
    case Question => Transition(Answer, AnswerText)
    case Answer => Transition(Answer, Nothing)
  }

  /** Position of a reveal state in the order hidden, question, answer. */
  function Rank(s: Showing): nat
  {
    match s
    case Null => 0
    case Question => 1
    case Answer => 2
  }

  /** Every clue of the board is still hidden, as a freshly built board is. */
  predicate AllHidden(cats: seq<Category>)
  {
    forall c, r :: 0 <= c < |cats| && 0 <= r < |cats[c].clues| ==> cats[c].clues[r].showing == Null
  }

  /** No clue of the board has `showing == 'answer'`. */
  predicate NoneAnswered(cats: seq<Category>)
  {
    forall c, r :: 0 <= c < |cats| && 0 <= r < |cats[c].clues| ==> cats[c].clues[r].showing != Answer
  }

  /** Same columns, same number of clues per column, same titles and same texts. */
  predicate SameTexts(a: seq<Category>, b: seq<Category>)
  {
    |a| == |b| &&
    (forall c :: 0 <= c < |a| ==> a[c].title == b[c].title && |a[c].clues| == |b[c].clues|) &&
    (forall c, r :: 0 <= c < |a| && 0 <= r < |a[c].clues| ==>
      a[c].clues[r].question == b[c].clues[r].question && a[c].clues[r].answer == b[c].clues[r].answer)
  }
}
