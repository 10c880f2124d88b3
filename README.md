# Jeopardy board: a Dafny model

This project models the game logic of `jeopardy.js`, a browser trivia board.
The global `categories` array holds one `{title, clues}` category per column.
Each clue is `{question, answer, showing}`. The model covers:

- **The board** (`BoardModel`). `Showing` stands for JavaScript `null`, `'question'` and `'answer'`. Clues and categories are values.
- **Cell ids** (`CellIds`). `fillTable` gives the cell in row `i` and column `j` the id `${i}${j}`. `handleClick` reads that id back as the two characters `id[0]` and `id[1]`.
- **The click step** (`Clicking`). A click decodes the id and looks up `categories[col - 1].clues[row - 1]`. It then advances that clue's `showing` and says what is drawn into the cell. A lookup that misses throws the `TypeError` JavaScript raises on `undefined.clues` or `undefined.showing`, and nothing changes. The step is a parameter. `Advance` is the step as written. `AdvanceIntended` is the step the comment at line 185 describes.
- **Sampling** (`Sampling`). `_.sampleSize(xs, n)` is modelled by the list of positions it picks. These are `min(n, |xs|)` distinct positions, given as an input.
- **Board construction** (`Fetching`). This covers `getCategoryIds`, `getCategory`, and the population loop of `setupAndStart`. The trivia service's answers are inputs (`Api`). A rejected request is `None`.
- **The game** (`Jeopardy.Game`). A class whose field `categories` is the global array. Its methods are `SetupAndStart`, `HandleClick` (as written) and `HandleClickIntended`.

The model keeps these behaviours of the code, which a reader might not expect:

- `showing` never becomes `'answer'`, because line 187 compares instead of assigning.
- Sampling returns fewer items when fewer exist. It does not fail.
- A category may have fewer than five clues.
- A failed fetch halfway through setup leaves the board partly rebuilt.
- Clicks are addressed by 1-based id strings, not 0-based coordinates.
- A click that misses the board throws a `TypeError`. It does not fail silently.

## Model

| member | source | states |
|---|---|---|
| `CellIds.Decimal` | jeopardy.js:155 | Interpolating a number writes its decimal digits. The text is one character exactly when the number is below 10. |
| `CellIds.EncodeId` | jeopardy.js:155-160 | The id `${row}${col}` is at least two characters long, exactly two when both numbers are below 10, and then it is the two digit characters. `IdRoundTrip` and `TwoDigitRowMisread` relate it to `DecodeId`. |
| `CellIds.DigitValue` | jeopardy.js:176-177 | A character read from the id gives a usable number only when it is a digit `'0'`..`'9'`, and the number is that digit's value. Any other single character gives NaN, or 0 for white space, and the lookup then fails. |
| `CellIds.DecodeId` | jeopardy.js:176-177 | `id[0]` and `id[1]` are read as a row and a column digit. The read fails when the id is shorter than two characters or either character is not a digit. The digits decoded are the ones the id holds. |
| `CellIds.IdRoundTrip` | jeopardy.js:152-177 | For `1 <= row, col <= 9`, the id is the two digits of row and column, and reading it back gives `(row, col)` again. |
| `CellIds.TwoDigitRowMisread` | jeopardy.js:152-177 | A tenth row would be misread: the id of row 10, column `j` reads back as row 1, column 0. |
| `CellIds.FillTable` | jeopardy.js:152-162 | `fillTable(n)` writes `n` rows of six cells each, whatever the number of categories. The cell in row `i`, column `j` has id `${i}${j}`. |
| `BoardModel.Advance` | jeopardy.js:180-191 | The step as written: `showing` never moves backwards, it is `'answer'` afterwards only if it was before (line 187 stores nothing), and something is drawn exactly when it was not `'answer'`. `ClickQuestionAsWritten`, `ClickNeverAnswers` and `RepeatedClicksAsWritten` carry its effect on the board. |
| `BoardModel.AdvanceIntended` | jeopardy.js:185-190 | The step as line 185's comment describes it: every state but `'answer'` moves one step forward, `'answer'` stays, and something is drawn exactly when it was not `'answer'`. `ClickQuestionIntended`, `RepeatedClicksIntended` and `ClicksFromAnswer` carry its effect on the board. |
| `Clicking.Click` | jeopardy.js:176-191 | One click keeps every title and text. It throws exactly when the id's lookup misses, and then leaves the board as it was. Otherwise the new board is the old one with only the selected clue's `showing` set to the step's next state. `ClickFrame`, `ClickHidden` and `ClickMonotone` give its properties clue by clue. |
| `Clicking.Locate` | jeopardy.js:176-180 | A located clue exists on the board, its id has at least two characters, and the id decodes to that clue's row + 1 and column + 1. |
| `Clicking.SetShowing` | jeopardy.js:181 | Storing a `showing` value changes only the `showing` of that one clue. Titles, texts and every other clue are unchanged. |
| `Clicking.LocateCell` | jeopardy.js:176-180 | The cell `${row}${col}` selects `categories[col - 1].clues[row - 1]` exactly when that clue exists. Otherwise the click throws: the column has no category, or the category has fewer than `row` clues. |
| `Clicking.ClickFrame` | jeopardy.js:169-192 | A click changes at most the `showing` field of the one clue its id selects. Titles, all texts and all other clues are unchanged. A click throws exactly when the lookup misses, and then changes nothing. |
| `Clicking.LocateSameShape` | jeopardy.js:176-180 | The clue an id selects depends only on the board's shape, so clicks never change where an id points. |
| `Clicking.ClickHidden` | jeopardy.js:180-183 | Clicking a clue whose `showing` is `null` sets it to `'question'` and draws that clue's question into the clicked cell. |
| `Clicking.ClickQuestionAsWritten` | jeopardy.js:186-190 | Clicking a clue whose `showing` is `'question'` draws its answer and leaves the whole board unchanged: `showing` stays `'question'`. |
| `Clicking.ClickOtherNoEffect` | jeopardy.js:180-191 | A clue whose `showing` is neither `null` nor `'question'` is neither changed nor drawn, with either step. |
| `Clicking.ClickMonotone` | jeopardy.js:180-191 | `showing` only moves forward (`null`, then `'question'`, then `'answer'`). No click returns any clue to an earlier state. |
| `Clicking.ClickNeverAnswers` | jeopardy.js:187 | As written, a board with no `'answer'` clue never gets one from a click. |
| `Clicking.ClickQuestionIntended` | jeopardy.js:185-190 | With the intended step, clicking a clue showing its question stores `'answer'` in that clue only, and draws the answer. |
| `Clicking.ClicksFromQuestion` | jeopardy.js:186-190 | As written, once a clue shows its question, every one of `n` further clicks draws its answer. |
| `Clicking.RepeatedClicksAsWritten` | jeopardy.js:180-191 | As written, `n` clicks on a hidden clue draw its question once, then its answer on every later click. |
| `Clicking.RepeatedClicksIntended` | jeopardy.js:185-191 | With the intended step, `n >= 2` clicks on a hidden clue draw its question, then its answer, then nothing. |
| `Clicking.ClicksFromAnswer` | jeopardy.js:180-191 | With the intended step, once a clue shows its answer no further click draws anything. |
| `Clicking.MathBoardAsWritten` | jeopardy.js:180-191 | Take one category "Math" with the clue 2+2 = 4. As written, three clicks on cell `11` draw "2+2", then "4", then "4" again. |
| `Clicking.MathBoardIntended` | jeopardy.js:185-191 | On the same board with the intended step, three clicks draw "2+2", then "4", then nothing. |
| `Sampling.Sample` | jeopardy.js:101 | A sample has one element per picked position, and element `k` is the input element at position `picks[k]`. |
| `Sampling.SampleFromInput` | jeopardy.js:111 | Elements taken from distinct positions form a sub-multiset of the input: nothing is invented and nothing is taken more often than it occurs. |
| `Sampling.SampleDistinct` | jeopardy.js:93-102 | A sample of a list without repeats has no repeats. So distinct listing ids give distinct category ids. |
| `Fetching.IdsOf` | jeopardy.js:97-100 | `allIDs` has one entry per listing element, in response order, and entry `k` is the `id` of element `k`. |
| `Fetching.NewClue` | jeopardy.js:115-119 | A new clue copies the record's question and answer, with `showing: null`. |
| `Fetching.FetchCategory` | jeopardy.js:106-127 | `getCategory` succeeds exactly when both requests succeed. It then gives the `category` record's title and one new hidden clue per sampled record, in sample order. |
| `Fetching.GetCategoryIds` | jeopardy.js:94-103 | `getCategoryIds(num)` fails exactly when the listing request fails. Otherwise it returns `min(num, listing length)` ids. These are the sample of `allIDs`, a sub-multiset of the listing's ids, and distinct when the listing's ids are. |
| `Fetching.GetCategory` | jeopardy.js:106-127 | The loop builds the category `FetchCategory` describes. It has `min(5, available)` clues, at most five, and all are hidden. |
| `Fetching.Populate` | jeopardy.js:57-60 | The push loop, one id after another until a fetch throws. It pushes at most one category per id, and it completes exactly when it pushed one for every id. `PopulateOrder`, `PopulateFresh` and `PopulateStops` say which categories they are. |
| `Fetching.PopulateOrder` | jeopardy.js:57-60 | Category `k` of the loop's result is the category fetched for id `k`. The loop completes exactly when one category is pushed per id. Otherwise it stops right before the first id whose fetch failed. |
| `Fetching.PopulateFresh` | jeopardy.js:55-60 | Every pushed category is new. Its fetch succeeded, its title is the service's, it has `min(5, available)` (at most five) clues, and all are hidden, none `'answer'`. |
| `Fetching.PopulateStops` | jeopardy.js:57-60 | After a failed fetch, the later ids add nothing to the board. |
| `Jeopardy.SetupBoard` | jeopardy.js:53-60 | A complete setup builds one category per drawn id, in id order: six, or every id of a shorter listing. Each has at most five clues, all hidden. |
| `Jeopardy.GridTargets` | jeopardy.js:152-180 | Each cell of the five-row table selects the clue of its own row and column when clicked. It throws when the board has no clue there. |
| `Jeopardy.Game.constructor` | jeopardy.js:21 | The board starts empty. |
| `Jeopardy.Game.SetupAndStart` | jeopardy.js:53-64 | The board is emptied first. If the listing request fails, the board stays empty and no table is built. Otherwise the board is exactly what the population loop pushed for the sampled ids, in id order. A five-row table of cell ids is built exactly when every fetch succeeded. |
| `Jeopardy.Game.PushCategories` | jeopardy.js:57-60 | The population loop. Starting from the emptied board, it leaves exactly the categories `Fetching.Populate` describes: the fetched category of each id in order, up to the first failing fetch. It reports whether every fetch succeeded. |
| `Jeopardy.Game.HandleClick` | jeopardy.js:169-192 | The new board and what the click draws are those of `Clicking.Click` with the step as written: from `'question'` the answer is drawn and nothing is stored. |
| `Jeopardy.Game.HandleClickIntended` | jeopardy.js:185-190 | The same with the intended step, which stores `'answer'`. |

## Left out

- DOM work is not modelled: building the table and its header (`cat${i}` ids, titles), `$cell.html`, CSS classes, and the loading view. The cell-id grid is what the model keeps of `fillTable`.
- The event target adjustment (`tagName`/`parentNode`) is not modelled. `handleClick` is given the id of the clicked `td` directly.
- The HTTP transport and the `count: 100` parameter are not modelled. The service's answers are inputs, whatever their length. A rejected request is `None`, without the kind of error.
- The randomness of `_.sampleSize` is not modelled. Its picks are inputs, constrained only by the length and distinctness that the library promises.
- `async`/`await` scheduling and the event-listener wiring are not modelled. Setup runs as one sequential call.
- Object identity of clue objects is not modelled. The source never shares a clue object between two places, so a value model loses nothing observable.
- JSON fields other than `id`, `title`, `question` and `answer` are not modelled. Answers are taken as strings.
- `console.log` is not modelled.

## Findings

| source | as written | input that shows it | evidently intended | confidence | as-written member | corrected member |
|---|---|---|---|---|---|---|
| jeopardy.js:187 | `showing === 'answer'` compares and stores nothing, so `showing` stays `'question'` | Board with category "Math" and one clue 2+2 = 4. Clicking cell `11` three times draws "2+2", "4", "4" | Store `'answer'` (line 185's comment), so that the third click draws nothing | not executed | `Clicking.RepeatedClicksAsWritten` | `Clicking.RepeatedClicksIntended` |

`Clicking.MathBoardAsWritten` and `Clicking.MathBoardIntended` state the concrete input.
`Jeopardy.Game.HandleClick` keeps the source's behaviour. `Jeopardy.Game.HandleClickIntended` is the corrected handler.
