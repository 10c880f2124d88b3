/**
 * The cell ids of the game table. `fillTable` gives the cell in row `i`
 * and column `j` (both counted from 1) the id `${i}${j}`; `handleClick`
 * reads the two coordinates back as the characters `id[0]` and `id[1]`.
 */
module CellIds {
  import opened Wrappers

  /** Number of columns `fillTable` writes per row, whatever the number of categories. */
  const Columns: nat := 6

  function DigitChar(d: nat): char
    requires d < 10
  {
    (48 + d) as char
  }

  /** The decimal text JavaScript produces when a number is interpolated into a template string. */
  function Decimal(n: nat): (s: string)
    ensures |s| >= 1
    ensures n < 10 <==> |s| == 1
    decreases n
  {
    if n < 10 then [DigitChar(n)] else Decimal(n / 10) + [DigitChar(n % 10)]
  }

  /** The id `${row}${col}` of a table cell. */
  function EncodeId(row: nat, col: nat): (id: string)
    ensures |id| >= 2
    ensures |id| == 2 <==> row < 10 && col < 10
    ensures row < 10 && col < 10 ==> id == [DigitChar(row), DigitChar(col)]
  {
    Decimal(row) + Decimal(col)
  }

  /**
   * The number a one-character string stands for in `x - 1`. Only the ten
   * digits give an index that can be in range: any other single character
   * gives NaN, or 0 for white space, and both make the lookup fail.
   */
  function DigitValue(c: char): (d: Option<nat>)
    ensures d.Some? <==> '0' <= c <= '9'
    ensures d.Some? ==> d.value < 10 && DigitChar(d.value) == c
  {
    if '0' <= c <= '9' then Some(c as int - 48) else None
  }

  /**
   * The pair (`id[0]`, `id[1]`) read as numbers, or None when the id is
   * shorter than two characters or either character is not a digit.
   */
  function DecodeId(id: string): (rc: Option<(nat, nat)>)
    ensures rc.Some? ==> |id| >= 2 && rc.value.0 < 10 && rc.value.1 < 10
    ensures rc.Some? ==> DigitChar(rc.value.0) == id[0] && DigitChar(rc.value.1) == id[1]
  {
    if |id| < 2 then None
    else match (DigitValue(id[0]), DigitValue(id[1]))
      case (Some(r), Some(c)) => Some((r, c))
      case _ => None
  }

  /** Reading a cell id back gives the row and column it was written for, for one-digit coordinates. */
  lemma IdRoundTrip(row: nat, col: nat)
    requires 1 <= row <= 9 && 1 <= col <= 9
    ensures EncodeId(row, col) == [DigitChar(row), DigitChar(col)]
    ensures DecodeId(EncodeId(row, col)) == Some((row, col))
  {
  }

  /** Beyond nine rows the id is misread: row 10 reads back as row 1, column 0. */
  lemma TwoDigitRowMisread(col: nat)
    requires 1 <= col <= 9
    ensures DecodeId(EncodeId(10, col)) == Some((1, 0))
  {
  }

  /** The ids of a table of `rows` rows: row `i` holds `${i}1` to `${i}6`. */
  ghost predicate IsIdGrid(cells: seq<seq<string>>, rows: nat)
  {
    |cells| == rows &&
    (forall i :: 0 <= i < rows ==> |cells[i]| == Columns) &&
    (forall i, j :: 0 <= i < rows && 0 <= j < Columns ==> cells[i][j] == EncodeId(i + 1, j + 1))
  }

  /** The cell ids `fillTable(numQuestions)` puts into the table body, row by row. */
  method FillTable(numQuestions: nat) returns (cells: seq<seq<string>>)
    ensures IsIdGrid(cells, numQuestions)
  {
    cells := [];
    var i := 1;
    while i <= numQuestions
      invariant 1 <= i <= numQuestions + 1
      invariant |cells| == i - 1
      invariant forall k :: 0 <= k < i - 1 ==> |cells[k]| == Columns
      invariant forall k, j :: 0 <= k < i - 1 && 0 <= j < Columns ==> cells[k][j] == EncodeId(k + 1, j + 1)
    {
      var row := [EncodeId(i, 1), EncodeId(i, 2), EncodeId(i, 3), EncodeId(i, 4), EncodeId(i, 5), EncodeId(i, 6)];
      cells := cells + [row];
      i := i + 1;
    }
  }
}
