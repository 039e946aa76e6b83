/** Ship placement geometry: the bounds rule the board applies and the span of cells
    a ship covers. Cells are (row, column) pairs of zero-based indices. */
module Placement {
  import opened Grid

  /** The bounds rule as the board checks it before placing a ship of `size` cells.
      NORTH and WEST refuse a start index below `size`, one more than the span
      needs; SOUTH and EAST are exact. */
  predicate BoundsOk(d: Direction, row: int, column: int, size: int): (ok: bool)
    ensures ok ==> SpanFits(d, row, column, size)
    ensures d == South || d == East ==> (ok <==> SpanFits(d, row, column, size))
  {
    match d
    case North => !(row < size)
    case South => !(row > Rows - size)
    case West => !(column < size)
    case East => !(column > Columns - size)
  }

  /** Whether the whole span lies on the grid: what the bounds rule is meant to check. */
  predicate SpanFits(d: Direction, row: int, column: int, size: int) {
    match d
    case North => row - size + 1 >= 0
    case South => row + size - 1 < Rows
    case West => column - size + 1 >= 0
    case East => column + size - 1 < Columns
  }

  /** The k-th cell the placement loops visit, starting from the given cell (k = 0). */
  function SpanCell(d: Direction, row: int, column: int, k: int): (int, int) {
    match d
    case North => (row - k, column)
    case South => (row + k, column)
    case West => (row, column - k)
    case East => (row, column + k)
  }

  /** Whether cell (r, c) is one of the first `n` cells of the span. */
  predicate InSpan(d: Direction, row: int, column: int, n: int, r: int, c: int) {
    match d
    case North => c == column && row - n < r <= row
    case South => c == column && row <= r < row + n
    case West => r == row && column - n < c <= column
    case East => r == row && column <= c < column + n
  }

  /** The set of the first `n` cells the placement loops visit. */
  function SpanSet(d: Direction, row: int, column: int, n: nat): set<(int, int)> {
    set k | 0 <= k < n :: SpanCell(d, row, column, k)
  }

  /** Taking one more step of a placement loop adds exactly the next cell. */
  lemma SpanGrowsByOneCell(d: Direction, row: int, column: int, k: nat)
    ensures forall r, c :: InSpan(d, row, column, k + 1, r, c) <==>
      InSpan(d, row, column, k, r, c) || (r, c) == SpanCell(d, row, column, k)
    ensures !InSpan(d, row, column, k, SpanCell(d, row, column, k).0, SpanCell(d, row, column, k).1)
  {
  }

  /** How many steps the placement loops take from the start to reach (r, c). */
  function SpanIndex(d: Direction, row: int, column: int, r: int, c: int): int {
    match d
    case North => row - r
    case South => r - row
    case West => column - c
    case East => c - column
  }

  /** Every cell of the span is reached by the loops, at its own step. */
  lemma SpanCellAtIndex(d: Direction, row: int, column: int, n: int, r: int, c: int)
    requires InSpan(d, row, column, n, r, c)
    ensures 0 <= SpanIndex(d, row, column, r, c) < n
    ensures SpanCell(d, row, column, SpanIndex(d, row, column, r, c)) == (r, c)
  {
  }

  /** The cells the loops visit are exactly the span. */
  lemma SpanSetIsSpan(d: Direction, row: int, column: int, n: nat)
    ensures forall r, c :: (r, c) in SpanSet(d, row, column, n) <==> InSpan(d, row, column, n, r, c)
  {
    forall r, c | InSpan(d, row, column, n, r, c)
      ensures (r, c) in SpanSet(d, row, column, n)
    {
      SpanCellAtIndex(d, row, column, n, r, c);
    }
  }

  /** A ship of size `n` covers exactly `n` distinct cells. */
  lemma {:induction false} SpanHasSizeCells(d: Direction, row: int, column: int, n: nat)
    ensures |SpanSet(d, row, column, n)| == n
  {
    if n > 0 {
      SpanHasSizeCells(d, row, column, n - 1);
      var next := SpanCell(d, row, column, n - 1);
      SpanSetIsSpan(d, row, column, n - 1);
      SpanGrowsByOneCell(d, row, column, n - 1);
      assert next !in SpanSet(d, row, column, n - 1);
      assert SpanSet(d, row, column, n) == SpanSet(d, row, column, n - 1) + {next};
    } else {
      assert SpanSet(d, row, column, n) == {};
    }
  }

  /** A placement the bounds rule accepts never leaves the grid. */
  lemma AcceptedSpanStaysOnGrid(d: Direction, row: int, column: int, size: nat)
    requires InGrid(row, column) && BoundsOk(d, row, column, size)
    ensures SpanFits(d, row, column, size)
    ensures forall r, c :: InSpan(d, row, column, size, r, c) ==> InGrid(r, c)
  {
  }

  /** SOUTH and EAST accept exactly the spans that fit; NORTH and WEST also refuse
      the one start that would reach index 0 exactly. */
  lemma BoundsRuleAgainstFit(d: Direction, row: int, column: int, size: nat)
    requires InGrid(row, column) && size >= 1
    ensures d == South || d == East ==> (BoundsOk(d, row, column, size) <==> SpanFits(d, row, column, size))
    ensures d == North ==> (BoundsOk(d, row, column, size) <==> SpanFits(d, row, column, size) && row != size - 1)
    ensures d == West ==> (BoundsOk(d, row, column, size) <==> SpanFits(d, row, column, size) && column != size - 1)
  {
  }

  /** The Carrier (size 5) started at A5 heading NORTH would cover A1..A5, yet it is refused. */
  lemma CarrierNorthFromA5IsRefused()
    ensures SpanFits(North, RowIndex('5'), ColumnIndex('A'), 5)
    ensures !BoundsOk(North, RowIndex('5'), ColumnIndex('A'), 5)
  {
  }
}
