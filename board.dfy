/** A player's 8x8 board: ship placement with bounds and overlap checks, one fire
    attempt, and reset. */
module Boards {
  import opened Grid
  import opened Ships
  import opened Squares
  import opened Placement

  /** What one fire attempt reports: "HIT!", "MISS!" or "already hit" (to be retried). */
  datatype FireResult = ReportedHit | ReportedMiss | AlreadyFired

  class Board {
    const squares: array2<Square>
    // The 64 cell objects; every mutating method may change these and nothing else.
    ghost const Cells: set<Square>

    ghost predicate Valid()
      reads this, squares
    {
      squares.Length0 == Rows && squares.Length1 == Columns &&
      forall r, c :: InGrid(r, c) ==>
        squares[r, c] in Cells && squares[r, c].Row == r && squares[r, c].Column == c
    }

    /** The cell addressed by a column letter and a row digit. */
    ghost function At(x: char, y: char): Square
      requires Valid() && IsColumnLetter(x) && IsRowDigit(y)
      reads this, squares
    {
      squares[RowIndex(y), ColumnIndex(x)]
    }

    ghost function StatusAt(r: int, c: int): Status
      requires Valid() && InGrid(r, c)
      reads this, squares, Cells
    {
      squares[r, c].GetStatus()
    }

    /** A cell is only ever marked fired while it holds a ship, so no cell reports MISS. */
    ghost predicate FiredOnlyOnShips()
      requires Valid()
      reads this, squares, Cells
    {
      forall r, c :: InGrid(r, c) && squares[r, c].fired ==> squares[r, c].ship != null
    }

    /** No cell among the first `n` of the span reports SHIP. */
    ghost predicate SpanFree(d: Direction, row: int, column: int, n: int)
      requires Valid()
      reads this, squares, Cells
    {
      forall r, c :: InGrid(r, c) && InSpan(d, row, column, n, r, c) ==> StatusAt(r, c) != ShipPresent
    }

    /** Builds the 64 cells, then resets every one of them. */
    constructor ()
      ensures Valid() && fresh(squares) && fresh(Cells)
      ensures forall r, c :: InGrid(r, c) ==> squares[r, c].ship == null && !squares[r, c].fired
      ensures FiredOnlyOnShips()
    {
      var filler := new Square(-1, -1);
      var grid := new Square[Rows, Columns]((_, _) => filler);
      ghost var made: set<Square> := {};
      var x := 0;
      while x < Rows
        invariant 0 <= x <= Rows
        invariant fresh(made)
        invariant forall r, c :: 0 <= r < x && 0 <= c < Columns ==>
          grid[r, c] in made && grid[r, c].Row == r && grid[r, c].Column == c
      {
        var y := 0;
        while y < Columns
          invariant 0 <= y <= Columns
          invariant fresh(made)
          invariant forall r, c :: 0 <= r < x && 0 <= c < Columns ==>
            grid[r, c] in made && grid[r, c].Row == r && grid[r, c].Column == c
          invariant forall c :: 0 <= c < y ==>
            grid[x, c] in made && grid[x, c].Row == x && grid[x, c].Column == c
        {
          var square := new Square(x, y);
          grid[x, y] := square;
          made := made + {square};
          y := y + 1;
        }
        x := x + 1;
      }
      squares := grid;
      Cells := made;
      new;
      ResetBoard();
    }

    /** Places `ship` from the cell (x, y) in the direction the character names, or
        refuses. It refuses an unknown direction, a start the bounds rule rejects, and a
        span any of whose cells already reports SHIP; a refusal changes nothing.
        Otherwise every cell of the span refers to `ship` afterwards. */
    method PlaceShip(x: char, y: char, direction: char, ship: Ship) returns (ok: bool)
      requires Valid() && IsColumnLetter(x) && IsRowDigit(y)
      modifies Cells
      ensures Valid()
      ensures ok <==>
        ParseDirection(direction).Some? &&
        BoundsOk(ParseDirection(direction).value, RowIndex(y), ColumnIndex(x), ship.size) &&
        old(SpanFree(ParseDirection(direction).value, RowIndex(y), ColumnIndex(x), ship.size))
      ensures forall r, c :: InGrid(r, c) ==>
        squares[r, c].fired == old(squares[r, c].fired) &&
        squares[r, c].ship ==
          if ok && InSpan(ParseDirection(direction).value, RowIndex(y), ColumnIndex(x), ship.size, r, c)
          then ship else old(squares[r, c].ship)
      // Before any shot has landed there, every cell of a placed span reports SHIP.
      ensures forall r, c ::
        (InGrid(r, c) && ok && !squares[r, c].fired &&
         InSpan(ParseDirection(direction).value, RowIndex(y), ColumnIndex(x), ship.size, r, c)) ==>
        StatusAt(r, c) == ShipPresent
      ensures old(FiredOnlyOnShips()) ==> FiredOnlyOnShips()
    {
      var column := ColumnIndex(x);
      var row := RowIndex(y);
      var parsed := ParseDirection(direction);
      if parsed.None? {
        return false;
      }
      var d := parsed.value;
      if !BoundsOk(d, row, column, ship.size) {
        return false;
      }
      var free := SpanIsFree(d, row, column, ship.size);
      if !free {
        return false;
      }
      WriteSpan(d, row, column, ship);
      return true;
    }

    /** The overlap loop: looks at the span cells in the order the board visits them and
        answers whether none of them reports SHIP. */
    method SpanIsFree(d: Direction, row: int, column: int, size: nat) returns (free: bool)
      requires Valid() && InGrid(row, column) && BoundsOk(d, row, column, size)
      ensures free <==> SpanFree(d, row, column, size)
    {
      AcceptedSpanStaysOnGrid(d, row, column, size);
      var k := 0;
      while k < size
        invariant 0 <= k <= size
        invariant SpanFree(d, row, column, k)
      {
        SpanGrowsByOneCell(d, row, column, k);
        var (r, c) := SpanCell(d, row, column, k);
        assert InSpan(d, row, column, size, r, c);
        if squares[r, c].GetStatus() == ShipPresent {
          return false;
        }
        k := k + 1;
      }
      return true;
    }

    /** The write loop: makes every span cell refer to `ship`, touching no other cell. */
    method WriteSpan(d: Direction, row: int, column: int, ship: Ship)
      requires Valid() && InGrid(row, column) && BoundsOk(d, row, column, ship.size)
      modifies Cells
      ensures Valid()
      ensures forall r, c :: InGrid(r, c) ==>
        squares[r, c].fired == old(squares[r, c].fired) &&
        squares[r, c].ship == if InSpan(d, row, column, ship.size, r, c) then ship else old(squares[r, c].ship)
    {
      AcceptedSpanStaysOnGrid(d, row, column, ship.size);
      var k := 0;
      while k < ship.size
        invariant 0 <= k <= ship.size
        invariant Valid()
        invariant forall r, c :: InGrid(r, c) ==>
          squares[r, c].fired == old(squares[r, c].fired) &&
          squares[r, c].ship == if InSpan(d, row, column, k, r, c) then ship else old(squares[r, c].ship)
      {
        SpanGrowsByOneCell(d, row, column, k);
        var (r, c) := SpanCell(d, row, column, k);
        assert InSpan(d, row, column, ship.size, r, c);
        squares[r, c].AddShip(ship);
        k := k + 1;
      }
    }

    /** The status of the cell (x, y); it tells whether the cell holds a ship and
        whether it has been fired on. */
    function GetSquareState(x: char, y: char): (s: Status)
      requires Valid() && IsColumnLetter(x) && IsRowDigit(y)
      reads this, squares, Cells
      ensures (s == Hit || s == Miss) <==> At(x, y).fired
      ensures (s == ShipPresent || s == Hit) <==> At(x, y).ship != null
    {
      var column := ColumnIndex(x);
      var row := RowIndex(y);
      squares[row, column].GetStatus()
    }

    /** Fires on the cell (x, y), whatever `state` asks for: the request is ignored and
        the cell's own Fire decides. Only an unfired cell holding a ship that is not sunk
        changes: it becomes fired and its ship takes one hit. */
    method SetSquareState(state: Status, x: char, y: char)
      requires Valid() && IsColumnLetter(x) && IsRowDigit(y)
      modifies At(x, y), At(x, y).ship
      ensures Valid()
      ensures At(x, y).ship == old(At(x, y).ship)
      ensures At(x, y).fired ==
        (old(At(x, y).fired) || old(At(x, y).ship != null && !At(x, y).fired && !At(x, y).ship.IsSunk()))
      ensures old(At(x, y).ship != null && !At(x, y).fired && !At(x, y).ship.IsSunk()) ==>
        At(x, y).ship.hits == AfterHit(old(At(x, y).ship.hits), At(x, y).ship.size)
      ensures !old(At(x, y).ship != null && !At(x, y).fired && !At(x, y).ship.IsSunk()) && At(x, y).ship != null ==>
        At(x, y).ship.hits == old(At(x, y).ship.hits)
    {
      var column := ColumnIndex(x);
      var row := RowIndex(y);
      var _ := squares[row, column].Fire();
    }

    /** One attempt of the fire loop. A cell reporting SHIP is reported as a hit and
        fired on; a cell reporting EMPTY is reported as a miss and fired on, which leaves
        it unchanged; a cell already HIT or MISS is refused. The turn advances by one
        exactly when the attempt is not refused. */
    method FireAtSquare(x: char, y: char, turn: int) returns (result: FireResult, nextTurn: int)
      requires Valid() && IsColumnLetter(x) && IsRowDigit(y)
      modifies At(x, y), At(x, y).ship
      ensures Valid()
      ensures result == match old(StatusAt(RowIndex(y), ColumnIndex(x)))
        case ShipPresent => ReportedHit
        case Empty => ReportedMiss
        case _ => AlreadyFired
      ensures nextTurn == if result == AlreadyFired then turn else turn + 1
      ensures At(x, y).ship == old(At(x, y).ship)
      // A live ship is struck: the cell turns HIT and the ship takes one hit.
      ensures old(StatusAt(RowIndex(y), ColumnIndex(x))) == ShipPresent && !old(At(x, y).ship.IsSunk()) ==>
        StatusAt(RowIndex(y), ColumnIndex(x)) == Hit &&
        At(x, y).ship.hits == AfterHit(old(At(x, y).ship.hits), At(x, y).ship.size)
      // Any other attempt, including a miss on open water, leaves the cell and its ship as they were.
      ensures !(old(StatusAt(RowIndex(y), ColumnIndex(x))) == ShipPresent && !old(At(x, y).ship.IsSunk())) ==>
        At(x, y).fired == old(At(x, y).fired) &&
        (At(x, y).ship != null ==> At(x, y).ship.hits == old(At(x, y).ship.hits))
      // No other cell changes.
      ensures forall r, c :: InGrid(r, c) && (r, c) != (RowIndex(y), ColumnIndex(x)) ==>
        squares[r, c].ship == old(squares[r, c].ship) && squares[r, c].fired == old(squares[r, c].fired)
      ensures old(FiredOnlyOnShips()) ==> FiredOnlyOnShips()
    {
      var square := GetSquareState(x, y);
      if square == ShipPresent {
        SetSquareState(Hit, x, y);
        result := ReportedHit;
      } else if square == Empty {
        SetSquareState(Miss, x, y);
        result := ReportedMiss;
      } else {
        result := AlreadyFired;
      }
      nextTurn := turn;
      if result != AlreadyFired {
        nextTurn := turn + 1;
      }
    }

    /** Clears the ship reference and the fired flag of all 64 cells. */
    method ResetBoard()
      requires Valid()
      modifies Cells
      ensures Valid()
      ensures forall r, c :: InGrid(r, c) ==> squares[r, c].ship == null && !squares[r, c].fired
      ensures FiredOnlyOnShips()
    {
      var x := 0;
      while x < Rows
        invariant 0 <= x <= Rows
        invariant Valid()
        invariant forall r, c :: 0 <= r < x && 0 <= c < Columns ==>
          squares[r, c].ship == null && !squares[r, c].fired
      {
        var y := 0;
        while y < Columns
          invariant 0 <= y <= Columns
          invariant Valid()
          invariant forall r, c :: 0 <= r < x && 0 <= c < Columns ==>
            squares[r, c].ship == null && !squares[r, c].fired
          invariant forall c :: 0 <= c < y ==> squares[x, c].ship == null && !squares[x, c].fired
        {
          squares[x, y].Reset();
          y := y + 1;
        }
        x := x + 1;
      }
    }
  }

  /** Whatever has been placed and fired, no cell of a board ever reports MISS. */
  lemma NoCellReportsMiss(b: Board, r: int, c: int)
    requires b.Valid() && b.FiredOnlyOnShips() && InGrid(r, c)
    ensures b.StatusAt(r, c) != Miss
  {
  }
}
