/** A player: a name, one board, and the fixed fleet of five ships, with the test for
    having lost. */
module Players {
  import opened Grid
  import opened Ships
  import opened Placement
  import opened Boards

  const ShipCount: int := 5
  const FleetNames: seq<string> := ["Carrier", "Battleship", "Cruiser", "Submarine", "Destroyer"]
  const FleetSizes: seq<nat> := [5, 4, 3, 3, 2]

  function Sum(s: seq<nat>): nat {
    if s == [] then 0 else s[0] + Sum(s[1..])
  }

  /** Every ship's counter has reached its size. */
  predicate AllSunk(hits: seq<nat>, sizes: seq<nat>)
    requires |hits| == |sizes|
  {
    forall i :: 0 <= i < |hits| ==> hits[i] == sizes[i]
  }

  /** With every counter at most its size, all ships are sunk exactly when the hits
      add up to the total size of the fleet. */
  lemma {:induction false} AllSunkIffTotalHits(hits: seq<nat>, sizes: seq<nat>)
    requires |hits| == |sizes|
    requires forall i :: 0 <= i < |hits| ==> hits[i] <= sizes[i]
    ensures Sum(hits) <= Sum(sizes)
    ensures AllSunk(hits, sizes) <==> Sum(hits) == Sum(sizes)
  {
    if hits != [] {
      AllSunkIffTotalHits(hits[1..], sizes[1..]);
      if Sum(hits) == Sum(sizes) {
        forall i | 0 <= i < |hits| ensures hits[i] == sizes[i] {
          if i > 0 {
            assert hits[1..][i - 1] == hits[i] && sizes[1..][i - 1] == sizes[i];
          }
        }
      }
    }
  }

  /** The fleet has 17 cells, so a fleet is lost on its 17th landed hit and not on the 16th. */
  lemma FleetLostAfterSeventeenHits(hits: seq<nat>)
    requires |hits| == ShipCount
    requires forall i :: 0 <= i < ShipCount ==> hits[i] <= FleetSizes[i]
    ensures Sum(FleetSizes) == 17
    ensures AllSunk(hits, FleetSizes) <==> Sum(hits) == 17
    ensures Sum(hits) == 16 ==> !AllSunk(hits, FleetSizes)
  {
    AllSunkIffTotalHits(hits, FleetSizes);
  }

  class Player {
    var name: string
    const board: Board
    const ships: array<Ship?>
    // The ship objects the fleet owns.
    ghost var Fleet: set<Ship>

    ghost predicate Valid()
      reads this, ships, Fleet, board, board.squares, board.Cells
    {
      board.Valid() && board.FiredOnlyOnShips() &&
      ships.Length == ShipCount &&
      (forall i :: 0 <= i < ShipCount ==>
        ships[i] != null && ships[i] in Fleet && ships[i].size == FleetSizes[i]) &&
      (forall i, j :: 0 <= i < j < ShipCount ==> ships[i] != ships[j]) &&
      (forall s :: s in Fleet ==> s.Valid()) &&
      (forall r, c :: InGrid(r, c) && board.squares[r, c].ship != null ==> board.squares[r, c].ship in Fleet)
    }

    /** The hit counters of the fleet, in fleet order. */
    ghost function FleetHits(): (h: seq<nat>)
      requires Valid()
      reads this, ships, Fleet, board, board.squares, board.Cells
    {
      [ships[0].hits, ships[1].hits, ships[2].hits, ships[3].hits, ships[4].hits]
    }

    /** A player starts with an empty board and an unhit fleet. */
    constructor (name: string)
      ensures Valid() && this.name == name
      ensures fresh(board) && fresh(board.squares) && fresh(board.Cells) && fresh(ships) && fresh(Fleet)
      ensures forall i :: 0 <= i < ShipCount ==>
        ships[i].kind == FleetNames[i] && ships[i].size == FleetSizes[i] && ships[i].hits == 0
      ensures forall r, c :: InGrid(r, c) ==> board.squares[r, c].ship == null && !board.squares[r, c].fired
    {
      this.name := name;
      board := new Board();
      ships := new Ship?[ShipCount];
      Fleet := {};
      new;
      InitShipArray();
    }

    /** Creates the five ships in the fixed order and sizes. */
    method InitShipArray()
      requires ships.Length == ShipCount
      modifies ships, this`Fleet
      ensures fresh(Fleet)
      ensures forall s :: s in Fleet ==> exists i :: 0 <= i < ShipCount && ships[i] == s
      ensures forall i :: 0 <= i < ShipCount ==>
        ships[i] != null && ships[i] in Fleet && ships[i].kind == FleetNames[i] && ships[i].size == FleetSizes[i] && ships[i].hits == 0
      ensures forall i, j :: 0 <= i < j < ShipCount ==> ships[i] != ships[j]
    {
      Fleet := {};
      var i := 0;
      while i < ShipCount
        invariant 0 <= i <= ShipCount
        invariant fresh(Fleet)
        invariant forall j :: 0 <= j < i ==>
          ships[j] != null && ships[j] in Fleet &&
          ships[j].kind == FleetNames[j] && ships[j].size == FleetSizes[j] && ships[j].hits == 0
        invariant forall s :: s in Fleet ==> exists j :: 0 <= j < i && ships[j] == s
        invariant forall j, k :: 0 <= j < k < i ==> ships[j] != ships[k]
      {
        var ship := new Ship(FleetNames[i], FleetSizes[i]);
        ships[i] := ship;
        Fleet := Fleet + {ship};
        i := i + 1;
      }
    }

    /** One placement attempt of fleet ship `i`, as the setup loop makes it. */
    method PlaceFleetShip(i: int, x: char, y: char, direction: char) returns (ok: bool)
      requires Valid() && 0 <= i < ShipCount && IsColumnLetter(x) && IsRowDigit(y)
      modifies board.Cells
      ensures Valid()
      ensures ok <==>
        ParseDirection(direction).Some? &&
        BoundsOk(ParseDirection(direction).value, RowIndex(y), ColumnIndex(x), FleetSizes[i]) &&
        old(board.SpanFree(ParseDirection(direction).value, RowIndex(y), ColumnIndex(x), FleetSizes[i]))
      ensures forall r, c :: InGrid(r, c) ==>
        board.squares[r, c].fired == old(board.squares[r, c].fired) &&
        board.squares[r, c].ship ==
          if ok && InSpan(ParseDirection(direction).value, RowIndex(y), ColumnIndex(x), FleetSizes[i], r, c)
          then ships[i] else old(board.squares[r, c].ship)
    {
      ok := board.PlaceShip(x, y, direction, ships[i]);
    }

    /** One attempt by the opponent to fire at (x, y) on this player's board. A live
        ship there takes exactly one hit; no other ship of the fleet changes. */
    method Fire(turn: int, x: char, y: char) returns (result: FireResult, nextTurn: int)
      requires Valid() && IsColumnLetter(x) && IsRowDigit(y)
      modifies board.Cells, Fleet
      ensures Valid()
      ensures result == match old(board.StatusAt(RowIndex(y), ColumnIndex(x)))
        case ShipPresent => ReportedHit
        case Empty => ReportedMiss
        case _ => AlreadyFired
      ensures nextTurn == if result == AlreadyFired then turn else turn + 1
      ensures board.StatusAt(RowIndex(y), ColumnIndex(x)) ==
        if old(board.StatusAt(RowIndex(y), ColumnIndex(x))) == ShipPresent && !old(board.At(x, y).ship.IsSunk())
        then Hit else old(board.StatusAt(RowIndex(y), ColumnIndex(x)))
      ensures forall r, c :: InGrid(r, c) && (r, c) != (RowIndex(y), ColumnIndex(x)) ==>
        board.StatusAt(r, c) == old(board.StatusAt(r, c))
      ensures forall r, c :: InGrid(r, c) ==> board.squares[r, c].ship == old(board.squares[r, c].ship)
      ensures forall i :: 0 <= i < ShipCount ==>
        ships[i].hits ==
          if ships[i] == old(board.At(x, y).ship) && old(board.StatusAt(RowIndex(y), ColumnIndex(x))) == ShipPresent
             && !old(ships[i].IsSunk())
          then old(ships[i].hits) + 1 else old(ships[i].hits)
    {
      result, nextTurn := board.FireAtSquare(x, y, turn);
    }

    /** True exactly when every ship of the fleet is sunk. */
    method CheckLost() returns (lost: bool)
      requires Valid()
      ensures lost <==> forall i :: 0 <= i < ShipCount ==> ships[i].IsSunk()
      ensures lost <==> AllSunk(FleetHits(), FleetSizes)
    {
      var i := 0;
      while i < ShipCount
        invariant 0 <= i <= ShipCount
        invariant forall j :: 0 <= j < i ==> ships[j].IsSunk()
      {
        if !ships[i].IsSunk() {
          return false;
        }
        i := i + 1;
      }
      return true;
    }

    method ResetBoard()
      requires Valid()
      modifies board.Cells
      ensures Valid()
      ensures forall r, c :: InGrid(r, c) ==> board.squares[r, c].ship == null && !board.squares[r, c].fired
    {
      board.ResetBoard();
    }
  }
}
