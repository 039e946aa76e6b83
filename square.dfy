/** One cell of a board: an optional reference to a ship and a fired flag. */
module Squares {
  import opened Grid
  import opened Ships

  /** The status a cell reports, which depends only on whether it holds a ship and
      whether it has been fired on. Each of the two facts can be read back from it. */
  function StatusOf(hasShip: bool, fired: bool): (s: Status)
    ensures (s == Hit || s == Miss) <==> fired
    ensures (s == ShipPresent || s == Hit) <==> hasShip
  {
    if fired then (if hasShip then Hit else Miss)
    else (if hasShip then ShipPresent else Empty)
  }

  class Square {
    var ship: Ship?
    var fired: bool
    // Where the cell sits on its board; only used to tell cells apart in proofs.
    ghost const Row: int
    ghost const Column: int

    constructor (ghost row: int, ghost column: int)
      ensures ship == null && !fired
      ensures Row == row && Column == column
    {
      Row, Column := row, column;
      new;
      Reset();
    }

    method Reset()
      modifies this
      ensures ship == null && !fired
    {
      ship := null;
      fired := false;
    }

    /** Stores the reference unconditionally; overlap is the board's concern. */
    method AddShip(s: Ship)
      modifies this
      ensures ship == s && fired == old(fired)
    {
      ship := s;
    }

    /** HIT or MISS once fired on, SHIP or HIT while holding a ship. */
    function GetStatus(): (s: Status)
      reads this
      ensures (s == Hit || s == Miss) <==> fired
      ensures (s == ShipPresent || s == Hit) <==> ship != null
    {
      StatusOf(ship != null, fired)
    }

    /** Succeeds only on an unfired cell holding a ship that is not yet sunk; it then
        hits that ship once and marks the cell fired. Otherwise nothing changes, so an
        empty cell stays unfired. */
    method Fire() returns (ok: bool)
      modifies this, ship
      ensures ok <==> old(ship) != null && !old(fired) && !old(ship.IsSunk())
      ensures ship == old(ship)
      ensures fired == (old(fired) || ok)
      ensures ok ==> GetStatus() == Hit && ship.hits == AfterHit(old(ship.hits), ship.size)
      ensures !ok && ship != null ==> ship.hits == old(ship.hits)
    {
      if ship != null && !fired && !ship.IsSunk() {
        ship.Hit();
        fired := true;
        return true;
      }
      return false;
    }
  }
}
