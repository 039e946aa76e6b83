/** Clients of the model: short games against a single defender, written only
    against the contracts of Player and Board. */
module Scenarios {
  import opened Grid
  import opened Placement
  import opened Boards
  import opened Players

  /** Place the Destroyer on A1-A2, sink it with two shots, and see a repeated shot
      refused without using up the turn. */
  method SinkDestroyerScenario() {
    var p := new Player("defender");

    var placed := p.PlaceFleetShip(4, 'A', '1', 'S');
    assert placed;
    assert p.board.StatusAt(0, 0) == ShipPresent && p.board.StatusAt(1, 0) == ShipPresent;

    var first, turn1 := p.Fire(1, 'A', '1');
    assert first == ReportedHit && turn1 == 2 && p.ships[4].hits == 1;

    var second, turn2 := p.Fire(turn1, 'A', '2');
    assert second == ReportedHit && turn2 == 3 && p.ships[4].hits == 2 == FleetSizes[4];
    assert p.ships[4].IsSunk();

    var again, turn3 := p.Fire(turn2, 'A', '1');
    assert again == AlreadyFired && turn3 == turn2;

    var lost := p.CheckLost();
    assert !lost;
  }

  /** The Carrier is refused at A5 heading NORTH although A1-A5 would fit, and a shot
      on open water is reported as a miss but leaves the square EMPTY, so the same
      shot is resolved again and uses up another turn. */
  method OpenWaterScenario() {
    var p := new Player("defender");

    var carrierFits := p.PlaceFleetShip(0, 'A', '5', 'N');
    assert !carrierFits;

    var water, turn1 := p.Fire(1, 'H', '8');
    assert water == ReportedMiss && turn1 == 2;
    assert p.board.StatusAt(7, 7) == Empty;

    var waterAgain, turn2 := p.Fire(turn1, 'H', '8');
    assert waterAgain == ReportedMiss && turn2 == 3;
  }
  /** On a new player's board, fleet ship `i` placed from (x, y) in the given direction
      succeeds exactly when the direction is known and the bounds rule accepts the start.
      Firing once at each cell of its span, in the order the placement loops visit them,
      sinks it: every shot is reported as a hit, every span cell reports HIT and every
      other cell is still EMPTY. */
  method PlaceAndSink(i: int, x: char, y: char, direction: char)
    returns (p: Player, placed: bool, turn: int)
    requires 0 <= i < ShipCount && IsColumnLetter(x) && IsRowDigit(y)
    ensures fresh(p) && p.Valid()
    ensures placed <==>
      ParseDirection(direction).Some? &&
      BoundsOk(ParseDirection(direction).value, RowIndex(y), ColumnIndex(x), FleetSizes[i])
    ensures placed ==> p.ships[i].IsSunk() && turn == 1 + FleetSizes[i]
    ensures placed ==> forall r, c :: InGrid(r, c) ==>
      p.board.StatusAt(r, c) ==
        if InSpan(ParseDirection(direction).value, RowIndex(y), ColumnIndex(x), FleetSizes[i], r, c)
        then Hit else Empty
  {
    p := new Player("defender");
    turn := 1;
    placed := p.PlaceFleetShip(i, x, y, direction);
    if !placed {
      return;
    }
    var d, row, column, size := ParseDirection(direction).value, RowIndex(y), ColumnIndex(x), FleetSizes[i];
    AcceptedSpanStaysOnGrid(d, row, column, size);
    var k := 0;
    while k < size
      invariant 0 <= k <= size
      invariant p.Valid() && turn == 1 + k
      invariant fresh(p.board.Cells) && fresh(p.Fleet)
      invariant p.ships[i].hits == k
      invariant forall r, c :: InGrid(r, c) ==>
        p.board.squares[r, c].ship == if InSpan(d, row, column, size, r, c) then p.ships[i] else null
      invariant forall r, c :: InGrid(r, c) ==>
        p.board.StatusAt(r, c) ==
          if InSpan(d, row, column, k, r, c) then Hit
          else if InSpan(d, row, column, size, r, c) then ShipPresent
          else Empty
    {
      SpanGrowsByOneCell(d, row, column, k);
      var (r, c) := SpanCell(d, row, column, k);
      assert InSpan(d, row, column, size, r, c);
      var result;
      result, turn := p.Fire(turn, ColumnLetter(c), RowDigit(r));
      assert result == ReportedHit;
      k := k + 1;
    }
  }
}
