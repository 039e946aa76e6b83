# Battleship game state, modelled in Dafny

This project models the game-state core of a two-player console Battleship game written
in C++ (`Battleship.cpp`). It covers the objects the game mutates in place, each as a Dafny
class:

- **Ship** has a type name, a size and a hit counter. The counter is clamped at the size.
  A ship is sunk when the counter equals the size.
- **Square** is one cell. It holds an optional ship reference and a fired flag. Its status
  (EMPTY / SHIP / HIT / MISS) is derived from those two values. Its `Fire` only succeeds on
  an unfired cell that holds a ship that is not yet sunk.
- **Board** holds an 8×8 array of squares, addressed by a column letter `A`–`H` and a row
  digit `1`–`8`. It has:
  - ship placement: direction dispatch, then the bounds rule, then an overlap loop over the
    whole span, then a write loop;
  - the square-state query and the fire primitive;
  - one attempt of the fire loop;
  - board reset.
- **Player** owns one board and the fixed fleet: Carrier 5, Battleship 4, Cruiser 3,
  Submarine 3, Destroyer 2. It has one placement attempt for a fleet ship, firing received
  from the opponent, and the lose test `CheckLost`.

Two pure modules sit beside the classes:

- `Grid`: coordinates, the `Direction` and `Status` datatypes, and the per-cell display glyphs.
- `Placement`: the bounds rule and the geometry of a ship's span.

In the C++ source, directions and statuses share one `char` namespace: SOUTH and SHIP are both
`'S'`, and EAST and EMPTY are both `'E'`. Here they are two datatypes, and
`Grid.DirectionAndStatusCharactersCollide` records the overlap.

`PlaceShip` takes the direction as a character, as the source does. Any character other than
`N`, `S`, `E` or `W` is refused.

The per-direction placement loops are written once: `SpanIsFree` is the overlap loop and
`WriteSpan` is the write loop. Both step through `Placement.SpanCell(d, row, column, k)` for
k = 0, 1, …, which is the order the source's `point` loops visit the cells in.

Behaviour of the code that the model keeps as written:

- **NORTH and WEST are one cell stricter than the span needs.** NORTH refuses
  `row < size` and WEST refuses `column < size`. So a ship whose span would end exactly
  on row 1 or column A is refused, even though it fits. SOUTH and EAST are exact
  (`Placement.BoundsRuleAgainstFit`).
- **Firing at open water changes nothing.** `SetSquareState` ignores the state it is given
  and calls the square's `Fire`, which does nothing on an empty cell. So the cell stays
  EMPTY: the shot is reported as a miss, but the same cell can be fired at again, and each
  shot uses up a turn. No cell ever reports MISS (`Boards.NoCellReportsMiss`).
- **The overlap check only looks for cells reporting SHIP.** A cell reporting HIT can
  receive another ship's reference.
- **A SHIP cell with a sunk ship.** If the same ship is placed twice, it can be sunk while
  some of its cells still report SHIP. A shot at such a cell is reported as a hit and the
  turn advances, but nothing changes.

Two consequences the model keeps as the code has them:

- A Carrier placed from A5 heading NORTH would fit on A1–A5, yet the code refuses it
  (`Placement.CarrierNorthFromA5IsRefused`, `Scenarios.OpenWaterScenario`).
- A shot at an empty square would be expected to turn it into MISS, yet the code leaves it
  EMPTY.

Placing a ship and then firing once at each of its cells sinks it: on a new player's board,
`Scenarios.PlaceAndSink` does this for every fleet ship, start and direction.

Module layout (one file each):

| file | module |
|---|---|
| `grid.dfy` | `Grid` |
| `ship.dfy` | `Ships` |
| `square.dfy` | `Squares` |
| `placement.dfy` | `Placement` |
| `board.dfy` | `Boards` |
| `player.dfy` | `Players` |
| `scenarios.dfy` | `Scenarios`: two short games written against the contracts only |

## Model

| member | source | states |
|---|---|---|
| Grid.IsColumnLetter | Battleship.cpp:135-139 | the column letters accepted are exactly A–H |
| Grid.IsRowDigit | Battleship.cpp:141-145 | the row digits accepted are exactly 1–8 |
| Grid.ColumnIndex | Battleship.cpp:162 | an accepted column letter maps to a column index 0..7 |
| Grid.RowIndex | Battleship.cpp:163 | an accepted row digit maps to a row index 0..7 |
| Grid.ColumnLetter | Battleship.cpp:139 | every column index 0..7 is named by exactly one accepted letter A–H (inverse of ColumnIndex) |
| Grid.RowDigit | Battleship.cpp:145 | every row index 0..7 is named by exactly one accepted digit 1–8 (inverse of RowIndex) |
| Grid.CoordinatesRoundTrip | Battleship.cpp:309-313 | letter/digit to (row, column) and back is the identity, and lands on the grid |
| Grid.ParseDirection | Battleship.cpp:22-25 | 'N','S','E','W' select the four directions; every other character selects none |
| Grid.DirectionAndStatusCharactersCollide | Battleship.cpp:18-25 | SOUTH and SHIP share 'S', EAST and EMPTY share 'E' |
| Grid.PlacementGlyph | Battleship.cpp:286-291 | in the placement view a cell shows blank exactly when EMPTY, otherwise its status letter |
| Grid.CombatGlyph | Battleship.cpp:292-301 | in the combat view a cell shows only HIT/MISS; SHIP and EMPTY are both blank, so no ship is revealed |
| Ships.AfterHit | Battleship.cpp:62-69 | one hit stays within the size, never lowers a valid counter, and adds one exactly when the counter is below the size |
| Ships.HitsAfterIsClamped | Battleship.cpp:62-69 | n hits from a valid counter give min(hits + n, size) |
| Ships.SunkExactlyAfterSizeHits | Battleship.cpp:47-69 | a fresh ship is sunk exactly after `size` or more hits, and stays sunk |
| Ships.Ship.constructor | Battleship.cpp:40-45 | type and size as given, zero hits |
| Ships.Ship.IsSunk | Battleship.cpp:47-50 | on a valid counter, sunk exactly when one more hit would no longer raise it (hits == size) |
| Ships.Ship.Hit | Battleship.cpp:62-69 | the counter becomes AfterHit of the old one; 0 <= hits <= size holds afterwards |
| Squares.StatusOf | Battleship.cpp:99-109 | the status is HIT or MISS exactly when fired, SHIP or HIT exactly when a ship is present: both fields can be read back from it |
| Squares.Square.GetStatus | Battleship.cpp:99-109 | HIT or MISS exactly when the cell is fired on, SHIP or HIT exactly when it holds a ship |
| Squares.Square.constructor | Battleship.cpp:83-86 | a new cell holds no ship and is unfired |
| Squares.Square.Reset | Battleship.cpp:88-92 | clears the ship reference and the fired flag |
| Squares.Square.AddShip | Battleship.cpp:94-97 | stores the ship reference unconditionally, fired flag untouched |
| Squares.Square.Fire | Battleship.cpp:111-121 | succeeds iff a ship is present, the cell is unfired and the ship is not sunk; then the ship takes one hit and the cell turns HIT; otherwise nothing changes (an empty cell stays EMPTY) |
| Placement.BoundsOk | Battleship.cpp:166-245 | NORTH refuses row < size, SOUTH row > 8-size, WEST column < size, EAST column > 8-size; an accepted start always fits, and for SOUTH/EAST acceptance is exactly fitting |
| Placement.SpanSetIsSpan | Battleship.cpp:173-186 | the cells the placement loops visit are exactly the span |
| Placement.SpanHasSizeCells | Battleship.cpp:173-186 | a ship of size n covers exactly n distinct cells |
| Placement.AcceptedSpanStaysOnGrid | Battleship.cpp:166-241 | a placement the bounds rule accepts never leaves the 8×8 grid |
| Placement.BoundsRuleAgainstFit | Battleship.cpp:166-245 | SOUTH/EAST accept exactly the spans that fit; NORTH/WEST additionally refuse the start at index size-1 |
| Placement.CarrierNorthFromA5IsRefused | Battleship.cpp:166-172 | the Carrier from A5 heading NORTH would fit on A1–A5 but is refused |
| Boards.Board.constructor | Battleship.cpp:152-155 | a new board has 64 distinct fresh cells, all empty and unfired |
| Boards.Board.PlaceShip | Battleship.cpp:159-265 | succeeds iff the direction is N/S/E/W, the bounds rule holds and no span cell reports SHIP; on success exactly the span cells now refer to the ship and each unfired one reports SHIP, on failure no cell changes; fired flags never change |
| Boards.Board.SpanIsFree | Battleship.cpp:173-180 | the overlap loop answers true iff no cell of the span reports SHIP |
| Boards.Board.WriteSpan | Battleship.cpp:182-188 | the write loop makes exactly the span cells refer to the ship |
| Boards.Board.GetSquareState | Battleship.cpp:309-314 | the status of the addressed cell reveals whether it is fired and whether it holds a ship |
| Boards.Board.SetSquareState | Battleship.cpp:316-321 | ignores the requested state; the addressed cell is fired on with Square.Fire's effect |
| Boards.Board.FireAtSquare | Battleship.cpp:382-407 | SHIP is reported as hit, EMPTY as miss, HIT/MISS as already fired; a live ship's cell turns HIT and the ship takes one hit; every other attempt (a miss included) changes nothing; no other cell changes; the turn advances by one exactly when the attempt is not refused |
| Boards.Board.ResetBoard | Battleship.cpp:412-422 | every cell loses its ship and fired flag |
| Boards.NoCellReportsMiss | Battleship.cpp:111-121 | on a board where a cell is only fired while it holds a ship (kept by every operation), no cell reports MISS |
| Players.AllSunkIffTotalHits | Battleship.cpp:491-501 | with each counter at most its size, all ships are sunk exactly when the hits add up to the fleet's total size |
| Players.FleetLostAfterSeventeenHits | Battleship.cpp:432-441 | the fleet 5,4,3,3,2 has 17 cells: it is lost on the 17th landed hit, not on the 16th |
| Players.Player.constructor | Battleship.cpp:446-451 | a new player has an empty board and the fleet in the fixed order with zero hits |
| Players.Player.InitShipArray | Battleship.cpp:432-442 | creates five distinct ships Carrier 5, Battleship 4, Cruiser 3, Submarine 3, Destroyer 2 in that order |
| Players.Player.PlaceFleetShip | Battleship.cpp:346-361 | one placement attempt of fleet ship i, with Board.PlaceShip's outcome and effect |
| Players.Player.Fire | Battleship.cpp:476-479 | the outcome and turn of one attempt; the struck live ship gains exactly one hit and no other fleet ship changes; only the target cell's status can change; no ship reference moves |
| Players.Player.CheckLost | Battleship.cpp:491-501 | true iff every one of the five ships is sunk |
| Scenarios.PlaceAndSink | Battleship.cpp:159-265 | on a new player's board, fleet ship i is placed exactly when the direction is known and the bounds rule accepts; one shot at each span cell then sinks the ship, leaves every span cell HIT and every other cell EMPTY, and uses one turn per shot |
| Players.Player.ResetBoard | Battleship.cpp:503-506 | every cell of the player's board is cleared |

## Left out

- Console input and output are not modelled. This covers `GetCoordinates`,
  `DisplayMainMenu`, `GetPlayerName`, `EnterToContinue` and every printed message. The
  coordinate range those prompts enforce becomes a precondition (`IsColumnLetter`,
  `IsRowDigit`).
- The re-prompt loops in `Board::PlaceShip(string, Ship*[])` and `FireAtSquare` are not
  modelled. `Player.PlaceFleetShip` and `Board.FireAtSquare` are single attempts, and a
  refused attempt is simply made again by the caller.
- `DisplayBoard`'s table layout is not modelled. Only the per-cell glyph rule is kept.
- Heap deletion of ships and players is left out, because Dafny has no explicit
  deallocation.
- The `main` menu and game loop are left out. They are orchestration over I/O.
- `Player`'s by-value copy of a `Board` in its constructor is left out. The player builds
  its own fresh board instead.
- The name accessors and `GetShip`, `GetSize` and `GetType` are left out. They are plain
  field reads; `size` and `kind` are constant fields.
- `Ships.Ship`: the size is a `nat`, not a C++ `int`. Negative sizes are never created by
  the program.
- The turn counter is an unbounded `int`. The C++ `int` could only overflow after billions
  of turns.
- `Boards.Board.FireAtSquare` states the struck ship's new counter as `AfterHit` of the old
  one. The board alone does not know that its ships satisfy `hits <= size`. With the player's
  invariant, `Players.Player.Fire` states the exact `+ 1`.
- That each ship's hit counter equals the number of its HIT cells is not stated. It holds
  in normal play but would need counting over the board.
