/** The 8x8 grid: coordinate characters, compass directions and square statuses.

    The C++ program encodes directions and statuses as the same kind of
    `char` constant, so SOUTH and SHIP are both 'S' and EAST and EMPTY are both
    'E'. Here they are two separate datatypes; the character encodings are kept
    as functions so that the collision can still be stated.
 */
module Grid {

  const Rows: int := 8
  const Columns: int := 8

  datatype Option<T> = None | Some(value: T)

  predicate InGrid(r: int, c: int) {
    0 <= r < Rows && 0 <= c < Columns
  }

  // ---------------------------------------------------------------------------
  // Coordinates. The console collaborator accepts a column letter with
  // 65 <= x < 73 and a row digit with 49 <= y < 57; the board maps them to
  // zero-based indices by subtracting 'A' and '1'.
  // ---------------------------------------------------------------------------

  /** One of the letters labelling the columns of the board. */
  predicate IsColumnLetter(x: char): (b: bool)
    ensures b <==> x in "ABCDEFGH"
  {
    'A' <= x <= 'H'
  }

  /** One of the digits labelling the rows of the board. */
  predicate IsRowDigit(y: char): (b: bool)
    ensures b <==> y in "12345678"
  {
    '1' <= y <= '8'
  }

  function ColumnIndex(x: char): (c: int)
    requires IsColumnLetter(x)
    ensures 0 <= c < Columns
  {
    x as int - 'A' as int
  }

  function RowIndex(y: char): (r: int)
    requires IsRowDigit(y)
    ensures 0 <= r < Rows
  {
    y as int - '1' as int
  }

  /** The letter that names column `c`: the inverse of ColumnIndex. */
  function ColumnLetter(c: int): (x: char)
    requires 0 <= c < Columns
    ensures IsColumnLetter(x) && ColumnIndex(x) == c
  {
    ('A' as int + c) as char
  }

  /** The digit that names row `r`: the inverse of RowIndex. */
  function RowDigit(r: int): (y: char)
    requires 0 <= r < Rows
    ensures IsRowDigit(y) && RowIndex(y) == r
  {
    ('1' as int + r) as char
  }

  /** Every accepted letter and digit names exactly one cell, and back. */
  lemma CoordinatesRoundTrip(x: char, y: char)
    requires IsColumnLetter(x) && IsRowDigit(y)
    ensures InGrid(RowIndex(y), ColumnIndex(x))
    ensures ColumnLetter(ColumnIndex(x)) == x && RowDigit(RowIndex(y)) == y
  {
  }

  // ---------------------------------------------------------------------------
  // Directions
  // ---------------------------------------------------------------------------

  datatype Direction = North | South | East | West

  function DirectionChar(d: Direction): char {
    match d
    case North => 'N'
    case South => 'S'
    case East => 'E'
    case West => 'W'
  }

  /** The direction a placement character selects; None for any other character. */
  function ParseDirection(ch: char): (d: Option<Direction>)
    ensures d.Some? ==> DirectionChar(d.value) == ch
    ensures d.None? <==> forall e: Direction :: DirectionChar(e) != ch
  {
    if ch == 'N' then Some(North)
    else if ch == 'S' then Some(South)
    else if ch == 'E' then Some(East)
    else if ch == 'W' then Some(West)
    else None
  }

  // ---------------------------------------------------------------------------
  // Square statuses
  // ---------------------------------------------------------------------------

  /** EMPTY, SHIP, HIT and MISS of the C++ program. */
  datatype Status = Empty | ShipPresent | Hit | Miss

  function StatusChar(s: Status): char {
    match s
    case Empty => 'E'
    case ShipPresent => 'S'
    case Hit => 'H'
    case Miss => 'M'
  }

  /** The two character encodings overlap, which is why they are separate types here. */
  lemma DirectionAndStatusCharactersCollide()
    ensures DirectionChar(South) == StatusChar(ShipPresent)
    ensures DirectionChar(East) == StatusChar(Empty)
  {
  }

  /** What a cell shows while ships are being placed: its status letter, blank when empty. */
  function PlacementGlyph(s: Status): (g: char)
    ensures g == ' ' <==> s == Empty
    ensures g != ' ' ==> g == StatusChar(s)
  {
    if s == Empty then ' ' else StatusChar(s)
  }

  /** What a cell shows to the attacker: only HIT and MISS, so ships are never revealed. */
  function CombatGlyph(s: Status): (g: char)
    ensures g == ' ' <==> (s == Empty || s == ShipPresent)
    ensures g != StatusChar(ShipPresent)
    ensures g != ' ' ==> g == StatusChar(s)
  {
    match s
    case Hit | Miss => StatusChar(s)
    case Empty | ShipPresent => ' '
  }
}
