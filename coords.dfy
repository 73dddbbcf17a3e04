/** Screen coordinates: the optional 180-degree view rotation and the mapping
    from a pixel of the 640x640 board area to a board square. */
module Coordinates {
  import opened Pieces

  /** Board square to drawn square: the rotated view reflects every square
      through the centre of the board (3.5, 3.5). */
  function Rotate(row: Coord, col: Coord, rotated: bool): (sq: (Coord, Coord))
    ensures rotated ==> sq.0 + row == 7 && sq.1 + col == 7
    ensures !rotated ==> sq == (row, col)
  {
    if rotated then (7 - row, 7 - col) else (row, col)
  }

  /** Drawn square to board square: the board square that is drawn at (row, col). */
  function Unrotate(row: Coord, col: Coord, rotated: bool): (sq: (Coord, Coord))
    ensures Rotate(sq.0, sq.1, rotated) == (row, col)
  {
    if rotated then (7 - row, 7 - col) else (row, col)
  }

  /** Rotation is an involution and the two mappings undo each other. */
  lemma RotationRoundTrip(row: Coord, col: Coord, rotated: bool)
    ensures var (r, c) := Rotate(row, col, rotated); Unrotate(r, c, rotated) == (row, col)
    ensures var (r, c) := Unrotate(row, col, rotated); Rotate(r, c, rotated) == (row, col)
    ensures var (r, c) := Rotate(row, col, rotated); Rotate(r, c, rotated) == (row, col)
  {
  }

  /** The board square under pixel (x, y), or None outside the board area;
      a square is 80 pixels wide (640 pixels over 8 columns).
      Python's floor division and Dafny's division agree for the positive divisor. */
  function SquareFromPos(x: int, y: int, rotated: bool): (sq: Option<(Coord, Coord)>)
    ensures sq.Some? <==> 0 <= x < 640 && 0 <= y < 640
    ensures sq.Some? ==>
              var (dr, dc) := Rotate(sq.value.0, sq.value.1, rotated);
              80 * dr <= y < 80 * (dr + 1) &&
              80 * dc <= x < 80 * (dc + 1)
  {
    var col := x / 80;
    var row := y / 80;
    if 0 <= row < 8 && 0 <= col < 8 then Some(Unrotate(row, col, rotated)) else None
  }
}
