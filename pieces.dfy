/** The board of the game: an 8x8 grid of optional one-letter pieces.
    Upper-case letters are white, lower-case letters black; the letters are
    P pawn, T rook, C knight, A bishop, Q queen, K king.
    Row 0 is black's back rank, row 7 white's. */
module Pieces {

  datatype Option<T> = None | Some(value: T)

  /** A row or column index; the board has 8 rows and 8 columns. */
  type Coord = i: int | 0 <= i < 8

  /** The content of one square: empty, or a piece letter. */
  type Cell = Option<char>

  predicate IsGrid(g: seq<seq<Cell>>) {
    |g| == 8 && forall r :: 0 <= r < 8 ==> |g[r]| == 8
  }

  /** A snapshot of the board as a value. */
  type Board = g: seq<seq<Cell>> | IsGrid(g) witness seq(8, _ => seq(8, _ => None))

  /** `str.isupper` on a one-letter piece: a white piece. */
  predicate IsUpper(p: char) { 'A' <= p <= 'Z' }

  /** `str.islower` on a one-letter piece: a black piece. */
  predicate IsLower(p: char) { 'a' <= p <= 'z' }

  /** `str.upper` on a one-letter piece: the piece kind. */
  function Upper(p: char): (u: char)
    ensures IsLower(p) ==> IsUpper(u) && u as int - 'A' as int == p as int - 'a' as int
    ensures !IsLower(p) ==> u == p
  {
    if IsLower(p) then (p as int - 32) as char else p
  }

  /** Both pieces have the same colour (the same-colour capture guard). */
  predicate SameSide(p: char, q: char) {
    (IsUpper(p) && IsUpper(q)) || (IsLower(p) && IsLower(q))
  }

  /** The piece belongs to the side named by `white`. */
  predicate Owns(white: bool, p: char) {
    if white then IsUpper(p) else IsLower(p)
  }

  /** The board with one square overwritten. */
  function Set(b: Board, r: Coord, c: Coord, x: Cell): (b': Board)
    ensures b'[r][c] == x
    ensures forall i, j :: 0 <= i < 8 && 0 <= j < 8 && (i != r || j != c) ==> b'[i][j] == b[i][j]
  {
    b[r := b[r][c := x]]
  }

  /** The board after moving the origin's content to the destination
      (destination written first, then the origin emptied). */
  function Apply(b: Board, fr: Coord, fc: Coord, tr: Coord, tc: Coord): (b': Board)
    ensures b'[fr][fc] == None
    ensures fr != tr || fc != tc ==> b'[tr][tc] == b[fr][fc]
    ensures forall i, j :: 0 <= i < 8 && 0 <= j < 8 && (i != fr || j != fc) && (i != tr || j != tc) ==>
              b'[i][j] == b[i][j]
  {
    Set(Set(b, tr, tc, b[fr][fc]), fr, fc, None)
  }

  /** The value held by a mutable 8x8 board. */
  function Snapshot(a: array2<Cell>): (b: Board)
    requires a.Length0 == 8 && a.Length1 == 8
    reads a
    ensures forall r, c :: 0 <= r < 8 && 0 <= c < 8 ==> b[r][c] == a[r, c]
  {
    seq(8, r reads a requires 0 <= r < 8 => seq(8, c reads a requires 0 <= c < 8 => a[r, c]))
  }

  /** Two boards that agree on every square are the same board. */
  lemma SameCells(b: Board, b': Board)
    requires forall r, c :: 0 <= r < 8 && 0 <= c < 8 ==> b[r][c] == b'[r][c]
    ensures b == b'
  {
    forall r | 0 <= r < 8
      ensures b[r] == b'[r]
    {
      assert forall c :: 0 <= c < 8 ==> b[r][c] == b'[r][c];
    }
  }

  function BackRank(white: bool): seq<Cell> {
    if white then [Some('T'), Some('C'), Some('A'), Some('Q'), Some('K'), Some('A'), Some('C'), Some('T')]
    else [Some('t'), Some('c'), Some('a'), Some('q'), Some('k'), Some('a'), Some('c'), Some('t')]
  }

  /** The starting position: black pawns on row 1, white pawns on row 6, the
      four rows between empty. */
  function Initial(): (b: Board)
    ensures forall c :: 0 <= c < 8 ==> b[1][c] == Some('p') && b[6][c] == Some('P')
    ensures forall r, c :: 2 <= r < 6 && 0 <= c < 8 ==> b[r][c] == None
  {
    var pawns := seq(8, _ => Some('p'));
    var empty := seq(8, _ => None);
    [BackRank(false), pawns, empty, empty, empty, empty, seq(8, _ => Some('P')), BackRank(true)]
  }

  /** The back ranks of the starting position: rooks in the corners, then
      knights, then bishops; exactly one king and one queen per side; black's
      back rank holds, column by column, the lower-case letter of white's piece. */
  lemma StartingPieces()
    ensures var b := Initial();
            b[7][0] == b[7][7] == Some('T') && b[7][1] == b[7][6] == Some('C') && b[7][2] == b[7][5] == Some('A')
    ensures var b := Initial();
            forall r, c :: 0 <= r < 8 && 0 <= c < 8 ==>
              (b[r][c] == Some('K') <==> r == 7 && c == 4) && (b[r][c] == Some('k') <==> r == 0 && c == 4) &&
              (b[r][c] == Some('Q') <==> r == 7 && c == 3) && (b[r][c] == Some('q') <==> r == 0 && c == 3)
    ensures var b := Initial();
            forall c :: 0 <= c < 8 ==>
              b[7][c].Some? && IsUpper(b[7][c].value) &&
              b[0][c].Some? && IsLower(b[0][c].value) && Upper(b[0][c].value) == b[7][c].value
  {
  }
}
