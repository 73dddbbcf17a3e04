/** Check detection: find a side's king by a row-major scan of the board,
    then look for an opposing piece that can pseudo-legally reach its square. */
module CheckDetection {
  import opened Pieces
  import opened MoveRules

  /** The letter of a side's king. */
  function KingLetter(white: bool): char { if white then 'K' else 'k' }

  /** Row-major position of a square, the order in which the board is scanned. */
  function Index(r: Coord, c: Coord): nat { 8 * r + c }

  /** The square at row-major position `n`. */
  function Square(n: nat): (sq: (Coord, Coord))
    requires n < 64
    ensures Index(sq.0, sq.1) == n
  {
    (n / 8, n % 8)
  }

  /** Each square is the square at its own row-major position. */
  lemma SquareOfIndex(r: Coord, c: Coord)
    ensures Square(Index(r, c)) == (r, c)
  {
    var (r', c') := Square(Index(r, c));
    assert 8 * r' + c' == 8 * r + c;
    assert r' <= r;
    assert r' >= r;
  }

  /** No square holds the letter `k`. */
  ghost predicate NoKing(b: Board, k: char) {
    forall r, c :: 0 <= r < 8 && 0 <= c < 8 ==> b[r][c] != Some(k)
  }

  /** (kr, kc) holds `k` and no square before it in row-major order does. */
  ghost predicate IsFirstKing(b: Board, k: char, kr: Coord, kc: Coord) {
    b[kr][kc] == Some(k) &&
    forall r, c :: 0 <= r < 8 && 0 <= c < 8 && Index(r, c) < Index(kr, kc) ==> b[r][c] != Some(k)
  }

  /** The piece on (r, c) belongs to the side opposing `white` and can move to (kr, kc). */
  ghost predicate Attacks(b: Board, white: bool, r: Coord, c: Coord, kr: Coord, kc: Coord) {
    b[r][c].Some? && Owns(!white, b[r][c].value) && PseudoLegal(b, r, c, kr, kc)
  }

  /** Some opposing piece can move to (kr, kc). */
  ghost predicate Attacked(b: Board, white: bool, kr: Coord, kc: Coord) {
    exists r: Coord, c: Coord :: Attacks(b, white, r, c, kr, kc)
  }

  /** The side `white` is in check: the first square holding its king is attacked. */
  ghost predicate InCheck(b: Board, white: bool) {
    exists kr: Coord, kc: Coord :: IsFirstKing(b, KingLetter(white), kr, kc) && Attacked(b, white, kr, kc)
  }

  /** At most one square is the first to hold a letter. */
  lemma FirstKingUnique(b: Board, k: char, r: Coord, c: Coord, r': Coord, c': Coord)
    requires IsFirstKing(b, k, r, c) && IsFirstKing(b, k, r', c')
    ensures r == r' && c == c'
  {
  }

  /** A side is in check exactly when the square of its (first) king is attacked;
      a side without a king is never in check. */
  lemma CheckIsAttackOnKing(b: Board, white: bool)
    ensures NoKing(b, KingLetter(white)) ==> !InCheck(b, white)
    ensures forall kr: Coord, kc: Coord :: IsFirstKing(b, KingLetter(white), kr, kc) ==>
              (InCheck(b, white) <==> Attacked(b, white, kr, kc))
  {
    forall kr: Coord, kc: Coord | IsFirstKing(b, KingLetter(white), kr, kc)
      ensures InCheck(b, white) <==> Attacked(b, white, kr, kc)
    {
      if InCheck(b, white) {
        var kr', kc' :| IsFirstKing(b, KingLetter(white), kr', kc') && Attacked(b, white, kr', kc');
        FirstKingUnique(b, KingLetter(white), kr, kc, kr', kc');
      }
    }
  }

  /** The king scan: the first square in row-major order holding the side's king. */
  method FindKing(a: array2<Cell>, white: bool) returns (r: Option<(Coord, Coord)>)
    requires a.Length0 == 8 && a.Length1 == 8
    ensures r.None? <==> NoKing(Snapshot(a), KingLetter(white))
    ensures r.Some? ==> IsFirstKing(Snapshot(a), KingLetter(white), r.value.0, r.value.1)
  {
    ghost var b := Snapshot(a);
    var king := KingLetter(white);
    for row := 0 to 8
      invariant forall i, j :: 0 <= i < 8 && 0 <= j < 8 && Index(i, j) < 8 * row ==> b[i][j] != Some(king)
    {
      for col := 0 to 8
        invariant forall i, j :: 0 <= i < 8 && 0 <= j < 8 && Index(i, j) < 8 * row + col ==> b[i][j] != Some(king)
      {
        if a[row, col] == Some(king) {
          return Some((row, col));
        }
      }
    }
    return None;
  }

  /** The attacker scan: some opposing piece can move to (kr, kc). */
  method IsAttacked(a: array2<Cell>, white: bool, kr: Coord, kc: Coord) returns (r: bool)
    requires a.Length0 == 8 && a.Length1 == 8
    ensures r == Attacked(Snapshot(a), white, kr, kc)
  {
    ghost var b := Snapshot(a);
    for row := 0 to 8
      invariant forall i, j :: 0 <= i < row && 0 <= j < 8 ==> !Attacks(b, white, i, j, kr, kc)
    {
      for col := 0 to 8
        invariant forall i, j :: 0 <= i < row && 0 <= j < 8 ==> !Attacks(b, white, i, j, kr, kc)
        invariant forall j :: 0 <= j < col ==> !Attacks(b, white, row, j, kr, kc)
      {
        var piece := a[row, col];
        if piece.Some? && Owns(!white, piece.value) {
          var hits := IsValidMove(a, row, col, kr, kc);
          if hits {
            assert Attacks(b, white, row, col, kr, kc);
            return true;
          }
        }
      }
    }
    return false;
  }

  /** The check test: find the king, then scan the board
      for an opposing piece that reaches it. */
  method IsInCheck(a: array2<Cell>, white: bool) returns (r: bool)
    requires a.Length0 == 8 && a.Length1 == 8
    ensures r == InCheck(Snapshot(a), white)
  {
    CheckIsAttackOnKing(Snapshot(a), white);
    var king := FindKing(a, white);
    if king.None? {
      return false;
    }
    r := IsAttacked(a, white, king.value.0, king.value.1);
  }
}
