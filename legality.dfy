/** Legal moves: a pseudo-legal move after which the mover's own king is not
    in check, decided by playing the move on a copy of the board. Also the
    enumeration of a piece's legal destinations, the test whether a side has
    any legal move, checkmate, and the promotion test. */
module Legality {
  import opened Pieces
  import opened MoveRules
  import opened CheckDetection

  /** A legal move: the origin holds a piece, the move is pseudo-legal, and the
      mover (the origin piece's colour) is not in check once it is played.
      Whether the mover was in check before does not enter. */
  ghost predicate Legal(b: Board, fr: Coord, fc: Coord, tr: Coord, tc: Coord) {
    b[fr][fc].Some? &&
    PseudoLegal(b, fr, fc, tr, tc) &&
    !InCheck(Apply(b, fr, fc, tr, tc), IsUpper(b[fr][fc].value))
  }

  /** Play the move on a fresh copy of the board and report whether the side
      `white` is out of check there. Only the copy is written. */
  method MoveLeavesKingSafe(a: array2<Cell>, fr: Coord, fc: Coord, tr: Coord, tc: Coord, white: bool)
    returns (r: bool)
    requires a.Length0 == 8 && a.Length1 == 8
    ensures r == !InCheck(Apply(Snapshot(a), fr, fc, tr, tc), white)
  {
    var copy := new Cell[8, 8];
    for row := 0 to 8
      invariant forall i, j :: 0 <= i < row && 0 <= j < 8 ==> copy[i, j] == a[i, j]
    {
      for col := 0 to 8
        invariant forall i, j :: 0 <= i < 8 && 0 <= j < 8 && 8 * i + j < 8 * row + col ==> copy[i, j] == a[i, j]
      {
        copy[row, col] := a[row, col];
      }
    }
    copy[tr, tc] := copy[fr, fc];
    copy[fr, fc] := None;
    SameCells(Snapshot(copy), Apply(Snapshot(a), fr, fc, tr, tc));
    var check := IsInCheck(copy, white);
    r := !check;
  }

  /** The legality test on the mutable board. It has no modifies clause: the
      caller's board is never changed by validation. */
  method LegalMove(a: array2<Cell>, fr: Coord, fc: Coord, tr: Coord, tc: Coord) returns (r: bool)
    requires a.Length0 == 8 && a.Length1 == 8
    ensures r == Legal(Snapshot(a), fr, fc, tr, tc)
  {
    var piece := a[fr, fc];
    if piece.None? {
      return false;
    }
    var white := IsUpper(piece.value);
    var pseudo := IsValidMove(a, fr, fc, tr, tc);
    if !pseudo {
      return false;
    }
    // Both branches run the same test: the result does not depend on an earlier check.
    var inCheck := IsInCheck(a, white);
    if inCheck {
      r := MoveLeavesKingSafe(a, fr, fc, tr, tc, white);
    } else {
      r := MoveLeavesKingSafe(a, fr, fc, tr, tc, white);
    }
  }

  /** A move from an empty square, or onto the square it starts from, is never legal. */
  lemma NoMoveFromNothingOrInPlace(b: Board, fr: Coord, fc: Coord, tr: Coord, tc: Coord)
    ensures b[fr][fc].None? ==> !PseudoLegal(b, fr, fc, tr, tc) && !Legal(b, fr, fc, tr, tc)
    ensures !Legal(b, fr, fc, fr, fc)
    ensures Legal(b, fr, fc, tr, tc) ==> !FriendlyTarget(b, fr, fc, tr, tc)
  {
  }

  /** A legal move leaves no opposing piece able to reach the mover's king. */
  lemma LegalMoveKeepsKingSafe(b: Board, fr: Coord, fc: Coord, tr: Coord, tc: Coord, kr: Coord, kc: Coord)
    requires Legal(b, fr, fc, tr, tc)
    requires IsFirstKing(Apply(b, fr, fc, tr, tc), KingLetter(IsUpper(b[fr][fc].value)), kr, kc)
    ensures forall r: Coord, c: Coord :: !Attacks(Apply(b, fr, fc, tr, tc), IsUpper(b[fr][fc].value), r, c, kr, kc)
  {
    CheckIsAttackOnKing(Apply(b, fr, fc, tr, tc), IsUpper(b[fr][fc].value));
  }

  /** When the mover has no king on the board, every pseudo-legal move is legal. */
  lemma WithoutKingLegalIsPseudoLegal(b: Board, fr: Coord, fc: Coord, tr: Coord, tc: Coord)
    requires b[fr][fc].Some? && NoKing(b, KingLetter(IsUpper(b[fr][fc].value)))
    ensures Legal(b, fr, fc, tr, tc) <==> PseudoLegal(b, fr, fc, tr, tc)
  {
    var white := IsUpper(b[fr][fc].value);
    var b' := Apply(b, fr, fc, tr, tc);
    assert NoKing(b', KingLetter(white)) by {
      assert b[fr][fc] != Some(KingLetter(white));
    }
    CheckIsAttackOnKing(b', white);
  }

  /** The legal destinations of the piece on (fr, fc) among the first `n`
      squares in row-major order, in that order. */
  ghost function LegalUpTo(b: Board, fr: Coord, fc: Coord, n: nat): seq<(Coord, Coord)>
    requires n <= 64
  {
    if n == 0 then []
    else
      var sq := Square(n - 1);
      LegalUpTo(b, fr, fc, n - 1) + (if Legal(b, fr, fc, sq.0, sq.1) then [sq] else [])
  }

  /** The legal destinations of the piece on (fr, fc), in row-major order. */
  ghost function LegalSquares(b: Board, fr: Coord, fc: Coord): seq<(Coord, Coord)> {
    LegalUpTo(b, fr, fc, 64)
  }

  /** The list holds squares before position `n` only, in strictly increasing
      row-major order (so each at most once). */
  lemma {:induction false} LegalUpToOrdered(b: Board, fr: Coord, fc: Coord, n: nat)
    requires n <= 64
    ensures forall i :: 0 <= i < |LegalUpTo(b, fr, fc, n)| ==>
              Index(LegalUpTo(b, fr, fc, n)[i].0, LegalUpTo(b, fr, fc, n)[i].1) < n
    ensures forall i, j :: 0 <= i < j < |LegalUpTo(b, fr, fc, n)| ==>
              Index(LegalUpTo(b, fr, fc, n)[i].0, LegalUpTo(b, fr, fc, n)[i].1) <
              Index(LegalUpTo(b, fr, fc, n)[j].0, LegalUpTo(b, fr, fc, n)[j].1)
  {
    if n > 0 {
      LegalUpToOrdered(b, fr, fc, n - 1);
    }
  }

  /** The list holds exactly the legal destinations among the first `n` squares. */
  lemma {:induction false} LegalUpToMembers(b: Board, fr: Coord, fc: Coord, n: nat)
    requires n <= 64
    ensures forall r: Coord, c: Coord :: (r, c) in LegalUpTo(b, fr, fc, n) <==> Index(r, c) < n && Legal(b, fr, fc, r, c)
  {
    if n > 0 {
      LegalUpToMembers(b, fr, fc, n - 1);
      var sq := Square(n - 1);
      CollectStep(b, fr, fc, sq.0, sq.1, n - 1);
      forall r: Coord, c: Coord
        ensures (r, c) in LegalUpTo(b, fr, fc, n) <==> Index(r, c) < n && Legal(b, fr, fc, r, c)
      {
        if Index(r, c) == n - 1 {
          SquareOfIndex(r, c);
        }
      }
    }
  }

  /** Scanning one more square appends it exactly when moving there is legal. */
  lemma CollectStep(b: Board, fr: Coord, fc: Coord, r: Coord, c: Coord, n: nat)
    requires n == Index(r, c)
    ensures LegalUpTo(b, fr, fc, n + 1) ==
            LegalUpTo(b, fr, fc, n) + (if Legal(b, fr, fc, r, c) then [(r, c)] else [])
  {
    SquareOfIndex(r, c);
  }

  /** One row of the enumeration: append the legal destinations in `row`, left to right. */
  method CollectRow(a: array2<Cell>, fr: Coord, fc: Coord, row: Coord, prefix: seq<(Coord, Coord)>)
    returns (moves: seq<(Coord, Coord)>)
    requires a.Length0 == 8 && a.Length1 == 8
    requires prefix == LegalUpTo(Snapshot(a), fr, fc, 8 * row)
    ensures moves == LegalUpTo(Snapshot(a), fr, fc, 8 * row + 8)
  {
    ghost var b := Snapshot(a);
    ghost var n: nat := 8 * row;
    moves := prefix;
    for col := 0 to 8
      invariant n == 8 * row + col
      invariant moves == LegalUpTo(b, fr, fc, n)
    {
      var ok := LegalMove(a, fr, fc, row, col);
      CollectStep(b, fr, fc, row, col, n);
      if ok {
        moves := moves + [(row, col)];
      }
      n := n + 1;
    }
  }

  /** The enumeration: try all 64 destinations in
      row-major order and collect the legal ones. */
  method LegalDestinations(a: array2<Cell>, fr: Coord, fc: Coord) returns (moves: seq<(Coord, Coord)>)
    requires a.Length0 == 8 && a.Length1 == 8
    ensures moves == LegalSquares(Snapshot(a), fr, fc)
    ensures forall r: Coord, c: Coord :: (r, c) in moves <==> Legal(Snapshot(a), fr, fc, r, c)
    ensures forall i, j :: 0 <= i < j < |moves| ==> Index(moves[i].0, moves[i].1) < Index(moves[j].0, moves[j].1)
  {
    moves := [];
    for row := 0 to 8
      invariant moves == LegalUpTo(Snapshot(a), fr, fc, 8 * row)
    {
      moves := CollectRow(a, fr, fc, row, moves);
    }
    ghost var b := Snapshot(a);
    LegalUpToOrdered(b, fr, fc, 64);
    LegalUpToMembers(b, fr, fc, 64);
  }

  /** The piece on (fr, fc) belongs to `white` and can legally move to (tr, tc). */
  ghost predicate CanMove(b: Board, white: bool, fr: Coord, fc: Coord, tr: Coord, tc: Coord) {
    b[fr][fc].Some? && Owns(white, b[fr][fc].value) && Legal(b, fr, fc, tr, tc)
  }

  /** The side `white` has at least one legal move. */
  ghost predicate HasLegalMove(b: Board, white: bool) {
    exists fr: Coord, fc: Coord, tr: Coord, tc: Coord :: CanMove(b, white, fr, fc, tr, tc)
  }

  /** The piece on (fr, fc) belongs to `white` and has some legal move. */
  ghost predicate PieceHasMove(b: Board, white: bool, fr: Coord, fc: Coord) {
    exists tr: Coord, tc: Coord :: CanMove(b, white, fr, fc, tr, tc)
  }

  /** The destination scan for one piece of the side, stopping at the first legal move. */
  method PieceCanMove(a: array2<Cell>, white: bool, fr: Coord, fc: Coord) returns (r: bool)
    requires a.Length0 == 8 && a.Length1 == 8
    requires a[fr, fc].Some? && Owns(white, a[fr, fc].value)
    ensures r == PieceHasMove(Snapshot(a), white, fr, fc)
  {
    ghost var b := Snapshot(a);
    for tr := 0 to 8
      invariant forall i: Coord, j: Coord :: i < tr ==> !CanMove(b, white, fr, fc, i, j)
    {
      for tc := 0 to 8
        invariant forall i: Coord, j: Coord :: i < tr ==> !CanMove(b, white, fr, fc, i, j)
        invariant forall j: Coord :: j < tc ==> !CanMove(b, white, fr, fc, tr, j)
      {
        var ok := LegalMove(a, fr, fc, tr, tc);
        if ok {
          assert CanMove(b, white, fr, fc, tr, tc);
          return true;
        }
      }
    }
    return false;
  }

  /** The scan: every piece of the side against every
      destination, stopping at the first legal move. */
  method HasLegalMoves(a: array2<Cell>, white: bool) returns (r: bool)
    requires a.Length0 == 8 && a.Length1 == 8
    ensures r == HasLegalMove(Snapshot(a), white)
  {
    ghost var b := Snapshot(a);
    for fr := 0 to 8
      invariant forall i: Coord, j: Coord :: i < fr ==> !PieceHasMove(b, white, i, j)
    {
      for fc := 0 to 8
        invariant forall i: Coord, j: Coord :: i < fr ==> !PieceHasMove(b, white, i, j)
        invariant forall j: Coord :: j < fc ==> !PieceHasMove(b, white, fr, j)
      {
        var piece := a[fr, fc];
        if piece.Some? && Owns(white, piece.value) {
          var any := PieceCanMove(a, white, fr, fc);
          if any {
            ghost var tr: Coord, tc: Coord :| CanMove(b, white, fr, fc, tr, tc);
            return true;
          }
        }
      }
    }
    assert !HasLegalMove(b, white) by {
      forall fr: Coord, fc: Coord, tr: Coord, tc: Coord
        ensures !CanMove(b, white, fr, fc, tr, tc)
      {
        assert !PieceHasMove(b, white, fr, fc);
      }
    }
    return false;
  }

  /** A side has a legal move exactly when one of its pieces has a non-empty
      list of legal destinations. */
  lemma HasMoveIffSomeDestination(b: Board, white: bool)
    ensures HasLegalMove(b, white) <==>
              exists fr: Coord, fc: Coord :: b[fr][fc].Some? && Owns(white, b[fr][fc].value) && LegalSquares(b, fr, fc) != []
  {
    if HasLegalMove(b, white) {
      var fr: Coord, fc: Coord, tr: Coord, tc: Coord :| CanMove(b, white, fr, fc, tr, tc);
      LegalUpToMembers(b, fr, fc, 64);
      assert (tr, tc) in LegalSquares(b, fr, fc);
    }
    if exists fr: Coord, fc: Coord :: b[fr][fc].Some? && Owns(white, b[fr][fc].value) && LegalSquares(b, fr, fc) != [] {
      var fr: Coord, fc: Coord :| b[fr][fc].Some? && Owns(white, b[fr][fc].value) && LegalSquares(b, fr, fc) != [];
      LegalUpToMembers(b, fr, fc, 64);
      var sq := LegalSquares(b, fr, fc)[0];
      assert sq in LegalSquares(b, fr, fc);
      assert CanMove(b, white, fr, fc, sq.0, sq.1);
    }
  }

  /** Checkmate: in check and without a legal move.
      A side without legal moves that is not in check is not reported. */
  method IsCheckmate(a: array2<Cell>, white: bool) returns (r: bool)
    requires a.Length0 == 8 && a.Length1 == 8
    ensures r <==> InCheck(Snapshot(a), white) && !HasLegalMove(Snapshot(a), white)
  {
    var check := IsInCheck(a, white);
    if !check {
      return false;
    }
    var any := HasLegalMoves(a, white);
    r := !any;
  }

  /** The piece now on (r, c) is a pawn that has to be promoted: a white pawn
      on row 0 or a black pawn on row 7. */
  function NeedsPromotion(b: Board, r: Coord, c: Coord): (due: bool)
    ensures due <==> b[r][c].Some? && Upper(b[r][c].value) == 'P' &&
                     r == (if IsUpper(b[r][c].value) then 0 else 7)
  {
    match b[r][c]
    case None => false
    case Some(p) => Upper(p) == 'P' && ((p == 'P' && r == 0) || (p == 'p' && r == 7))
  }

  /** After a move, promotion is due exactly when the piece moved is a pawn and
      the destination is the far rank for its colour. */
  lemma PromotionAfterMove(b: Board, fr: Coord, fc: Coord, tr: Coord, tc: Coord)
    requires PseudoLegal(b, fr, fc, tr, tc)
    ensures NeedsPromotion(Apply(b, fr, fc, tr, tc), tr, tc) <==>
              b[fr][fc].value in {'P', 'p'} && tr == (if IsUpper(b[fr][fc].value) then 0 else 7)
  {
  }
}
