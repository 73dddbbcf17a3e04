/** Pseudo-legal moves: the per-piece movement rules and the dispatch on the
    piece letter, ignoring whether the mover's own king is left in check.
    No castling and no en passant. */
module MoveRules {
  import opened Pieces

  function Abs(x: int): nat { if x < 0 then -x else x }
  function Min(x: int, y: int): int { if x <= y then x else y }
  function Max(x: int, y: int): int { if x <= y then y else x }

  /** The direction a pawn advances in: up the board for white. */
  function Dir(white: bool): int { if white then -1 else 1 }

  /** The row a pawn starts on, the only row it may advance two squares from. */
  function StartRow(white: bool): Coord { if white then 6 else 1 }

  /** The pawn rule for a pawn of colour `white`. */
  function PawnRule(b: Board, fr: Coord, fc: Coord, tr: Coord, tc: Coord, white: bool): (r: bool)
    // a pawn moves at most one column sideways, and only when it also advances one row
    ensures r ==> Abs(tc - fc) <= 1
    ensures r && fc != tc ==> tr == fr + Dir(white)
    // it captures exactly when it moves diagonally
    ensures r ==> (fc == tc <==> b[tr][tc].None?)
    // a straight move is one step, or two steps from the start row over an empty square
    ensures r && fc == tc ==>
              tr == fr + Dir(white) ||
              (fr == StartRow(white) && tr == fr + 2 * Dir(white) && b[fr + Dir(white)][fc].None?)
  {
    var d := Dir(white);
    if fc == tc then
      if tr == fr + d then b[tr][tc].None?
      else if (white && fr == 6 && tr == 4) || (!white && fr == 1 && tr == 3) then
        b[fr + d][fc].None? && b[tr][tc].None?
      else false
    else if Abs(tc - fc) == 1 && tr == fr + d then b[tr][tc].Some?
    else false
  }

  /** The rook rule: same row or column, every square strictly between empty. */
  predicate RookRule(b: Board, fr: Coord, fc: Coord, tr: Coord, tc: Coord) {
    if fr != tr && fc != tc then false
    else if fr == tr then forall k :: Min(fc, tc) < k < Max(fc, tc) ==> b[fr][k].None?
    else forall k :: Min(fr, tr) < k < Max(fr, tr) ==> b[k][fc].None?
  }

  predicate Straight(fr: Coord, fc: Coord, tr: Coord, tc: Coord) { fr == tr || fc == tc }

  predicate Diagonal(fr: Coord, fc: Coord, tr: Coord, tc: Coord) { Abs(tr - fr) == Abs(tc - fc) }

  /** The number of steps a sliding piece takes from origin to destination. */
  function Dist(fr: Coord, fc: Coord, tr: Coord, tc: Coord): nat { Max(Abs(tr - fr), Abs(tc - fc)) }

  /** The coordinate `t` steps from `x` towards `y`. */
  function Toward(x: Coord, y: Coord, t: nat): (z: Coord)
    requires x == y || t <= Abs(y - x)
  {
    if x < y then x + t else if y < x then x - t else x
  }

  /** Every square strictly between origin and destination of a line or
      diagonal is empty: a reference definition shared by all sliders. */
  predicate PathClear(b: Board, fr: Coord, fc: Coord, tr: Coord, tc: Coord)
    requires Straight(fr, fc, tr, tc) || Diagonal(fr, fc, tr, tc)
  {
    forall t :: 0 < t < Dist(fr, fc, tr, tc) ==> StepCell(b, fr, fc, tr, tc, t).None?
  }

  /** The square `t` steps from the origin towards the destination. */
  function StepCell(b: Board, fr: Coord, fc: Coord, tr: Coord, tc: Coord, t: nat): Cell
    requires Straight(fr, fc, tr, tc) || Diagonal(fr, fc, tr, tc)
    requires t <= Dist(fr, fc, tr, tc)
  {
    b[Toward(fr, tr, t)][Toward(fc, tc, t)]
  }

  /** The bishop rule: equal row and column distance, the diagonal between empty. */
  predicate BishopRule(b: Board, fr: Coord, fc: Coord, tr: Coord, tc: Coord) {
    Diagonal(fr, fc, tr, tc) && PathClear(b, fr, fc, tr, tc)
  }

  /** The queen rule: the rook rule or the bishop rule. */
  predicate QueenRule(b: Board, fr: Coord, fc: Coord, tr: Coord, tc: Coord) {
    RookRule(b, fr, fc, tr, tc) || BishopRule(b, fr, fc, tr, tc)
  }

  /** The king rule: at most one row and at most one column away. */
  function KingRule(fr: Coord, fc: Coord, tr: Coord, tc: Coord): (r: bool)
    ensures r <==> (tr - fr, tc - fc) in {(-1, -1), (-1, 0), (-1, 1), (0, -1), (0, 0), (0, 1), (1, -1), (1, 0), (1, 1)}
  {
    Abs(tr - fr) <= 1 && Abs(tc - fc) <= 1
  }

  /** The knight rule: two rows and one column, or one row and two columns. */
  function KnightRule(fr: Coord, fc: Coord, tr: Coord, tc: Coord): (r: bool)
    ensures r <==> (tr - fr, tc - fc) in {(-2, -1), (-2, 1), (-1, -2), (-1, 2), (1, -2), (1, 2), (2, -1), (2, 1)}
  {
    var dr, dc := Abs(tr - fr), Abs(tc - fc);
    (dr == 2 && dc == 1) || (dr == 1 && dc == 2)
  }

  /** The destination holds a piece of the same colour as the origin's. */
  predicate FriendlyTarget(b: Board, fr: Coord, fc: Coord, tr: Coord, tc: Coord)
    requires b[fr][fc].Some?
  {
    b[tr][tc].Some? && SameSide(b[fr][fc].value, b[tr][tc].value)
  }

  /** The pseudo-legal move predicate: dispatch on the origin's piece letter. */
  function PseudoLegal(b: Board, fr: Coord, fc: Coord, tr: Coord, tc: Coord): (r: bool)
    ensures b[fr][fc].None? ==> !r
    ensures r ==> !FriendlyTarget(b, fr, fc, tr, tc)
    ensures r ==> fr != tr || fc != tc
  {
    match b[fr][fc]
    case None => false
    case Some(p) =>
      if FriendlyTarget(b, fr, fc, tr, tc) then false
      else
        var kind := Upper(p);
        if kind == 'P' then PawnRule(b, fr, fc, tr, tc, IsUpper(p))
        else if kind == 'T' then RookRule(b, fr, fc, tr, tc)
        else if kind == 'A' then BishopRule(b, fr, fc, tr, tc)
        else if kind == 'Q' then QueenRule(b, fr, fc, tr, tc)
        else if kind == 'K' then KingRule(fr, fc, tr, tc)
        else if kind == 'C' then KnightRule(fr, fc, tr, tc)
        else false
  }

  /** The rook check on the mutable board: a scan of the squares between. */
  method RookMove(a: array2<Cell>, fr: Coord, fc: Coord, tr: Coord, tc: Coord) returns (r: bool)
    requires a.Length0 == 8 && a.Length1 == 8
    ensures r == RookRule(Snapshot(a), fr, fc, tr, tc)
  {
    if fr != tr && fc != tc {
      return false;
    }
    if fr == tr {
      var c := Min(fc, tc) + 1;
      while c < Max(fc, tc)
        invariant Min(fc, tc) < c <= Max(Max(fc, tc), Min(fc, tc) + 1)
        invariant forall k :: Min(fc, tc) < k < c ==> a[fr, k].None?
      {
        if a[fr, c].Some? {
          return false;
        }
        c := c + 1;
      }
    } else {
      var row := Min(fr, tr) + 1;
      while row < Max(fr, tr)
        invariant Min(fr, tr) < row <= Max(fr, tr)
        invariant forall k :: Min(fr, tr) < k < row ==> a[k, fc].None?
      {
        if a[row, fc].Some? {
          return false;
        }
        row := row + 1;
      }
    }
    return true;
  }

  /** The bishop check on the mutable board: step along the diagonal until
      the destination row or column is reached. */
  method BishopMove(a: array2<Cell>, fr: Coord, fc: Coord, tr: Coord, tc: Coord) returns (r: bool)
    requires a.Length0 == 8 && a.Length1 == 8
    requires fr != tr || fc != tc
    ensures r == BishopRule(Snapshot(a), fr, fc, tr, tc)
  {
    if Abs(tr - fr) != Abs(tc - fc) {
      return false;
    }
    var rowDir := if tr > fr then 1 else -1;
    var colDir := if tc > fc then 1 else -1;
    ghost var b := Snapshot(a);
    var row, col := fr + rowDir, fc + colDir;
    ghost var t: nat := 1;
    while row != tr && col != tc
      invariant 1 <= t <= Abs(tr - fr)
      invariant row == Toward(fr, tr, t) && col == Toward(fc, tc, t)
      invariant forall s :: 0 < s < t ==> StepCell(b, fr, fc, tr, tc, s).None?
      decreases Abs(tr - row)
    {
      if a[row, col].Some? {
        assert StepCell(b, fr, fc, tr, tc, t).Some?;
        return false;
      }
      assert StepCell(b, fr, fc, tr, tc, t).None?;
      TowardStep(fr, tr, t);
      TowardStep(fc, tc, t);
      row, col, t := row + rowDir, col + colDir, t + 1;
    }
    assert t == Dist(fr, fc, tr, tc);
    return true;
  }

  lemma TowardStep(x: Coord, y: Coord, t: nat)
    requires t < Abs(y - x)
    ensures Toward(x, y, t + 1) == Toward(x, y, t) + (if y > x then 1 else -1)
  {
  }

  /** The queen check: the rook check, then the bishop check. */
  method QueenMove(a: array2<Cell>, fr: Coord, fc: Coord, tr: Coord, tc: Coord) returns (r: bool)
    requires a.Length0 == 8 && a.Length1 == 8
    ensures r == (RookRule(Snapshot(a), fr, fc, tr, tc) || BishopRule(Snapshot(a), fr, fc, tr, tc))
  {
    r := RookMove(a, fr, fc, tr, tc);
    if !r {
      r := BishopMove(a, fr, fc, tr, tc);
    }
  }

  /** The pseudo-legal move check on the mutable board. */
  method IsValidMove(a: array2<Cell>, fr: Coord, fc: Coord, tr: Coord, tc: Coord) returns (r: bool)
    requires a.Length0 == 8 && a.Length1 == 8
    ensures r == PseudoLegal(Snapshot(a), fr, fc, tr, tc)
  {
    var piece := a[fr, fc];
    if piece.None? {
      return false;
    }
    var target := a[tr, tc];
    if target.Some? && SameSide(piece.value, target.value) {
      return false;
    }
    var kind := Upper(piece.value);
    if kind == 'P' {
      r := PawnRule(Snapshot(a), fr, fc, tr, tc, IsUpper(piece.value));
    } else if kind == 'T' {
      r := RookMove(a, fr, fc, tr, tc);
    } else if kind == 'A' {
      r := BishopMove(a, fr, fc, tr, tc);
    } else if kind == 'Q' {
      r := QueenMove(a, fr, fc, tr, tc);
    } else if kind == 'K' {
      r := KingRule(fr, fc, tr, tc);
    } else if kind == 'C' {
      r := KnightRule(fr, fc, tr, tc);
    } else {
      r := false;
    }
  }

  /** The rook rule's row/column scans are the shared path-clear rule on a straight line. */
  lemma RookRuleIsStraightSlide(b: Board, fr: Coord, fc: Coord, tr: Coord, tc: Coord)
    ensures RookRule(b, fr, fc, tr, tc) <==> Straight(fr, fc, tr, tc) && PathClear(b, fr, fc, tr, tc)
  {
    if fr == tr {
      if RookRule(b, fr, fc, tr, tc) {
        forall t | 0 < t < Dist(fr, fc, tr, tc)
          ensures StepCell(b, fr, fc, tr, tc, t).None?
        {
          assert Min(fc, tc) < Toward(fc, tc, t) < Max(fc, tc);
        }
      }
      if PathClear(b, fr, fc, tr, tc) {
        forall k | Min(fc, tc) < k < Max(fc, tc)
          ensures b[fr][k].None?
        {
          assert StepCell(b, fr, fc, tr, tc, Abs(k - fc)) == b[fr][k];
        }
      }
    } else if fc == tc {
      if RookRule(b, fr, fc, tr, tc) {
        forall t | 0 < t < Dist(fr, fc, tr, tc)
          ensures StepCell(b, fr, fc, tr, tc, t).None?
        {
          assert Min(fr, tr) < Toward(fr, tr, t) < Max(fr, tr);
        }
      }
      if PathClear(b, fr, fc, tr, tc) {
        forall k | Min(fr, tr) < k < Max(fr, tr)
          ensures b[k][fc].None?
        {
          assert StepCell(b, fr, fc, tr, tc, Abs(k - fr)) == b[k][fc];
        }
      }
    }
  }

  /** Rooks, bishops and queens move only along a row, a column or a diagonal,
      only over empty squares; the queen moves exactly where a rook or a bishop would. */
  lemma SlidingMoves(b: Board, fr: Coord, fc: Coord, tr: Coord, tc: Coord)
    requires b[fr][fc].Some?
    ensures Upper(b[fr][fc].value) == 'T' ==>
              (PseudoLegal(b, fr, fc, tr, tc) <==>
                 !FriendlyTarget(b, fr, fc, tr, tc) && Straight(fr, fc, tr, tc) && PathClear(b, fr, fc, tr, tc))
    ensures Upper(b[fr][fc].value) == 'A' ==>
              (PseudoLegal(b, fr, fc, tr, tc) <==>
                 !FriendlyTarget(b, fr, fc, tr, tc) && Diagonal(fr, fc, tr, tc) && PathClear(b, fr, fc, tr, tc))
    ensures Upper(b[fr][fc].value) == 'Q' ==>
              (PseudoLegal(b, fr, fc, tr, tc) <==>
                 !FriendlyTarget(b, fr, fc, tr, tc) &&
                 (Straight(fr, fc, tr, tc) || Diagonal(fr, fc, tr, tc)) && PathClear(b, fr, fc, tr, tc))
  {
    RookRuleIsStraightSlide(b, fr, fc, tr, tc);
  }

  /** Placing any piece on a square strictly between the origin and the
      destination of a rook, bishop or queen move makes the move rejected. */
  lemma BlockerStopsSlide(b: Board, fr: Coord, fc: Coord, tr: Coord, tc: Coord, t: nat, q: char)
    requires b[fr][fc].Some? && Upper(b[fr][fc].value) in {'T', 'A', 'Q'}
    requires Straight(fr, fc, tr, tc) || Diagonal(fr, fc, tr, tc)
    requires 0 < t < Dist(fr, fc, tr, tc)
    ensures !PseudoLegal(Set(b, Toward(fr, tr, t), Toward(fc, tc, t), Some(q)), fr, fc, tr, tc)
  {
    var sr, sc := Toward(fr, tr, t), Toward(fc, tc, t);
    var b' := Set(b, sr, sc, Some(q));
    assert sr != fr || sc != fc;
    assert !PathClear(b', fr, fc, tr, tc) by {
      assert StepCell(b', fr, fc, tr, tc, t).Some?;
    }
    SlidingMoves(b', fr, fc, tr, tc);
  }

  /** Kings and knights move exactly to their offset squares not held by their own side. */
  lemma LeapingMoves(b: Board, fr: Coord, fc: Coord, tr: Coord, tc: Coord)
    requires b[fr][fc].Some?
    ensures Upper(b[fr][fc].value) == 'K' ==>
              (PseudoLegal(b, fr, fc, tr, tc) <==>
                 !FriendlyTarget(b, fr, fc, tr, tc) && Abs(tr - fr) <= 1 && Abs(tc - fc) <= 1)
    ensures Upper(b[fr][fc].value) == 'C' ==>
              (PseudoLegal(b, fr, fc, tr, tc) <==>
                 !FriendlyTarget(b, fr, fc, tr, tc) && {Abs(tr - fr), Abs(tc - fc)} == {1, 2})
    ensures Upper(b[fr][fc].value) !in {'P', 'T', 'A', 'Q', 'K', 'C'} ==> !PseudoLegal(b, fr, fc, tr, tc)
  {
    var dr, dc := Abs(tr - fr), Abs(tc - fc);
    assert {dr, dc} == {1, 2} <==> (dr == 2 && dc == 1) || (dr == 1 && dc == 2) by {
      if {dr, dc} == {1, 2} {
        assert dr in {1, 2} && dc in {1, 2};
        assert 1 in {dr, dc} && 2 in {dr, dc};
      }
    }
  }

  /** A pawn on its start row advances two squares exactly when both squares
      in front of it are empty. */
  lemma PawnDoubleStep(b: Board, c: Coord, white: bool)
    requires b[StartRow(white)][c] == Some(if white then 'P' else 'p')
    ensures var d := Dir(white);
            PseudoLegal(b, StartRow(white), c, StartRow(white) + 2 * d, c) <==>
              b[StartRow(white) + d][c].None? && b[StartRow(white) + 2 * d][c].None?
  {
  }

  /** A pawn advances one square onto an empty square, and moves one square
      diagonally forward onto a square held by the other side. */
  lemma PawnSingleSteps(b: Board, fr: Coord, fc: Coord, tr: Coord, tc: Coord)
    requires b[fr][fc].Some? && b[fr][fc].value in {'P', 'p'}
    requires tr == fr + Dir(IsUpper(b[fr][fc].value)) && Abs(tc - fc) <= 1
    ensures tc == fc ==> (PseudoLegal(b, fr, fc, tr, tc) <==> b[tr][tc].None?)
    ensures tc != fc ==> (PseudoLegal(b, fr, fc, tr, tc) <==> b[tr][tc].Some? && !FriendlyTarget(b, fr, fc, tr, tc))
  {
  }
}
