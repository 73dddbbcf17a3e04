/** Colour symmetry: turning the board upside down (row r becomes row 7 - r)
    and exchanging the colours of all pieces maps the moves of one side onto
    the moves of the other, and the check status of one side onto the other's. */
module Symmetry {
  import opened Pieces
  import opened MoveRules
  import opened CheckDetection

  /** The same piece in the other colour. */
  function SwapCase(p: char): (q: char)
    ensures IsUpper(p) ==> IsLower(q) && Upper(q) == p
    ensures IsLower(p) ==> IsUpper(q) && q == Upper(p)
    ensures !IsUpper(p) && !IsLower(p) ==> q == p
  {
    if IsUpper(p) then (p as int + 32) as char else Upper(p)
  }

  function SwapCell(x: Cell): Cell {
    match x
    case None => None
    case Some(p) => Some(SwapCase(p))
  }

  /** The board turned upside down with the colours exchanged. */
  function Mirror(b: Board): (m: Board)
    ensures forall r, c :: 0 <= r < 8 && 0 <= c < 8 ==> m[r][c] == SwapCell(b[7 - r][c])
  {
    var m := seq(8, r requires 0 <= r < 8 => seq(8, c requires 0 <= c < 8 => SwapCell(b[7 - r][c])));
    assert forall r :: 0 <= r < 8 ==> |m[r]| == 8;
    m
  }

  /** Exchanging colours keeps the piece kind, exchanges the sides and keeps
      whether two pieces are on the same side; doing it twice changes nothing. */
  lemma SwapCaseProperties(p: char, q: char)
    ensures SwapCase(SwapCase(p)) == p
    ensures Upper(SwapCase(p)) == Upper(p)
    ensures IsUpper(SwapCase(p)) == IsLower(p) && IsLower(SwapCase(p)) == IsUpper(p)
    ensures SameSide(SwapCase(p), SwapCase(q)) == SameSide(p, q)
    ensures forall white :: Owns(!white, SwapCase(p)) == Owns(white, p)
  {
  }

  /** Mirroring twice gives back the board. */
  lemma MirrorInvolution(b: Board)
    ensures Mirror(Mirror(b)) == b
  {
    var m := Mirror(Mirror(b));
    forall r, c | 0 <= r < 8 && 0 <= c < 8
      ensures m[r][c] == b[r][c]
    {
      if b[r][c].Some? {
        SwapCaseProperties(b[r][c].value, b[r][c].value);
      }
    }
    SameCells(m, b);
  }

  /** The starting position is its own mirror image. */
  lemma InitialIsSymmetric()
    ensures Mirror(Initial()) == Initial()
  {
    var b := Initial();
    var m := Mirror(b);
    forall r, c | 0 <= r < 8 && 0 <= c < 8
      ensures m[r][c] == b[r][c]
    {
    }
    SameCells(m, b);
  }

  lemma SwapCellNone(x: Cell)
    ensures SwapCell(x).None? == x.None?
  {
  }

  /** The pawn rule of one colour on a board is the pawn rule of the other
      colour on the mirrored board. */
  lemma PawnMirror(b: Board, fr: Coord, fc: Coord, tr: Coord, tc: Coord, white: bool)
    ensures PawnRule(Mirror(b), 7 - fr, fc, 7 - tr, tc, !white) == PawnRule(b, fr, fc, tr, tc, white)
  {
    var m := Mirror(b);
    SwapCellNone(b[tr][tc]);
    if fc == tc && tr == fr + 2 * Dir(white) && 0 <= fr + Dir(white) < 8 {
      SwapCellNone(b[fr + Dir(white)][fc]);
      assert m[7 - fr + Dir(!white)][fc] == SwapCell(b[fr + Dir(white)][fc]);
    }
  }

  /** The rook rule is the same on the mirrored board. */
  lemma RookMirror(b: Board, fr: Coord, fc: Coord, tr: Coord, tc: Coord)
    ensures RookRule(Mirror(b), 7 - fr, fc, 7 - tr, tc) == RookRule(b, fr, fc, tr, tc)
  {
    var m := Mirror(b);
    if fr == tr {
      forall k | 0 <= k < 8
        ensures m[7 - fr][k].None? == b[fr][k].None?
      {
        SwapCellNone(b[fr][k]);
      }
    } else if fc == tc {
      if RookRule(b, fr, fc, tr, tc) {
        forall k | Min(7 - fr, 7 - tr) < k < Max(7 - fr, 7 - tr)
          ensures m[k][fc].None?
        {
          assert Min(fr, tr) < 7 - k < Max(fr, tr);
          SwapCellNone(b[7 - k][fc]);
        }
      }
      if RookRule(m, 7 - fr, fc, 7 - tr, tc) {
        forall k | Min(fr, tr) < k < Max(fr, tr)
          ensures b[k][fc].None?
        {
          assert Min(7 - fr, 7 - tr) < 7 - k < Max(7 - fr, 7 - tr);
          assert m[7 - k][fc] == SwapCell(b[k][fc]);
          SwapCellNone(b[k][fc]);
        }
      }
    }
  }

  /** The squares along a line or diagonal of the mirrored board are the
      mirrored squares along the original line, so the path is clear on both
      or on neither. */
  lemma PathMirror(b: Board, fr: Coord, fc: Coord, tr: Coord, tc: Coord)
    requires Straight(fr, fc, tr, tc) || Diagonal(fr, fc, tr, tc)
    ensures PathClear(Mirror(b), 7 - fr, fc, 7 - tr, tc) == PathClear(b, fr, fc, tr, tc)
  {
    var m := Mirror(b);
    var n := Dist(fr, fc, tr, tc);
    var mfr, mtr := 7 - fr, 7 - tr;
    assert Dist(mfr, fc, mtr, tc) == n;
    forall t | 0 < t < n
      ensures StepCell(m, mfr, fc, mtr, tc, t).None? == StepCell(b, fr, fc, tr, tc, t).None?
    {
      assert Toward(mfr, mtr, t) == 7 - Toward(fr, tr, t);
      SwapCellNone(StepCell(b, fr, fc, tr, tc, t));
    }
    if PathClear(b, fr, fc, tr, tc) {
      forall t | 0 < t < n
        ensures StepCell(m, mfr, fc, mtr, tc, t).None?
      {
        assert StepCell(b, fr, fc, tr, tc, t).None?;
      }
    }
    if PathClear(m, mfr, fc, mtr, tc) {
      forall t | 0 < t < n
        ensures StepCell(b, fr, fc, tr, tc, t).None?
      {
        assert StepCell(m, mfr, fc, mtr, tc, t).None?;
      }
    }
  }

  /** Each piece moves on the mirrored board exactly as its mirror image moves
      on the original board. */
  lemma PseudoLegalMirror(b: Board, fr: Coord, fc: Coord, tr: Coord, tc: Coord)
    ensures PseudoLegal(Mirror(b), 7 - fr, fc, 7 - tr, tc) == PseudoLegal(b, fr, fc, tr, tc)
  {
    var m := Mirror(b);
    if b[fr][fc].Some? {
      var p := b[fr][fc].value;
      SwapCaseProperties(p, p);
      if b[tr][tc].Some? {
        SwapCaseProperties(p, b[tr][tc].value);
      }
      assert FriendlyTarget(m, 7 - fr, fc, 7 - tr, tc) == FriendlyTarget(b, fr, fc, tr, tc);
      var kind := Upper(p);
      if kind == 'P' {
        PawnMirror(b, fr, fc, tr, tc, IsUpper(p));
      } else if kind == 'T' {
        RookMirror(b, fr, fc, tr, tc);
      } else if kind == 'A' {
        if Diagonal(fr, fc, tr, tc) {
          PathMirror(b, fr, fc, tr, tc);
        }
      } else if kind == 'Q' {
        RookMirror(b, fr, fc, tr, tc);
        if Diagonal(fr, fc, tr, tc) {
          PathMirror(b, fr, fc, tr, tc);
        }
      }
    }
  }

  /** A square is attacked by black on the mirrored board exactly when the
      mirrored square is attacked by white on the original, and vice versa. */
  lemma AttackedMirror(b: Board, white: bool, kr: Coord, kc: Coord)
    ensures Attacked(Mirror(b), !white, 7 - kr, kc) == Attacked(b, white, kr, kc)
  {
    var m := Mirror(b);
    forall r: Coord, c: Coord
      ensures Attacks(m, !white, 7 - r, c, 7 - kr, kc) == Attacks(b, white, r, c, kr, kc)
    {
      PseudoLegalMirror(b, r, c, kr, kc);
      if b[r][c].Some? {
        SwapCaseProperties(b[r][c].value, b[r][c].value);
      }
    }
    if Attacked(m, !white, 7 - kr, kc) {
      var r: Coord, c: Coord :| Attacks(m, !white, r, c, 7 - kr, kc);
      assert Attacks(b, white, 7 - r, c, kr, kc);
    }
    if Attacked(b, white, kr, kc) {
      var r: Coord, c: Coord :| Attacks(b, white, r, c, kr, kc);
      assert Attacks(m, !white, 7 - r, c, 7 - kr, kc);
    }
  }

  /** At most one square holds the letter `k`. */
  ghost predicate AtMostOne(b: Board, k: char) {
    forall r, c, r', c' ::
      (0 <= r < 8 && 0 <= c < 8 && 0 <= r' < 8 && 0 <= c' < 8 && b[r][c] == Some(k) && b[r'][c'] == Some(k)) ==>
        r == r' && c == c'
  }

  /** The king of one colour on the mirrored board stands on the mirrored
      square of the king of the other colour on the original board. */
  lemma KingMirror(b: Board, white: bool, r: Coord, c: Coord)
    ensures Mirror(b)[r][c] == Some(KingLetter(!white)) <==> b[7 - r][c] == Some(KingLetter(white))
  {
    if b[7 - r][c].Some? {
      SwapCaseProperties(b[7 - r][c].value, b[7 - r][c].value);
    }
  }

  /** When a letter occurs at most once, the first square holding it is the only one. */
  lemma OnlyKingIsFirst(b: Board, k: char, kr: Coord, kc: Coord)
    requires AtMostOne(b, k)
    ensures IsFirstKing(b, k, kr, kc) <==> b[kr][kc] == Some(k)
  {
  }

  /** One king of a colour on a board is one king of the other colour on the mirrored board. */
  lemma AtMostOneMirror(b: Board, white: bool)
    requires AtMostOne(b, KingLetter(white))
    ensures AtMostOne(Mirror(b), KingLetter(!white))
  {
    var m := Mirror(b);
    forall r, c, r', c' | 0 <= r < 8 && 0 <= c < 8 && 0 <= r' < 8 && 0 <= c' < 8 &&
                           m[r][c] == Some(KingLetter(!white)) && m[r'][c'] == Some(KingLetter(!white))
      ensures r == r' && c == c'
    {
      KingMirror(b, white, r, c);
      KingMirror(b, white, r', c');
    }
  }

  /** With one king per colour, the first king on the mirrored board is the
      mirror image of the first king on the original board. */
  lemma FirstKingMirror(b: Board, white: bool, kr: Coord, kc: Coord)
    requires AtMostOne(b, KingLetter(white))
    ensures IsFirstKing(Mirror(b), KingLetter(!white), 7 - kr, kc) <==> IsFirstKing(b, KingLetter(white), kr, kc)
  {
    var mr: Coord := 7 - kr;
    AtMostOneMirror(b, white);
    OnlyKingIsFirst(Mirror(b), KingLetter(!white), mr, kc);
    OnlyKingIsFirst(b, KingLetter(white), kr, kc);
    KingMirror(b, white, mr, kc);
  }

  /** An attacked first king is a check. */
  lemma CheckWitness(b: Board, white: bool, kr: Coord, kc: Coord)
    requires IsFirstKing(b, KingLetter(white), kr, kc) && Attacked(b, white, kr, kc)
    ensures InCheck(b, white)
  {
  }

  /** A side in check with one king: the other side is in check on the mirrored board. */
  lemma CheckMirrorForward(b: Board, white: bool)
    requires AtMostOne(b, KingLetter(white)) && InCheck(b, white)
    ensures InCheck(Mirror(b), !white)
  {
    var kr: Coord, kc: Coord :| IsFirstKing(b, KingLetter(white), kr, kc) && Attacked(b, white, kr, kc);
    FirstKingMirror(b, white, kr, kc);
    AttackedMirror(b, white, kr, kc);
    CheckWitness(Mirror(b), !white, 7 - kr, kc);
  }

  /** With at most one king per side, a side is in check exactly when the other
      side is in check on the mirrored board. */
  lemma CheckMirror(b: Board, white: bool)
    requires AtMostOne(b, KingLetter(white))
    ensures InCheck(Mirror(b), !white) == InCheck(b, white)
  {
    if InCheck(b, white) {
      CheckMirrorForward(b, white);
    }
    if InCheck(Mirror(b), !white) {
      AtMostOneMirror(b, white);
      CheckMirrorForward(Mirror(b), !white);
      MirrorInvolution(b);
    }
  }
}
