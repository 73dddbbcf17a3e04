/** The click handler of the game loop: select a piece of the side to move,
    then click a destination to try the move; a legal move is played on the
    board in place, a pawn reaching the far rank is promoted to the piece the
    player picks, and the turn passes to the other side. */
module Interaction {
  import opened Pieces
  import opened MoveRules
  import opened CheckDetection
  import opened Legality
  import opened Coordinates

  /** The state the click handler reads and writes. */
  datatype Session = Session(
    board: Board,
    selected: Option<(Coord, Coord)>,
    moves: seq<(Coord, Coord)>,
    whiteToMove: bool)

  /** The pieces the promotion dialog offers to a side: queen, rook, bishop, knight. */
  function PromotionChoices(white: bool): set<char> {
    if white then {'Q', 'T', 'A', 'C'} else {'q', 't', 'a', 'c'}
  }

  /** What holds between clicks: no destinations are shown without a selection,
      and a selected square that still holds a piece holds one of the side to move. */
  ghost predicate Consistent(s: Session) {
    (s.selected.None? ==> s.moves == []) &&
    (s.selected.Some? && s.board[s.selected.value.0][s.selected.value.1].Some? ==>
       Owns(s.whiteToMove, s.board[s.selected.value.0][s.selected.value.1].value))
  }

  /** One click on square (row, col). `promote` is the promotion dialog: given
      the colour of the pawn it returns the chosen piece, or None when the
      player closes it. On None the handler writes the (already emptied)
      origin into the destination and empties the origin, so both squares end
      up empty; the turn and the selection are kept. */
  ghost function Step(s: Session, row: Coord, col: Coord, promote: bool -> Option<char>): (t: Session)
    // a first click only selects: the board and the turn stay
    ensures s.selected.None? ==> t.board == s.board && t.whiteToMove == s.whiteToMove
    // a second click ends the selection, unless the promotion dialog is closed,
    // which keeps the selection and does not pass the turn
    ensures s.selected.Some? ==> t.selected.None? || (t.selected == s.selected && t.whiteToMove == s.whiteToMove)
  {
    match s.selected
    case Some((f0, c0)) =>
      if s.board[f0][c0].None? || !Legal(s.board, f0, c0, row, col) then
        s.(selected := None, moves := [])
      else
        PlayStep(s, f0, c0, row, col, promote)
    case None =>
      if s.board[row][col].Some? && Owns(s.whiteToMove, s.board[row][col].value) then
        s.(selected := Some((row, col)), moves := LegalSquares(s.board, row, col))
      else
        s
  }

  /** The second click of a legal move of the piece on (f0, c0) to (row, col). */
  ghost function PlayStep(s: Session, f0: Coord, c0: Coord, row: Coord, col: Coord,
                          promote: bool -> Option<char>): (t: Session)
    requires s.board[f0][c0].Some?
    requires f0 != row || c0 != col
    // the origin ends empty and no square other than origin and destination changes
    ensures t.board[f0][c0].None?
    ensures forall i, j :: 0 <= i < 8 && 0 <= j < 8 && (i != f0 || j != c0) && (i != row || j != col) ==>
              t.board[i][j] == s.board[i][j]
    // the turn passes exactly when the selection and the shown destinations are cleared;
    // otherwise (the dialog was closed) both are kept
    ensures t.whiteToMove != s.whiteToMove ==> t.selected.None? && t.moves == []
    ensures t.whiteToMove == s.whiteToMove ==> t.selected == s.selected && t.moves == s.moves
  {
    var moved := Apply(s.board, f0, c0, row, col);
    if !NeedsPromotion(moved, row, col) then
      Session(moved, None, [], !s.whiteToMove)
    else
      match promote(IsUpper(moved[row][col].value))
      case Some(p) => Session(Set(moved, row, col, Some(p)), None, [], !s.whiteToMove)
      case None => s.(board := Set(Set(moved, row, col, moved[f0][c0]), f0, c0, None))
  }

  /** A click preserves the consistency of the session. */
  lemma StepKeepsConsistent(s: Session, row: Coord, col: Coord, promote: bool -> Option<char>)
    requires Consistent(s)
    ensures Consistent(Step(s, row, col, promote))
  {
  }

  /** A completed move: the destination receives the moving piece (or the
      promotion choice), the origin is emptied, no other square changes, the
      selection is cleared and the turn passes exactly once. Without a
      promotion the mover is not left in check. */
  lemma MoveCompletes(s: Session, row: Coord, col: Coord, promote: bool -> Option<char>, f0: Coord, c0: Coord)
    requires Consistent(s)
    requires s.selected == Some((f0, c0)) && Legal(s.board, f0, c0, row, col)
    requires !NeedsPromotion(Apply(s.board, f0, c0, row, col), row, col) ||
             promote(IsUpper(s.board[f0][c0].value)).Some?
    ensures var t := Step(s, row, col, promote);
            t.whiteToMove == !s.whiteToMove && t.selected.None? && t.moves == [] &&
            t.board[f0][c0].None? &&
            t.board[row][col] == (if NeedsPromotion(Apply(s.board, f0, c0, row, col), row, col)
                                  then promote(s.whiteToMove) else s.board[f0][c0]) &&
            (forall i, j :: 0 <= i < 8 && 0 <= j < 8 && (i != f0 || j != c0) && (i != row || j != col) ==>
               t.board[i][j] == s.board[i][j])
    ensures !NeedsPromotion(Apply(s.board, f0, c0, row, col), row, col) ==>
              !InCheck(Step(s, row, col, promote).board, s.whiteToMove)
  {
    assert IsUpper(s.board[f0][c0].value) == s.whiteToMove;
  }

  /** A closed promotion dialog: the pawn and anything it captured are gone,
      both squares are empty, the board is not the one before the move, and
      the turn and the selection are kept. */
  lemma PromotionAborted(s: Session, row: Coord, col: Coord, promote: bool -> Option<char>, f0: Coord, c0: Coord)
    requires s.selected == Some((f0, c0)) && Legal(s.board, f0, c0, row, col)
    requires NeedsPromotion(Apply(s.board, f0, c0, row, col), row, col)
    requires promote(IsUpper(s.board[f0][c0].value)).None?
    ensures var t := Step(s, row, col, promote);
            t.board[row][col].None? && t.board[f0][c0].None? && t.board != s.board &&
            (forall i, j :: 0 <= i < 8 && 0 <= j < 8 && (i != f0 || j != c0) && (i != row || j != col) ==>
               t.board[i][j] == s.board[i][j]) &&
            t.whiteToMove == s.whiteToMove && t.selected == s.selected && t.moves == s.moves
  {
    var t := Step(s, row, col, promote);
    assert t.board[f0][c0] != s.board[f0][c0];
  }

  /** The board and the turn change only through a legal move of the selected piece. */
  lemma OnlyLegalMovesChangeTheGame(s: Session, row: Coord, col: Coord, promote: bool -> Option<char>)
    ensures var t := Step(s, row, col, promote);
            (t.board != s.board || t.whiteToMove != s.whiteToMove) ==>
              s.selected.Some? && Legal(s.board, s.selected.value.0, s.selected.value.1, row, col)
  {
  }

  /** Without a selection, a click selects only a piece of the side to move and
      shows exactly its legal destinations; the board and the turn stay. */
  lemma SelectionShowsLegalMoves(s: Session, row: Coord, col: Coord, promote: bool -> Option<char>)
    requires s.selected.None?
    ensures var t := Step(s, row, col, promote);
            t.board == s.board && t.whiteToMove == s.whiteToMove &&
            (t.selected.Some? <==> s.board[row][col].Some? && Owns(s.whiteToMove, s.board[row][col].value)) &&
            (t.selected.Some? ==>
               t.selected == Some((row, col)) &&
               forall r: Coord, c: Coord :: (r, c) in t.moves <==> Legal(s.board, row, col, r, c))
  {
    LegalUpToMembers(s.board, row, col, 64);
  }

  /** A promoted pawn becomes a queen, rook, bishop or knight of the side that moved. */
  lemma PromotionKeepsColour(s: Session, row: Coord, col: Coord, promote: bool -> Option<char>, f0: Coord, c0: Coord)
    requires Consistent(s)
    requires forall w :: promote(w).Some? ==> promote(w).value in PromotionChoices(w)
    requires s.selected == Some((f0, c0)) && Legal(s.board, f0, c0, row, col)
    requires NeedsPromotion(Apply(s.board, f0, c0, row, col), row, col)
    requires promote(s.whiteToMove).Some?
    ensures var t := Step(s, row, col, promote);
            t.board[row][col].Some? && t.board[row][col].value in PromotionChoices(s.whiteToMove) &&
            Owns(s.whiteToMove, t.board[row][col].value)
  {
    assert IsUpper(s.board[f0][c0].value) == s.whiteToMove;
  }

  /** The running game: the board is updated in place. */
  class Game {
    const board: array2<Cell>
    var selected: Option<(Coord, Coord)>
    var moves: seq<(Coord, Coord)>
    var whiteToMove: bool

    ghost predicate Valid()
      reads this, board
    {
      board.Length0 == 8 && board.Length1 == 8 && Consistent(State())
    }

    ghost function State(): Session
      reads this, board
      requires board.Length0 == 8 && board.Length1 == 8
    {
      Session(Snapshot(board), selected, moves, whiteToMove)
    }

    /** A new game: the starting position, nothing selected, white to move. */
    constructor ()
      ensures Valid() && fresh(board)
      ensures State() == Session(Initial(), None, [], true)
    {
      var cells := new Cell[8, 8];
      for row := 0 to 8
        invariant forall i, j :: 0 <= i < row && 0 <= j < 8 ==> cells[i, j] == Initial()[i][j]
      {
        for col := 0 to 8
          invariant forall i, j :: 0 <= i < 8 && 0 <= j < 8 && 8 * i + j < 8 * row + col ==>
                      cells[i, j] == Initial()[i][j]
        {
          cells[row, col] := Initial()[row][col];
        }
      }
      board := cells;
      selected := None;
      moves := [];
      whiteToMove := true;
      new;
      SameCells(Snapshot(board), Initial());
    }

    /** A mouse click at pixel (x, y) with the view rotated or not. */
    method Click(x: int, y: int, rotated: bool, promote: bool -> Option<char>)
      requires Valid()
      modifies this, board
      ensures Valid()
      ensures SquareFromPos(x, y, rotated).None? ==> State() == old(State())
      ensures SquareFromPos(x, y, rotated).Some? ==>
                State() == Step(old(State()), SquareFromPos(x, y, rotated).value.0,
                                SquareFromPos(x, y, rotated).value.1, promote)
    {
      ghost var s := State();
      var square := SquareFromPos(x, y, rotated);
      if square.None? {
        return;
      }
      var (row, col) := square.value;
      StepKeepsConsistent(s, row, col, promote);
      if selected.Some? {
        var (f0, c0) := selected.value;
        var piece := board[f0, c0];
        var ok := false;
        if piece.Some? {
          ok := LegalMove(board, f0, c0, row, col);
        }
        if ok {
          Play(f0, c0, row, col, promote);
        } else {
          selected := None;
          moves := [];
        }
      } else {
        var piece := board[row, col];
        if piece.Some? && Owns(whiteToMove, piece.value) {
          selected := Some((row, col));
          moves := LegalDestinations(board, row, col);
        }
      }
    }

    /** Writes one square of the board in place. */
    method Put(r: Coord, c: Coord, x: Cell)
      requires board.Length0 == 8 && board.Length1 == 8
      modifies board
      ensures Snapshot(board) == Set(old(Snapshot(board)), r, c, x)
    {
      ghost var b := Snapshot(board);
      board[r, c] := x;
      SameCells(Snapshot(board), Set(b, r, c, x));
    }

    /** Plays a legal move of the selected piece on the board in place, asks
        for the promotion piece when a pawn reaches the far rank, and passes
        the turn unless the dialog is closed. */
    method Play(f0: Coord, c0: Coord, row: Coord, col: Coord, promote: bool -> Option<char>)
      requires board.Length0 == 8 && board.Length1 == 8
      requires board[f0, c0].Some? && (f0 != row || c0 != col)
      modifies this, board
      ensures board.Length0 == 8 && board.Length1 == 8
      ensures State() == PlayStep(old(State()), f0, c0, row, col, promote)
    {
      ghost var s := State();
      var piece := board[f0, c0];
      Put(row, col, piece);
      Put(f0, c0, None);
      ghost var moved := Snapshot(board);
      assert moved == Apply(s.board, f0, c0, row, col);
      if NeedsPromotion(Snapshot(board), row, col) {
        var white := IsUpper(board[row, col].value);
        var choice := promote(white);
        if choice.Some? {
          Put(row, col, choice);
        } else {
          var origin := board[f0, c0];
          Put(row, col, origin);
          Put(f0, c0, None);
          return;
        }
      }
      whiteToMove := !whiteToMove;
      selected := None;
      moves := [];
    }
  }
}
