# Chess move legality (ajedrez.py) in Dafny

This project models the rules engine of a small two-player chess game. The
board is an 8×8 grid of squares. Each square is empty or holds a one-letter
piece: upper case for white, lower case for black. The letters are P (pawn),
T (rook), C (knight), A (bishop), Q (queen) and K (king). Castling and en
passant are not part of the game.

The model covers:

- the per-piece movement rules and their dispatch;
- check detection, which finds the king and looks for an opposing piece that reaches it;
- legality: a pseudo-legal move that does not leave the mover's own king in check;
- the list of legal destinations, the "has a legal move" scan and checkmate;
- promotion detection;
- the colour symmetry of the rules: mirroring the board and exchanging the colours maps moves and check of one side onto the other;
- the 180° view rotation and the pixel-to-square mapping;
- the click handler of the game loop: it selects a piece, plays a legal move on the board in place, promotes a pawn and passes the turn.

Modules:

- `Pieces` (`pieces.dfy`): squares, pieces, colours, the board value `Board`, single-square writes, the starting position, and `Snapshot`, which reads a mutable `array2` board as a value.
- `MoveRules` (`moves.dfy`): the pawn, rook, bishop, queen, king and knight rules, and the dispatch `PseudoLegal`. The rook and bishop scans are loop methods, proved against the pure rules.
- `CheckDetection` (`check.dfy`): the king scan and the check test, as loop methods proved against `InCheck`.
- `Legality` (`legality.dfy`):
  - the move simulated on a fresh copy of the board;
  - `Legal`;
  - the list of legal destinations, the "has a legal move" scan, checkmate and promotion detection.
- `Coordinates` (`coords.dfy`): view rotation and the mouse-position mapping.
- `Symmetry` (`symmetry.dfy`): the colour-mirrored board (rows reversed, colours exchanged), and the proof that it maps moves, attacks and check of one side onto the other.
- `Interaction` (`game.dfy`): the session state and one click as a transition `Step`. The class `Game` keeps the board in an `array2`, updates it in place, and is proved to follow `Step`.

Every validation method takes the board `array2` with no `modifies` clause. Dafny therefore proves that validation never changes the caller's board. `MoveLeavesKingSafe` plays the move on a freshly allocated copy.

The promotion dialog is modelled as a parameter `promote: bool -> Option<char>`. It is called with the colour of the promoting pawn and returns the chosen piece, or `None` when the player closes the window. One would expect closing the dialog to undo the move. The code does not, and the model follows the code (ajedrez.py:386-398). Line 387 has already emptied the origin. Lines 395-396 then copy that empty origin into the destination and empty the origin again. The pawn and any piece it captured disappear. The turn is not passed, and the selection is kept (`continue`). `PromotionAborted` states this outcome.

## Model

| member | source | states |
|---|---|---|
| Pieces.Upper | ajedrez.py:85 | A lower-case letter maps to the upper-case letter at the same position in the alphabet, so a black piece has the kind of the white piece with the same letter; any other character is its own upper-case form. |
| Pieces.Set | ajedrez.py:386-387 | Writing a square changes that square and no other. |
| Pieces.Apply | ajedrez.py:196-197 | Playing a move empties the origin, puts the origin's piece on a different destination, and leaves every other square unchanged. |
| Pieces.Initial | ajedrez.py:12-21 | The starting position has black pawns on row 1, white pawns on row 6, and rows 2-5 empty. |
| Pieces.StartingPieces | ajedrez.py:13-20 | White's back rank (row 7) has rooks in the corners, then knights, then bishops. Each side has exactly one king (white on (7, 4), black on (0, 4)) and exactly one queen (column 3). Black's back rank (row 0) holds, column by column, the lower-case letter of white's piece. |
| MoveRules.PawnRule | ajedrez.py:100-111 | A pawn moves at most one column sideways, and only while advancing one row in its direction (−1 for white, +1 for black). It captures exactly when it moves diagonally. A straight move is one step, or two steps from row 6 (white) or row 1 (black) over an empty square. |
| MoveRules.KingRule | ajedrez.py:147-148 | A king rule accepts exactly the nine offsets with row and column change at most 1. |
| MoveRules.KnightRule | ajedrez.py:150-153 | A knight rule accepts exactly the eight (±2,±1) and (±1,±2) offsets. |
| MoveRules.PseudoLegal | ajedrez.py:77-98 | No move starts from an empty square, none ends on a piece of the mover's own colour, and none stays in place. |
| MoveRules.RookMove | ajedrez.py:113-128 | The rook scan's result equals the rook rule: same row or column, with every square strictly between empty. |
| MoveRules.BishopMove | ajedrez.py:130-141 | For distinct squares, the bishop ray walk's result equals the bishop rule: an equal-delta diagonal with every square strictly between empty. |
| MoveRules.QueenMove | ajedrez.py:143-145 | The queen is accepted exactly when the rook rule or the bishop rule accepts. |
| MoveRules.IsValidMove | ajedrez.py:77-98 | The dispatching method computes exactly `PseudoLegal` on the current board and does not change the board. |
| MoveRules.TowardStep | ajedrez.py:137-140 | One more step along a ray moves one square towards the destination. |
| MoveRules.RookRuleIsStraightSlide | ajedrez.py:113-128 | The rook rule holds exactly for straight moves whose squares strictly between, in the unified path definition, are empty. |
| MoveRules.SlidingMoves | ajedrez.py:77-98 | A rook, bishop or queen move is accepted iff the destination does not hold a piece of the mover's colour, the line is a row/column (rook), a diagonal (bishop) or either (queen), and the path between is clear. |
| MoveRules.BlockerStopsSlide | ajedrez.py:113-145 | Putting any piece on a square strictly between the origin and the destination of a rook, bishop or queen makes that move rejected. |
| MoveRules.LeapingMoves | ajedrez.py:77-98 | A king move is accepted iff both deltas are at most 1 and the target is not friendly. A knight move is accepted iff the deltas are {1,2} and the target is not friendly. A piece letter outside P/T/A/Q/K/C never moves. |
| MoveRules.PawnDoubleStep | ajedrez.py:100-108 | A pawn on its start row advances two squares exactly when both squares in front of it are empty. |
| MoveRules.PawnSingleSteps | ajedrez.py:100-111 | A pawn one row forward moves straight iff the square is empty, and diagonally iff the square holds an opposing piece. |
| CheckDetection.FirstKingUnique | ajedrez.py:173-179 | At most one square is the first in row-major order to hold a given king. |
| CheckDetection.CheckIsAttackOnKing | ajedrez.py:181-192 | A side with no king is never in check. Otherwise it is in check iff some opposing piece pseudo-legally reaches its (first) king. |
| CheckDetection.FindKing | ajedrez.py:173-179 | The scan returns None iff the king letter is absent; otherwise it returns the first square in row-major order holding it. |
| CheckDetection.IsAttacked | ajedrez.py:186-192 | The attacker scan is true iff some piece of the other side can pseudo-legally move to the given square. |
| CheckDetection.IsInCheck | ajedrez.py:181-192 | The method computes exactly `InCheck` on the current board. |
| Legality.MoveLeavesKingSafe | ajedrez.py:194-198 | The result is true iff, after the move is played on a copy, the given side is not in check. |
| Legality.LegalMove | ajedrez.py:200-209 | The result equals `Legal`: the origin holds a piece, the move is pseudo-legal, and afterwards the mover is not in check. The result does not depend on whether the mover was in check before. |
| Legality.NoMoveFromNothingOrInPlace | ajedrez.py:78-84 | From an empty square neither the pseudo-legal nor the legal test accepts anything. No piece may stay in place. A legal move never lands on a friendly piece. |
| Legality.LegalMoveKeepsKingSafe | ajedrez.py:181-209 | After a legal move no opposing piece reaches the mover's king. |
| Legality.WithoutKingLegalIsPseudoLegal | ajedrez.py:181-209 | For a side without a king, legal and pseudo-legal coincide. |
| Legality.LegalUpToOrdered | ajedrez.py:155-161 | The destinations collected before a scan position lie before it, in strictly increasing row-major order, so none is repeated. |
| Legality.LegalUpToMembers | ajedrez.py:155-161 | The destinations collected before a scan position are exactly the legal destinations before it. |
| Legality.CollectStep | ajedrez.py:157-160 | Scanning one more square appends that square exactly when moving there is legal. |
| Legality.CollectRow | ajedrez.py:157-160 | Scanning one row appends that row's legal destinations, left to right, to the list collected so far. |
| Legality.LegalDestinations | ajedrez.py:155-161 | The list holds a square iff moving there is legal, without repeats, in row-major order. |
| Legality.PieceCanMove | ajedrez.py:215-219 | The destination scan for one piece of the side is true iff that piece has a legal move. |
| Legality.HasLegalMoves | ajedrez.py:211-220 | The result is true iff some piece of the side has a legal move. |
| Legality.HasMoveIffSomeDestination | ajedrez.py:155-161 | A side has a legal move iff one of its pieces has a non-empty list of legal destinations. |
| Legality.IsCheckmate | ajedrez.py:222-223 | Mate iff in check and without a legal move. A side with no move that is not in check is not mate. |
| Legality.NeedsPromotion | ajedrez.py:225-230 | Promotion is due on a square exactly when it holds a pawn on the far rank for the pawn's colour: row 0 for white, row 7 for black. |
| Legality.PromotionAfterMove | ajedrez.py:225-230 | After a move, promotion is due iff the moved piece is a pawn that reached row 0 (white) or row 7 (black). |
| Coordinates.Rotate | ajedrez.py:306-309 | The rotated view reflects each square through the centre of the board; without rotation a square is drawn where it is. |
| Coordinates.Unrotate | ajedrez.py:311-314 | Mapping a drawn square back gives the board square that is drawn there: rotating the result gives back the drawn square. |
| Coordinates.RotationRoundTrip | ajedrez.py:306-314 | Rotation and its inverse undo each other, and each is an involution. |
| Coordinates.SquareFromPos | ajedrez.py:68-75 | A pixel maps to a square iff it lies in the 640×640 board area. The mapped square, drawn in the current view, is the 80-pixel square containing the pixel. |
| Interaction.Step | ajedrez.py:379-411 | A first click only selects: the board and the turn stay. A second click ends the selection, except when the promotion dialog is closed; then the selection is kept and the turn is not passed. |
| Interaction.PlayStep | ajedrez.py:386-399 | Playing a move empties the origin and changes no square other than the origin and the destination. The turn passes exactly when the selection and the shown destinations are cleared; otherwise (closed dialog) both are kept. |
| Interaction.StepKeepsConsistent | ajedrez.py:379-411 | A click keeps the session consistent: no destinations are shown without a selection, and a selected piece belongs to the side to move. |
| Interaction.MoveCompletes | ajedrez.py:385-399 | A completed legal move puts the moving piece (or the promotion choice) on the destination, empties the origin, and changes no other square. It clears the selection and passes the turn exactly once. Without a promotion, the mover is not in check afterwards. |
| Interaction.PromotionAborted | ajedrez.py:389-396 | Closing the promotion dialog leaves both squares empty and the board different from before the move. The turn and the selection are kept. |
| Interaction.OnlyLegalMovesChangeTheGame | ajedrez.py:379-411 | The board or the turn changes only when the selected piece makes a legal move. |
| Interaction.SelectionShowsLegalMoves | ajedrez.py:402-409 | Without a selection, a click selects exactly a piece of the side to move and lists exactly its legal destinations. The board and the turn stay. |
| Interaction.PromotionKeepsColour | ajedrez.py:388-392 | A promoted pawn becomes a queen, rook, bishop or knight of the side that moved. |
| Symmetry.SwapCaseProperties | ajedrez.py:83-87 | Exchanging a piece's colour keeps its kind, exchanges its side, keeps whether two pieces are on the same side, and undone twice gives the piece back. |
| Symmetry.MirrorInvolution | ajedrez.py:181-192 | Turning the board upside down and exchanging colours, done twice, gives back the board. |
| Symmetry.InitialIsSymmetric | ajedrez.py:12-21 | The starting position is its own colour-mirrored image. |
| Symmetry.PawnMirror | ajedrez.py:100-111 | A pawn of one colour moves on the mirrored board exactly as a pawn of the other colour moves between the mirrored squares of the original board. |
| Symmetry.RookMirror | ajedrez.py:113-128 | The rook rule accepts a move on the mirrored board exactly when it accepts the mirrored move on the original board. |
| Symmetry.PathMirror | ajedrez.py:130-141 | The path between two squares of a line or diagonal is clear on the mirrored board exactly when the mirrored path is clear on the original board. |
| Symmetry.PseudoLegalMirror | ajedrez.py:77-153 | Every piece moves on the mirrored board exactly as the corresponding piece of the other colour moves on the original board. |
| Symmetry.AttackedMirror | ajedrez.py:186-192 | A square is attacked by one side on the mirrored board exactly when the mirrored square is attacked by the other side on the original board. |
| Symmetry.CheckMirror | ajedrez.py:181-192 | When a side has at most one king, it is in check exactly when the other side is in check on the mirrored board. |
| Interaction.Game.constructor | ajedrez.py:359-363 | A new game holds the starting position, with nothing selected and white to move. |
| Interaction.Game.Click | ajedrez.py:374-411 | A click outside the board changes nothing. A click on a square makes the state the `Step` transition of the old state, and the session stays consistent. |
| Interaction.Game.Play | ajedrez.py:386-399 | Playing the selected legal move in place yields the board, turn and selection that `Step` prescribes, including promotion and the closed-dialog case. |
| Interaction.Game.Put | ajedrez.py:386-387 | Writing one square in place changes the board exactly as `Set` does: that square gets the new content and no other square changes. |

## Left out

- Drawing and the window (`dibujar_*`, fonts, colours, `pygame.display`) are left out: they are calls into a graphics library.
- The promotion dialog's drawing and event loop (ajedrez.py:232-277) are replaced by the `promote` parameter. Only its choice set Q/T/A/C, in the pawn's case, is kept, and it is used by `PromotionKeepsColour`.
- The event dispatch of the game loop, quitting, the R key that toggles the view rotation, and all `print` logging are left out. The rotation flag is an input of `Click`.
- The game-information panel and its check/mate display (ajedrez.py:279-304) are left out as rendering.
- Squares are always 0..7 in the model. Python's negative-index wrap-around never occurs for the in-range squares the game produces, so it is not modelled.
- Symmetry.CheckMirror: it needs at most one king of the side checked. With two kings of one colour the scan takes the first one in row-major order, and reversing the rows can change which king that is.
- Upper and lower case are ASCII only. Python's Unicode case rules are not modelled, because the board only ever holds the twelve piece letters.
- Interaction.MoveCompletes: the "not in check afterwards" part is stated only for moves without promotion. After a promotion the destination holds the new piece instead of the pawn, and the model does not prove that this leaves the check status unchanged.
- After a closed promotion dialog the shown destinations (`moves`) are stale, because the selected square is now empty. The next click clears them; the model keeps them as the code does.
