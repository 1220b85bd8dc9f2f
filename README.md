# Default_Chess rules engine in Dafny

This project models the rules core of a two-player chess game built in Unity. The core is made of two classes:

- **The board manager** (`BoardManager.cs`) keeps an 8 x 8 array of piece references and a side-to-move flag. It sets up the start position and answers occupancy queries. It plays a move (capturing whatever stands on the target square, then passing the turn). It finds a side's king, decides whether a square is attacked, whether a side is in check and whether it is checkmated. To decide checkmate it plays every candidate move on the board, asks whether the mover is still in check, and undoes the move.
- **A piece** (`Piece.cs`) knows its kind, its colour and its square. It generates its pseudo-legal destination squares by looking at the board.

The model has five modules:

- `Squares` (squares.dfy): coordinates, the board bounds, the piece kinds and the fixed offset tables.
- `Moves` (moves.dfy): the board as a value, `Grid`, a column-major 8 x 8 `seq` of optional (kind, colour) pairs. It defines every move generator as a function that lists the destination squares in the same order as the source. Its lemmas state exactly which squares each list holds.
- `Attacks` (attacks.dfy): on a `Grid`, where a side's king is found, which squares a side attacks, the board after a hypothetical move, and what check and checkmate mean.
- `Layout` (layout.dfy): the start position built from the two back-rank layout arrays.
- `Chess` (chess.dfy): the two classes.
  - `Piece` has `const` kind and colour and a mutable `boardPosition`.
  - `BoardManager` has the `array2<Piece?>` board, the turn flag, a ghost `Board: Grid` kept in step with the array, and a ghost `Repr` holding every piece spawned on it.
  - `Valid()` says that `Board` describes the array cell by cell and that every occupant knows the cell it stands on.
  - Every loop of the source is a `while`/`for` loop with invariants. Each loop is proved against the `Moves`/`Attacks` functions on `Board`. In particular, the move-undo in the checkmate test is proved to give back exactly the board it started from.

Which kind each prefab index spawns is taken from the comments beside the layout arrays: 3 is the king, 4 the queen, 0 the pawn. Indices 1, 2 and 5 are taken to be the rook, the knight and the bishop.

## Model

| member | source | states |
|---|---|---|
| Squares.IsWithinBoard | Assets/Scripts/BoardManager.cs:142-145 | a square is on the board exactly when both coordinates lie in 0..7 |
| Chess.BoardManager.IsTileEmpty | Assets/Scripts/BoardManager.cs:109-114 | off the board is never empty; on the board, empty exactly when the array cell is null; agrees with the rules' `TileEmpty` on `Board` |
| Chess.BoardManager.IsEnemyAt | Assets/Scripts/BoardManager.cs:148-156 | false off the board and on an empty cell; otherwise true exactly when the occupant's colour differs; agrees with `EnemyAt` on `Board` |
| Chess.BoardManager.IsCurrentTurn | Assets/Scripts/BoardManager.cs:158-161 | a piece may be moved exactly when its colour is the side to move |
| Chess.BoardManager.NextTurn | Assets/Scripts/BoardManager.cs:163-166 | the side to move flips and nothing else changes |
| Chess.BoardManager.constructor | Assets/Scripts/BoardManager.cs:10-37 | a fresh board, white to move, holding exactly the start position `InitialBoard`, with every piece on the square it believes it is on |
| Chess.BoardManager.SetupBoard | Assets/Scripts/BoardManager.cs:39-57 | afterwards ranks 0, 1, 6 and 7 hold exactly the start position's occupants, ranks 2 to 5 are untouched, and the board stays consistent with its new pieces |
| Chess.BoardManager.SpawnPiece | Assets/Scripts/BoardManager.cs:60-68 | a new piece of the given kind and colour stands on `pos` and knows it; no other cell changes; the board value gains exactly that occupant |
| Chess.Piece.SetPosition | Assets/Scripts/Piece.cs:21-26 | the piece's square becomes `pos` |
| Chess.BoardManager.MovePiece | Assets/Scripts/BoardManager.cs:116-140 | the piece ends on `newPos`, which it knows; the cell it believed it stood on is empty; a captured piece is off the board; when that cell held another piece (a piece already captured being moved again), that piece is off the board too, as the source's clearing of the cell gives; every other cell is unchanged; the board value is the relocation of the piece; the turn passes; the result is whether the side now to move is checkmated, or `None` when that side has no king |
| Chess.BoardManager.PlacePiece | Assets/Scripts/BoardManager.cs:118-131 | the array part of a move: the piece stands on `newPos`, the target's old occupant and whatever held the piece's recorded cell are off the board, every other cell is unchanged, and the board value is the relocation over the capture |
| Chess.BoardManager.SetCell | Assets/Scripts/BoardManager.cs:125 | one array write: the cell holds the given piece (or nothing), no other cell changes, and the board value changes at that cell only |
| Chess.BoardManager.Shift | Assets/Scripts/BoardManager.cs:129-131 | lifting a piece off its recorded cell and setting it on `to`: that cell is empty, the piece stands on `to` and knows it, no other cell changes, and the board value is the relocation; the trial move and its undo (lines 267-269, 274) use the same writes |
| Chess.BoardManager.FindKing | Assets/Scripts/BoardManager.cs:191-206 | no result exactly when the side has no king; otherwise a king piece of that colour standing on its own cell, the first in file-then-rank scan order (`KingAt`) |
| Chess.BoardManager.IsTileAttacked | Assets/Scripts/BoardManager.cs:208-226 | true exactly when some piece of the given colour has the square in its move list (`Attacked`) |
| Chess.BoardManager.IsInCheck | Assets/Scripts/BoardManager.cs:228-232 | true exactly when the side's king stands on a square the other side attacks (`InCheck`); needs the king to exist, as the source dereferences it |
| Chess.BoardManager.IsCheckmate | Assets/Scripts/BoardManager.cs:234-259 | true exactly when the side is in check and every move of every own piece leaves it in check (`Checkmate`); the array, the board value and every piece's square are as before |
| Chess.BoardManager.PieceEscapes | Assets/Scripts/BoardManager.cs:243-254 | for one cell of the checkmate scan: true exactly when it holds an own piece with a move out of check; nothing changes |
| Chess.BoardManager.AnyMoveEscapes | Assets/Scripts/BoardManager.cs:249-253 | true exactly when some move in the list does not leave the side in check; every trial is undone |
| Chess.BoardManager.WouldStillBeInCheckAfterMove | Assets/Scripts/BoardManager.cs:261-279 | the result is whether the side is in check on the board after the trial move (`LeavesInCheck`); the array, the board value and the piece's square are restored exactly |
| Chess.Piece.GetAvailableMoves | Assets/Scripts/Piece.cs:53-65 | the list is the rules' `PieceMoves` for the piece's kind, colour and square on the current board |
| Chess.Piece.GetAvailableMovesForCheckTest | Assets/Scripts/Piece.cs:37-50 | the very same list as `GetAvailableMoves`, so attack testing uses ordinary moves |
| Chess.Piece.GetMovesInDirections | Assets/Scripts/Piece.cs:66-90 | the list is the concatenation, in direction order, of the rays from the piece's square (`Rays`) |
| Chess.Piece.GetPawnMoves | Assets/Scripts/Piece.cs:93-123 | the list is the pushes followed by the diagonal captures (`PawnMoves`) |
| Chess.Piece.GetRookMoves | Assets/Scripts/Piece.cs:125-130 | the list is the four orthogonal rays, up, down, left, right |
| Chess.Piece.GetBishopMoves | Assets/Scripts/Piece.cs:132-138 | the list is the four diagonal rays in source order |
| Chess.Piece.GetQueenMoves | Assets/Scripts/Piece.cs:140-147 | the list is the eight rays, orthogonal then diagonal |
| Chess.Piece.GetKingMoves | Assets/Scripts/Piece.cs:149-166 | the list is the eight unit offsets that land on an empty or enemy square, in source order |
| Chess.Piece.GetKnightMoves | Assets/Scripts/Piece.cs:168-186 | the list is the eight knight offsets that land on an empty or enemy square, in source order |
| Moves.RayMember | Assets/Scripts/Piece.cs:70-86 | step k of a walk is taken exactly when every earlier step is empty and step k is empty or an enemy |
| Moves.SlidingRay | Assets/Scripts/Piece.cs:70-86 | a ray holds only squares `from + k*d` with k >= 1: the run of empty squares, plus the first occupied one exactly when it holds an enemy |
| Moves.RaysMember | Assets/Scripts/Piece.cs:66-90 | a square is in the multi-direction list exactly when it is on the ray of one of the directions |
| Moves.QueenIsRookPlusBishop | Assets/Scripts/Piece.cs:140-147 | the queen's list is the rook's list followed by the bishop's, so its squares are their union |
| Moves.StepsMember | Assets/Scripts/Piece.cs:158-163 | a square is in a fixed-offset list exactly when it is one of the offsets from the piece and it is empty or an enemy; the list has at most as many entries as offsets |
| Moves.CapturesMember | Assets/Scripts/Piece.cs:113-120 | a square is in a capture list exactly when it is one of the offsets from the pawn and holds an enemy |
| Moves.KingMovesExactly | Assets/Scripts/Piece.cs:149-166 | the king's squares are exactly the adjacent squares that are empty or hold an enemy; at most eight |
| Moves.KnightMovesExactly | Assets/Scripts/Piece.cs:168-186 | the knight's squares are exactly the (1,2)/(2,1) jumps onto empty or enemy squares; at most eight |
| Moves.PawnCapturesDiagonal | Assets/Scripts/Piece.cs:110-120 | every pawn capture is one file aside and one rank forward, onto an enemy |
| Moves.PawnSingleStep | Assets/Scripts/Piece.cs:97-103 | the square straight ahead is offered exactly when it is on the board and empty |
| Moves.PawnDoubleStep | Assets/Scripts/Piece.cs:98-107 | two squares ahead is offered exactly from the home rank (1 for white, 6 for black) with both squares ahead empty; a blocked first square blocks both |
| Moves.PawnDiagonalCapture | Assets/Scripts/Piece.cs:110-120 | a forward diagonal square is offered exactly when an enemy stands on it |
| Moves.PawnForwardOnly | Assets/Scripts/Piece.cs:93-123 | a pawn moves only forward: one or two ranks straight on, or one rank diagonally |
| Moves.PawnOccupiedTarget | Assets/Scripts/Piece.cs:101-120 | on an occupied square the pawn's list offers exactly its diagonal captures, so reusing the move list for attacks never makes a pawn attack the square straight ahead |
| Moves.MovesAreOpen | Assets/Scripts/Piece.cs:37-186 | every destination of every generator is on the board and empty or enemy-occupied |
| Moves.MovesNeverFriendly | Assets/Scripts/Piece.cs:37-186 | no destination holds a piece of the mover's colour, and none is the piece's own square |
| Attacks.KingScanFinds | Assets/Scripts/BoardManager.cs:193-205 | the scan from a cell finds nothing exactly when every king of that colour lies earlier; otherwise it finds the first king at or after that cell |
| Attacks.KingAtSpec | Assets/Scripts/BoardManager.cs:191-206 | `KingAt` is empty exactly when the side has no king, is otherwise a king with no king before it in scan order, and is what the scan from (0, 0) returns |
| Attacks.UniqueKing | Assets/Scripts/BoardManager.cs:191-206 | with a single king of a colour on the board, the search finds that king |
| Attacks.RelocateOverCapture | Assets/Scripts/BoardManager.cs:118-131 | emptying the target before moving onto it gives the same board as moving onto it directly |
| Attacks.RelocateUndone | Assets/Scripts/BoardManager.cs:264-276 | moving the piece back and restoring the target's old occupant restores the board |
| Attacks.RelocateKeepsKing | Assets/Scripts/BoardManager.cs:264-271 | an own piece moved onto an empty or enemy square never takes its own king off the board, so the check query in the trial is defined |
| Attacks.OwnMoveKeepsKing | Assets/Scripts/BoardManager.cs:249-271 | every listed move of an own piece lands on an empty or enemy square and keeps the own king on the board |
| Attacks.MoveListOpen | Assets/Scripts/BoardManager.cs:249-250 | every entry of an own piece's move list is empty or enemy-occupied |
| Attacks.NoEscapeFromAll | Assets/Scripts/BoardManager.cs:249-254 | an own piece offers no escape exactly when every move in its list leaves the side in check |
| Attacks.EscapeIsNotMate | Assets/Scripts/BoardManager.cs:251-252 | one own piece with a move out of check rules checkmate out |
| Attacks.NoEscapeIsMate | Assets/Scripts/BoardManager.cs:236-258 | in check, with no own piece in the whole scan offering an escape, the side is checkmated |
| Attacks.RookDownTheFileGivesCheck | Assets/Scripts/BoardManager.cs:208-232 | a lone white king on rank 0 with an enemy rook at the far end of its empty file is found and is in check, the rook's list holding the king's square |
| Attacks.RookOnOpenFileGivesCheck | Assets/Scripts/BoardManager.cs:228-232 | king on (4, 0), enemy rook on (4, 7), nothing between: white is in check |
| Attacks.LoneKingNotInCheck | Assets/Scripts/BoardManager.cs:228-232 | a king of either colour alone on the board, on any square, is found there and is not in check |
| Attacks.CapturedKingIsGone | Assets/Scripts/BoardManager.cs:116-131 | capturing a side's only king leaves that side with no king |
| Attacks.KingCaptureLeavesNoKing | Assets/Scripts/BoardManager.cs:134-135 | a concrete position where a listed rook move takes the white king, after which white has no king for the check query |
| Layout.InitialKings | Assets/Scripts/BoardManager.cs:48-56 | at the start white's king is found on (4, 0) and black's on (3, 7), each the only one of its colour |
| Layout.InitialRanks | Assets/Scripts/BoardManager.cs:41-56 | at the start ranks 0 and 1 are white, 6 and 7 black, 1 and 6 all pawns, 2 to 5 empty |

## Left out

- Rendering and input: the board background, `BoardToWorldPos`, the move-tile pool, `HighlightTiles`, `ClearHighlights`, `OnMouseDown` in `Piece.cs` and `MoveTile.cs`. These are Unity scene work with no bearing on the rules.
- `StoreCaptured` and the captured-piece lists are left out. They only move a captured piece's picture to the side of the board, using floating-point screen positions. The model shows that a captured piece is off the board.
- `Debug.Log` on checkmate is left out. `MovePiece` returns the checkmate verdict instead.
- Chess.Piece.SetPosition: the transform update is not modelled, only the `boardPosition` write.
- The prefab arrays are scene data that is not part of this model. The kinds behind prefab indices 1, 2 and 5 are an assumption, as stated above.
- Each piece finds the board manager by a global scene lookup. In the model, the board is passed to every generator as a parameter.
- `PlacePiece`, `SetCell`, `Shift`, `PieceEscapes` and `AnyMoveEscapes` are named pieces of code that the source writes inline. They do the same array writes as the source, in the same order, except in the move-undo step described next.
- In the move-undo step of `WouldStillBeInCheckAfterMove`, the source writes the origin cell and then the target cell. The model clears the target, writes the origin, then restores the target. The final array is the same.
- Chess.BoardManager.MovePiece: when the move took the opponent's last king, the source fails with a null dereference inside the check query. The model returns `None` there and asks only when a king exists (see Findings).
- Chess.BoardManager.IsInCheck, IsCheckmate, WouldStillBeInCheckAfterMove: these require the relevant king to exist, because the source dereferences it.
- Castling, en passant, promotion, stalemate and draw rules are not part of the source and are not modelled.
- `int` coordinates are unbounded in the model. The source's 32-bit vectors never leave a small range around the board.

## Findings

| source | as written | input that shows it | evidently intended | confidence | as-written member | corrected member |
|---|---|---|---|---|---|---|
| Assets/Scripts/BoardManager.cs:134-135 | after every move the checkmate test runs on the opponent; it looks up the opponent's king and dereferences it | moves are pseudo-legal, so with a white king on (4, 0) and a black rook on (4, 7) on an open file, the rook's list holds (4, 0); after it is played, white has no king and the lookup returns null | report the king's capture, or never offer it, instead of failing | high, not executed | Attacks.KingCaptureLeavesNoKing | Chess.BoardManager.MovePiece |
