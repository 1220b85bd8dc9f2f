/**
 * The board manager and its pieces. The board is an 8 x 8 array of optional piece references with
 * a side-to-move flag; each piece knows its kind, its colour and the square it stands on, and
 * generates its pseudo-legal moves by walking the board. Every loop here is proved against the
 * board-value specifications of modules Moves and Attacks, read off the ghost board value `Board` that the
 * board manager keeps in step with its array.
 */
module Chess {
  import opened Squares
  import opened Moves
  import opened Attacks
  import opened Layout

  /** The rules' view of an array cell. */
  function Describe(p: Piece?): Option<Man> {
    if p == null then None else Some(p.AsMan())
  }

  /** The board value with no piece on it. */
  const EmptyBoard: Grid := seq(8, _ => seq(8, _ => None))

  class Piece {
    const kind: PieceType
    const isWhite: bool
    var boardPosition: Square

    constructor (kind: PieceType, isWhite: bool)
      ensures this.kind == kind && this.isWhite == isWhite && boardPosition == Square(0, 0)
    {
      this.kind := kind;
      this.isWhite := isWhite;
      boardPosition := Square(0, 0);
    }

    function AsMan(): Man {
      Man(kind, isWhite)
    }

    method SetPosition(pos: Square)
      modifies this
      ensures boardPosition == pos
    {
      boardPosition := pos;
    }

    /** The moves offered to the player: the generator for this piece's kind. */
    method GetAvailableMoves(board: BoardManager) returns (moves: seq<Square>)
      requires board.Synced()
      ensures moves == PieceMoves(board.Board, AsMan(), boardPosition)
    {
      match kind
      case Pawn => moves := GetPawnMoves(board);
      case Rook => moves := GetRookMoves(board);
      case Bishop => moves := GetBishopMoves(board);
      case Queen => moves := GetQueenMoves(board);
      case King => moves := GetKingMoves(board);
      case Knight => moves := GetKnightMoves(board);
    }

    /** The moves used for attack testing: the very same generators as for offering moves. */
    method GetAvailableMovesForCheckTest(board: BoardManager) returns (moves: seq<Square>)
      requires board.Synced()
      ensures moves == PieceMoves(board.Board, AsMan(), boardPosition)
    {
      match kind
      case Pawn => moves := GetPawnMoves(board);
      case Rook => moves := GetRookMoves(board);
      case Bishop => moves := GetBishopMoves(board);
      case Queen => moves := GetQueenMoves(board);
      case King => moves := GetKingMoves(board);
      case Knight => moves := GetKnightMoves(board);
    }

    /** Walks each direction in turn until the edge or the first occupied square. */
    method GetMovesInDirections(board: BoardManager, directions: seq<Square>) returns (moves: seq<Square>)
      requires board.Synced() && AllDirections(directions)
      ensures moves == Rays(board.Board, boardPosition, directions, isWhite)
    {
      ghost var g := board.Board;
      moves := [];
      for i := 0 to |directions|
        invariant board.Synced() && board.Board == g
        invariant moves == Rays(g, boardPosition, directions[..i], isWhite)
      {
        var dir := directions[i];
        assert directions[..i + 1][..i] == directions[..i];
        ghost var total := Rays(g, boardPosition, directions[..i + 1], isWhite);
        assert total == moves + Ray(g, boardPosition.Plus(dir), dir, isWhite);
        var current := boardPosition.Plus(dir);
        while IsWithinBoard(current)
          invariant board.Synced() && board.Board == g
          invariant moves + Ray(g, current, dir, isWhite) == total
          decreases Dist(current, dir)
        {
          if board.IsTileEmpty(current) {
            assert Ray(g, current, dir, isWhite) == [current] + Ray(g, current.Plus(dir), dir, isWhite);
            moves := moves + [current];
          } else {
            if board.IsEnemyAt(current, isWhite) {
              assert Ray(g, current, dir, isWhite) == [current];
              moves := moves + [current];
            } else {
              assert Ray(g, current, dir, isWhite) == [];
            }
            break;
          }
          DistShrinks(current, dir);
          current := current.Plus(dir);
        }
        assert moves == total;
      }
      assert directions[..|directions|] == directions;
    }

    /** Single step, double step from the home rank, diagonal captures. */
    method GetPawnMoves(board: BoardManager) returns (moves: seq<Square>)
      requires board.Synced()
      ensures moves == PawnMoves(board.Board, boardPosition, isWhite)
    {
      ghost var g := board.Board;
      moves := [];
      var forward := if isWhite then Up else Down;
      var next1 := boardPosition.Plus(forward);
      var next2 := boardPosition.Plus(forward.Scale(2));
      if board.IsTileEmpty(next1) {
        moves := moves + [next1];
        var onStartRow := (isWhite && boardPosition.y == 1) || (!isWhite && boardPosition.y == 6);
        if onStartRow && board.IsTileEmpty(next2) {
          moves := moves + [next2];
        }
      }
      var diagonals := [Square(1, 1), Square(-1, 1)];
      if !isWhite {
        diagonals := [Square(1, -1), Square(-1, -1)];
      }
      assert moves == PawnPushes(g, boardPosition, isWhite);
      ghost var straight := moves;
      for i := 0 to |diagonals|
        invariant board.Synced() && board.Board == g
        invariant moves == straight + Captures(g, boardPosition, diagonals[..i], isWhite)
      {
        assert diagonals[..i + 1][..i] == diagonals[..i];
        var targetPos := boardPosition.Plus(diagonals[i]);
        if board.IsEnemyAt(targetPos, isWhite) {
          moves := moves + [targetPos];
        }
      }
      assert diagonals[..|diagonals|] == diagonals == PawnDiagonals(isWhite);
    }

    method GetRookMoves(board: BoardManager) returns (moves: seq<Square>)
      requires board.Synced()
      ensures moves == RookMoves(board.Board, boardPosition, isWhite)
    {
      moves := GetMovesInDirections(board, [Up, Down, Left, Right]);
    }

    method GetBishopMoves(board: BoardManager) returns (moves: seq<Square>)
      requires board.Synced()
      ensures moves == BishopMoves(board.Board, boardPosition, isWhite)
    {
      moves := GetMovesInDirections(board, [Square(1, 1), Square(-1, 1), Square(1, -1), Square(-1, -1)]);
    }

    method GetQueenMoves(board: BoardManager) returns (moves: seq<Square>)
      requires board.Synced()
      ensures moves == QueenMoves(board.Board, boardPosition, isWhite)
    {
      var directions := [
        Up, Down, Left, Right,
        Square(1, 1), Square(-1, 1), Square(1, -1), Square(-1, -1)
      ];
      assert directions == QueenDirections;
      moves := GetMovesInDirections(board, directions);
    }

    method GetKingMoves(board: BoardManager) returns (moves: seq<Square>)
      requires board.Synced()
      ensures moves == KingMoves(board.Board, boardPosition, isWhite)
    {
      ghost var g := board.Board;
      moves := [];
      var directions := [
        Up, Down, Left, Right,
        Square(1, 1), Square(-1, 1), Square(1, -1), Square(-1, -1)
      ];
      for i := 0 to |directions|
        invariant board.Synced() && board.Board == g
        invariant moves == Steps(g, boardPosition, directions[..i], isWhite)
      {
        assert directions[..i + 1][..i] == directions[..i];
        var target := boardPosition.Plus(directions[i]);
        if board.IsTileEmpty(target) || board.IsEnemyAt(target, isWhite) {
          moves := moves + [target];
        }
      }
      assert directions[..|directions|] == directions == KingDirections;
    }

    method GetKnightMoves(board: BoardManager) returns (moves: seq<Square>)
      requires board.Synced()
      ensures moves == KnightMoves(board.Board, boardPosition, isWhite)
    {
      ghost var g := board.Board;
      moves := [];
      var deltas := [
        Square(1, 2), Square(2, 1), Square(-1, 2), Square(-2, 1),
        Square(1, -2), Square(2, -1), Square(-1, -2), Square(-2, -1)
      ];
      for i := 0 to |deltas|
        invariant board.Synced() && board.Board == g
        invariant moves == Steps(g, boardPosition, deltas[..i], isWhite)
      {
        assert deltas[..i + 1][..i] == deltas[..i];
        var target := boardPosition.Plus(deltas[i]);
        if board.IsTileEmpty(target) || board.IsEnemyAt(target, isWhite) {
          moves := moves + [target];
        }
      }
      assert deltas[..|deltas|] == deltas == KnightDeltas;
    }
  }

  class BoardManager {
    var pieces: array2<Piece?>
    var whiteTurn: bool
    /** The board as a value: what each cell of `pieces` holds, as the rules see it. */
    ghost var Board: Grid
    /** Every piece ever spawned on this board, captured ones included. */
    ghost var Repr: set<Piece>

    predicate WellFormed()
      reads this
    {
      pieces.Length0 == 8 && pieces.Length1 == 8
    }

    /** `Board` describes the array cell by cell. */
    ghost predicate Synced()
      reads this, pieces
    {
      WellFormed() &&
      forall x, y {:trigger pieces[x, y]} :: 0 <= x < 8 && 0 <= y < 8 ==> Board[x][y] == Describe(pieces[x, y])
    }

    /**
     * `Board` describes the array, and each occupant of a cell is one of this board's pieces and
     * knows it stands on that cell.
     */
    ghost predicate Valid()
      reads this, pieces, Repr
    {
      Synced() &&
      forall x, y :: 0 <= x < 8 && 0 <= y < 8 && pieces[x, y] != null ==>
        pieces[x, y] in Repr && pieces[x, y].boardPosition == Square(x, y)
    }

    /** A fresh board with the starting position, white to move. */
    constructor ()
      ensures Valid() && fresh(pieces) && fresh(Repr)
      ensures whiteTurn
      ensures Board == InitialBoard
    {
      pieces := new Piece?[8, 8]((_, _) => null);
      whiteTurn := true;
      Board := EmptyBoard;
      Repr := {};
      new;
      SetupBoard();
      forall x, y | 0 <= x < 8 && 0 <= y < 8 ensures Board[x][y] == InitialBoard[x][y] {
        assert Board[x][y] == Describe(pieces[x, y]);
      }
      GridExtensionality(Board, InitialBoard);
    }

    /** Pawns on ranks 6 and 1, then the white back rank on rank 0, then the black one on rank 7. */
    method SetupBoard()
      requires Valid()
      modifies this`Repr, this`Board, pieces
      ensures Valid() && fresh(Repr - old(Repr))
      ensures forall x, y :: 0 <= x < 8 && 0 <= y < 8 && (y == 0 || y == 1 || y == 6 || y == 7) ==>
                Describe(pieces[x, y]) == InitialOccupant(x, y)
      ensures forall x, y :: 0 <= x < 8 && 2 <= y < 6 ==> pieces[x, y] == old(pieces[x, y])
    {
      for x := 0 to 8
        invariant Valid() && fresh(Repr - old(Repr))
        invariant forall i, j :: 0 <= i < x && (j == 1 || j == 6) ==> Describe(pieces[i, j]) == InitialOccupant(i, j)
        invariant forall i, j :: 0 <= i < 8 && 0 <= j < 8 && !(i < x && (j == 1 || j == 6)) ==>
                    pieces[i, j] == old(pieces[i, j])
      {
        SpawnPiece(PrefabKind(0), Square(x, 6), false);
        SpawnPiece(PrefabKind(0), Square(x, 1), true);
      }
      for x := 0 to 8
        invariant Valid() && fresh(Repr - old(Repr))
        invariant forall i, j :: 0 <= i < 8 && (j == 1 || j == 6) ==> Describe(pieces[i, j]) == InitialOccupant(i, j)
        invariant forall i :: 0 <= i < x ==> Describe(pieces[i, 0]) == InitialOccupant(i, 0)
        invariant forall i, j :: 0 <= i < 8 && 2 <= j < 8 && j != 6 ==> pieces[i, j] == old(pieces[i, j])
      {
        SpawnPiece(PrefabKind(WhiteLayout[x]), Square(x, 0), true);
      }
      for x := 0 to 8
        invariant Valid() && fresh(Repr - old(Repr))
        invariant forall i, j :: 0 <= i < 8 && (j == 0 || j == 1 || j == 6) ==> Describe(pieces[i, j]) == InitialOccupant(i, j)
        invariant forall i :: 0 <= i < x ==> Describe(pieces[i, 7]) == InitialOccupant(i, 7)
        invariant forall i, j :: 0 <= i < 8 && 2 <= j < 6 ==> pieces[i, j] == old(pieces[i, j])
      {
        SpawnPiece(PrefabKind(BlackLayout[x]), Square(x, 7), false);
      }
    }

    /** Creates a piece of the given kind and colour on `pos`, replacing whatever the cell held. */
    method SpawnPiece(kind: PieceType, pos: Square, isWhite: bool)
      requires Valid() && IsWithinBoard(pos)
      modifies this`Repr, this`Board, pieces
      ensures Valid()
      ensures pieces[pos.x, pos.y] != null && fresh(pieces[pos.x, pos.y])
      ensures pieces[pos.x, pos.y].kind == kind && pieces[pos.x, pos.y].isWhite == isWhite
      ensures pieces[pos.x, pos.y].boardPosition == pos
      ensures Repr == old(Repr) + {pieces[pos.x, pos.y]}
      ensures forall x, y :: 0 <= x < 8 && 0 <= y < 8 && Square(x, y) != pos ==> pieces[x, y] == old(pieces[x, y])
      ensures Board == old(Board)[pos.x := old(Board)[pos.x][pos.y := Some(Man(kind, isWhite))]]
    {
      var piece := new Piece(kind, isWhite);
      piece.SetPosition(pos);
      pieces[pos.x, pos.y] := piece;
      Board := Board[pos.x := Board[pos.x][pos.y := Some(Man(kind, isWhite))]];
      Repr := Repr + {piece};
    }

    /** Off the board counts as not empty. */
    function IsTileEmpty(pos: Square): (r: bool)
      reads this, pieces
      requires Synced()
      ensures !IsWithinBoard(pos) ==> !r
      ensures IsWithinBoard(pos) ==> (r <==> pieces[pos.x, pos.y] == null)
      ensures r == TileEmpty(Board, pos)
    {
      if pos.x < 0 || pos.x >= 8 || pos.y < 0 || pos.y >= 8 then false
      else pieces[pos.x, pos.y] == null
    }

    /** Off the board or on an empty cell there is no enemy. */
    function IsEnemyAt(pos: Square, isWhite: bool): (r: bool)
      reads this, pieces
      requires Synced()
      ensures !IsWithinBoard(pos) || pieces[pos.x, pos.y] == null ==> !r
      ensures IsWithinBoard(pos) && pieces[pos.x, pos.y] != null ==> (r <==> pieces[pos.x, pos.y].isWhite != isWhite)
      ensures r == EnemyAt(Board, pos, isWhite)
    {
      if pos.x < 0 || pos.x >= 8 || pos.y < 0 || pos.y >= 8 then false
      else
        var target := pieces[pos.x, pos.y];
        if target == null then false
        else target.isWhite != isWhite
    }

    function IsCurrentTurn(piece: Piece): (r: bool)
      reads this
      ensures r <==> piece.isWhite == whiteTurn
    {
      piece.isWhite == whiteTurn
    }

    method NextTurn()
      modifies this`whiteTurn
      ensures whiteTurn == !old(whiteTurn)
    {
      whiteTurn := !whiteTurn;
    }

    /**
     * Moves `piece` to `newPos`, capturing any occupant there, and passes the turn. Then asks
     * whether the side now to move is checkmated: `None` when that side has no king left (the
     * check query would dereference a missing king), otherwise whether it is checkmated.
     */
    method MovePiece(piece: Piece, newPos: Square) returns (checkmate: Option<bool>)
      requires Valid()
      requires piece in Repr && IsWithinBoard(piece.boardPosition)
      requires IsWithinBoard(newPos)
      modifies this, pieces, Repr
      ensures Valid() && pieces == old(pieces) && Repr == old(Repr)
      ensures old(piece.boardPosition) != newPos ==> pieces[old(piece.boardPosition.x), old(piece.boardPosition.y)] == null
      ensures pieces[newPos.x, newPos.y] == piece && piece.boardPosition == newPos
      ensures var target := old(pieces[newPos.x, newPos.y]);
              target != null && target != piece ==>
                forall x, y :: 0 <= x < 8 && 0 <= y < 8 ==> pieces[x, y] != target
      ensures var stale := old(pieces[piece.boardPosition.x, piece.boardPosition.y]);
              stale != null && stale != piece ==>
                forall x, y :: 0 <= x < 8 && 0 <= y < 8 ==> pieces[x, y] != stale
      ensures forall x, y :: 0 <= x < 8 && 0 <= y < 8 && Square(x, y) != newPos && Square(x, y) != old(piece.boardPosition) ==>
                pieces[x, y] == old(pieces[x, y])
      ensures forall p :: p in Repr && p != piece ==> p.boardPosition == old(p.boardPosition)
      ensures Board == Relocate(old(Board), old(piece.boardPosition), newPos, piece.AsMan())
      ensures whiteTurn == !old(whiteTurn)
      ensures checkmate == if KingAt(Board, !piece.isWhite).None? then None
                           else Some(Checkmate(Board, !piece.isWhite))
    {
      PlacePiece(piece, newPos);
      NextTurn();
      var king := FindKing(!piece.isWhite);
      if king.None? {
        checkmate := None;
      } else {
        var mate := IsCheckmate(!piece.isWhite);
        checkmate := Some(mate);
      }
    }

    /** The grid part of a move: takes whatever stands on `newPos` off the board, then moves `piece` there. */
    method PlacePiece(piece: Piece, newPos: Square)
      requires Valid()
      requires piece in Repr && IsWithinBoard(piece.boardPosition)
      requires IsWithinBoard(newPos)
      modifies this`Board, pieces, piece
      ensures Valid()
      ensures old(piece.boardPosition) != newPos ==> pieces[old(piece.boardPosition.x), old(piece.boardPosition.y)] == null
      ensures pieces[newPos.x, newPos.y] == piece && piece.boardPosition == newPos
      ensures var target := old(pieces[newPos.x, newPos.y]);
              target != null && target != piece ==>
                forall x, y :: 0 <= x < 8 && 0 <= y < 8 ==> pieces[x, y] != target
      ensures var stale := old(pieces[piece.boardPosition.x, piece.boardPosition.y]);
              stale != null && stale != piece ==>
                forall x, y :: 0 <= x < 8 && 0 <= y < 8 ==> pieces[x, y] != stale
      ensures forall x, y :: 0 <= x < 8 && 0 <= y < 8 && Square(x, y) != newPos && Square(x, y) != old(piece.boardPosition) ==>
                pieces[x, y] == old(pieces[x, y])
      ensures Board == Relocate(old(Board), old(piece.boardPosition), newPos, piece.AsMan())
    {
      ghost var from := piece.boardPosition;
      var target := pieces[newPos.x, newPos.y];
      if target != null {
        SetCell(newPos, null);
      }
      Shift(piece, newPos);
      RelocateOverCapture(old(Board), from, newPos, piece.AsMan());
    }

    /** Writes `p` into the cell `at`, keeping `Board` in step with the array. */
    method SetCell(at: Square, p: Piece?)
      requires Valid() && IsWithinBoard(at)
      requires p != null ==> p in Repr && p.boardPosition == at
      modifies this`Board, pieces
      ensures Valid() && Board == Put(old(Board), at, Describe(p))
      ensures pieces[at.x, at.y] == p
      ensures forall x, y :: 0 <= x < 8 && 0 <= y < 8 && Square(x, y) != at ==> pieces[x, y] == old(pieces[x, y])
    {
      pieces[at.x, at.y] := p;
      Board := Put(Board, at, Describe(p));
    }

    /**
     * Lifts `piece` off its square and sets it down on `to`, over whatever stood there: the array
     * writes that a real move and a trial move share.
     */
    method Shift(piece: Piece, to: Square)
      requires Valid() && piece in Repr && IsWithinBoard(piece.boardPosition) && IsWithinBoard(to)
      modifies this`Board, pieces, piece
      ensures Valid() && Board == Relocate(old(Board), old(piece.boardPosition), to, piece.AsMan())
      ensures pieces[to.x, to.y] == piece && piece.boardPosition == to
      ensures old(piece.boardPosition) != to ==> pieces[old(piece.boardPosition.x), old(piece.boardPosition.y)] == null
      ensures forall x, y :: 0 <= x < 8 && 0 <= y < 8 && Square(x, y) != to && Square(x, y) != old(piece.boardPosition) ==>
                pieces[x, y] == old(pieces[x, y])
    {
      var from := piece.boardPosition;
      SetCell(from, null);
      forall x, y | 0 <= x < 8 && 0 <= y < 8 && pieces[x, y] != null ensures pieces[x, y] != piece {
      }
      piece.SetPosition(to);
      SetCell(to, piece);
    }

    /** The first king of the given colour in scan order, if any. */
    method FindKing(white: bool) returns (king: Option<Piece>)
      requires Valid()
      ensures king.None? <==> forall s :: !IsKingOf(Board, s, white)
      ensures king.Some? ==>
                king.value.kind == King && king.value.isWhite == white &&
                IsWithinBoard(king.value.boardPosition) &&
                pieces[king.value.boardPosition.x, king.value.boardPosition.y] == king.value
      ensures king.None? <==> KingAt(Board, white).None?
      ensures king.Some? ==> KingAt(Board, white) == Some(king.value.boardPosition)
    {
      ghost var g := Board;
      KingAtSpec(g, white);
      for x := 0 to 8
        invariant Valid() && Board == g
        invariant KingScan(g, white, x, 0) == KingAt(g, white)
      {
        for y := 0 to 8
          invariant Valid() && Board == g
          invariant KingScan(g, white, x, y) == KingAt(g, white)
        {
          var obj := pieces[x, y];
          if obj == null {
            continue;
          }
          var p := obj;
          if p.kind == King && p.isWhite == white {
            return Some(p);
          }
        }
      }
      return None;
    }

    /** Whether some piece of colour `byWhite` offers `pos` among its moves. */
    method IsTileAttacked(pos: Square, byWhite: bool) returns (attacked: bool)
      requires Valid()
      ensures attacked == Attacked(Board, pos, byWhite)
    {
      ghost var g := Board;
      for x := 0 to 8
        invariant Valid() && Board == g
        invariant NoAttackerBefore(g, pos, byWhite, Square(x, 0))
      {
        for y := 0 to 8
          invariant Valid() && Board == g
          invariant NoAttackerBefore(g, pos, byWhite, Square(x, y))
        {
          var obj := pieces[x, y];
          if obj == null {
            NoAttackerNext(g, pos, byWhite, x, y);
            continue;
          }
          var p := obj;
          assert g[x][y] == Some(p.AsMan()) && p.boardPosition == Square(x, y);
          if p.isWhite != byWhite {
            NoAttackerNext(g, pos, byWhite, x, y);
            continue;
          }
          var moves := p.GetAvailableMovesForCheckTest(this);
          assert moves == PieceMoves(g, p.AsMan(), Square(x, y));
          if pos in moves {
            assert AttacksFrom(g, Square(x, y), pos, byWhite);
            return true;
          }
          NoAttackerNext(g, pos, byWhite, x, y);
        }
        assert NoAttackerBefore(g, pos, byWhite, Square(x + 1, 0)) by {
          assert forall s :: ScannedBefore(s, Square(x + 1, 0)) ==> ScannedBefore(s, Square(x, 8)) || !IsWithinBoard(s);
        }
      }
      NoAttackerAtAll(g, pos, byWhite);
      return false;
    }

    /** Whether the king of colour `white` stands on a square the other colour attacks. */
    method IsInCheck(white: bool) returns (inCheck: bool)
      requires Valid() && KingAt(Board, white).Some?
      ensures inCheck == InCheck(Board, white)
    {
      var king := FindKing(white);
      inCheck := IsTileAttacked(king.value.boardPosition, !white);
    }

    /** In check, and no pseudo-legal move of any own piece gets out of check. */
    method IsCheckmate(white: bool) returns (mate: bool)
      requires Valid() && KingAt(Board, white).Some?
      modifies this`Board, pieces, Repr
      ensures Valid() && Board == old(Board) && Repr == old(Repr)
      ensures forall x, y :: 0 <= x < 8 && 0 <= y < 8 ==> pieces[x, y] == old(pieces[x, y])
      ensures forall q :: q in Repr ==> q.boardPosition == old(q.boardPosition)
      ensures mate == Checkmate(Board, white)
    {
      var inCheck := IsInCheck(white);
      if !inCheck {
        return false;
      }
      ghost var g := Board;
      for x := 0 to 8
        invariant Valid() && Board == g && Repr == old(Repr)
        invariant forall x, y :: 0 <= x < 8 && 0 <= y < 8 ==> pieces[x, y] == old(pieces[x, y])
        invariant forall q :: q in Repr ==> q.boardPosition == old(q.boardPosition)
        invariant NoEscapeBefore(g, white, Square(x, 0))
      {
        for y := 0 to 8
          invariant Valid() && Board == g && Repr == old(Repr)
          invariant forall x, y :: 0 <= x < 8 && 0 <= y < 8 ==> pieces[x, y] == old(pieces[x, y])
          invariant forall q :: q in Repr ==> q.boardPosition == old(q.boardPosition)
          invariant NoEscapeBefore(g, white, Square(x, y))
        {
          var escape := PieceEscapes(x, y, white);
          if escape {
            EscapeIsNotMate(g, white, Square(x, y));
            return false;
          }
          NoEscapeNext(g, white, x, y);
        }
        NoEscapeNextFile(g, white, x);
      }
      NoEscapeIsMate(g, white);
      return true;
    }

    /** The body of the checkmate scan for one cell: whether the piece there, if it is an own one, has a move out of check. */
    method PieceEscapes(x: int, y: int, white: bool) returns (escape: bool)
      requires Valid() && KingAt(Board, white).Some? && 0 <= x < 8 && 0 <= y < 8
      modifies this`Board, pieces, Repr
      ensures Valid() && Board == old(Board) && Repr == old(Repr)
      ensures forall x, y :: 0 <= x < 8 && 0 <= y < 8 ==> pieces[x, y] == old(pieces[x, y])
      ensures forall q :: q in Repr ==> q.boardPosition == old(q.boardPosition)
      ensures escape <==> !NoEscapeFrom(Board, white, Square(x, y))
    {
      ghost var g := Board;
      var obj := pieces[x, y];
      if obj == null {
        return false;
      }
      var p := obj;
      assert p in Repr && g[x][y] == Some(p.AsMan()) && p.boardPosition == Square(x, y);
      if p.isWhite != white {
        return false;
      }
      var moves := p.GetAvailableMoves(this);
      MoveListOpen(g, white, Square(x, y), moves);
      NoEscapeFromAll(g, white, Square(x, y), moves);
      escape := AnyMoveEscapes(p, moves);
    }

    /**
     * The loop of the checkmate test over the moves of one own piece `p`: whether one of them
     * takes its side out of check.
     */
    method AnyMoveEscapes(p: Piece, moves: seq<Square>) returns (escape: bool)
      requires Valid() && KingAt(Board, p.isWhite).Some?
      requires IsWithinBoard(p.boardPosition) && pieces[p.boardPosition.x, p.boardPosition.y] == p
      requires forall j :: 0 <= j < |moves| ==> Open(Board, moves[j], p.isWhite)
      modifies this`Board, pieces, p
      ensures Valid() && Board == old(Board)
      ensures forall x, y :: 0 <= x < 8 && 0 <= y < 8 ==> pieces[x, y] == old(pieces[x, y])
      ensures escape <==> exists j :: 0 <= j < |moves| && !LeavesInCheck(old(Board), old(p.boardPosition), moves[j], p.isWhite)
    {
      for i := 0 to |moves|
        invariant Valid() && Board == old(Board) && p.boardPosition == old(p.boardPosition)
        invariant forall x, y :: 0 <= x < 8 && 0 <= y < 8 ==> pieces[x, y] == old(pieces[x, y])
        invariant forall j :: 0 <= j < i ==> LeavesInCheck(old(Board), old(p.boardPosition), moves[j], p.isWhite)
      {
        RelocateKeepsKing(Board, p.boardPosition, moves[i], p.isWhite);
        label Trial:
        var still := WouldStillBeInCheckAfterMove(p, moves[i]);
        forall x, y | 0 <= x < 8 && 0 <= y < 8 ensures pieces[x, y] == old(pieces[x, y]) {
          assert pieces[x, y] == old@Trial(pieces[x, y]);
        }
        if !still {
          return true;
        }
      }
      return false;
    }

    /**
     * Plays `piece` to `toPos` on the board, asks whether its side is still in check, and puts
     * both the piece and whatever stood on `toPos` back.
     */
    method WouldStillBeInCheckAfterMove(piece: Piece, toPos: Square) returns (stillInCheck: bool)
      requires Valid()
      requires IsWithinBoard(piece.boardPosition) && pieces[piece.boardPosition.x, piece.boardPosition.y] == piece
      requires IsWithinBoard(toPos)
      requires KingAt(Relocate(Board, piece.boardPosition, toPos, piece.AsMan()), piece.isWhite).Some?
      modifies this`Board, pieces, piece
      ensures Valid() && Board == old(Board) && piece.boardPosition == old(piece.boardPosition)
      ensures forall x, y :: 0 <= x < 8 && 0 <= y < 8 ==> pieces[x, y] == old(pieces[x, y])
      ensures stillInCheck == LeavesInCheck(old(Board), old(piece.boardPosition), toPos, piece.isWhite)
    {
      ghost var g := Board;
      var originalPos := piece.boardPosition;
      var targetPiece := pieces[toPos.x, toPos.y];
      Shift(piece, toPos);
      stillInCheck := IsInCheck(piece.isWhite);
      Shift(piece, originalPos);
      SetCell(toPos, targetPiece);
      RelocateUndone(g, originalPos, toPos, piece.AsMan());
      assert forall x, y :: 0 <= x < 8 && 0 <= y < 8 ==> pieces[x, y] == old(pieces[x, y]);
    }
  }
}
