/**
 * The starting position. The back ranks are spawned from two prefab index arrays; the prefab
 * arrays themselves are not part of this model, so which kind each index stands for is taken from
 * the comments beside the layout arrays (3 is the king, 4 the queen) and from the pawn rows
 * (0 is the pawn); indices 1, 2 and 5 are assumed to be the rook, the knight and the bishop.
 */
module Layout {
  import opened Squares
  import opened Moves
  import opened Attacks

  /** Prefab indices of the white back rank, file 0 to file 7. */
  const WhiteLayout: seq<nat> := [1, 2, 5, 4, 3, 5, 2, 1]

  /** Prefab indices of the black back rank, file 0 to file 7. */
  const BlackLayout: seq<nat> := [1, 2, 5, 3, 4, 5, 2, 1]

  /** The kind of piece each prefab index spawns (1, 2 and 5 are an assumption, see above). */
  function PrefabKind(i: nat): PieceType
    requires i < 6
  {
    [Pawn, Rook, Knight, King, Queen, Bishop][i]
  }

  /** Pawns on ranks 1 (white) and 6 (black), the layouts on ranks 0 (white) and 7 (black). */
  function InitialOccupant(x: int, y: int): Option<Man>
    requires 0 <= x < 8
  {
    if y == 1 then Some(Man(PrefabKind(0), true))
    else if y == 6 then Some(Man(PrefabKind(0), false))
    else if y == 0 then Some(Man(PrefabKind(WhiteLayout[x]), true))
    else if y == 7 then Some(Man(PrefabKind(BlackLayout[x]), false))
    else None
  }

  const InitialBoard: Grid := seq(8, x requires 0 <= x < 8 => seq(8, y => InitialOccupant(x, y)))

  /**
   * At the start each side has exactly one king: white's on (4, 0), black's on (3, 7); so the
   * check and checkmate queries are defined for both sides.
   */
  lemma InitialKings()
    ensures KingAt(InitialBoard, true) == Some(Square(4, 0))
    ensures KingAt(InitialBoard, false) == Some(Square(3, 7))
    ensures forall s :: IsKingOf(InitialBoard, s, true) ==> s == Square(4, 0)
    ensures forall s :: IsKingOf(InitialBoard, s, false) ==> s == Square(3, 7)
  {
    var g := InitialBoard;
    forall s | IsKingOf(g, s, true) ensures s == Square(4, 0) {
      assert s.y == 0;
      assert WhiteLayout[s.x] == 3;
    }
    UniqueKing(g, true, Square(4, 0));
    forall s | IsKingOf(g, s, false) ensures s == Square(3, 7) {
      assert s.y == 7;
      assert BlackLayout[s.x] == 3;
    }
    UniqueKing(g, false, Square(3, 7));
  }

  /** Ranks 0 and 1 are all white, ranks 6 and 7 all black, rank 1 and rank 6 all pawns, ranks 2 to 5 empty. */
  lemma InitialRanks(x: int)
    requires 0 <= x < 8
    ensures InitialBoard[x][1] == Some(Man(Pawn, true)) && InitialBoard[x][6] == Some(Man(Pawn, false))
    ensures InitialBoard[x][0].Some? && InitialBoard[x][0].value.isWhite
    ensures InitialBoard[x][7].Some? && !InitialBoard[x][7].value.isWhite
    ensures forall y :: 2 <= y < 6 ==> InitialBoard[x][y].None?
  {
  }
}
