/** Board coordinates, ray directions, fixed offsets and piece kinds. */
module Squares {

  datatype Option<T> = None | Some(value: T)

  /** The six kinds of piece; the order is that of the `PieceType` enum. */
  datatype PieceType = Pawn | Rook | Knight | Bishop | Queen | King

  /** A board coordinate: file `x` and rank `y` (an integer vector, not yet known to be on the board). */
  datatype Square = Square(x: int, y: int) {
    function Plus(d: Square): Square { Square(x + d.x, y + d.y) }
    function Scale(k: int): Square { Square(k * x, k * y) }
  }

  /** The board is the 8 x 8 square [0, 8) x [0, 8). */
  function IsWithinBoard(pos: Square): (r: bool)
    ensures r <==> 0 <= pos.x < 8 && 0 <= pos.y < 8
  {
    pos.x >= 0 && pos.x < 8 && pos.y >= 0 && pos.y < 8
  }

  /** The square reached from `c` after `k` steps of `d`. */
  function Walk(c: Square, d: Square, k: nat): Square {
    Square(c.x + k * d.x, c.y + k * d.y)
  }

  /** One of the eight unit steps: orthogonal or diagonal, never the null vector. */
  predicate IsDirection(d: Square) {
    -1 <= d.x <= 1 && -1 <= d.y <= 1 && d != Square(0, 0)
  }

  predicate AllDirections(ds: seq<Square>) {
    forall i :: 0 <= i < |ds| ==> IsDirection(ds[i])
  }

  const Up := Square(0, 1)
  const Down := Square(0, -1)
  const Left := Square(-1, 0)
  const Right := Square(1, 0)

  /** The rook's rays, in the order the rook generator walks them. */
  const RookDirections: seq<Square> := [Up, Down, Left, Right]

  /** The bishop's rays, in the order the bishop generator walks them. */
  const BishopDirections: seq<Square> := [Square(1, 1), Square(-1, 1), Square(1, -1), Square(-1, -1)]

  /** The queen walks the four orthogonal rays and then the four diagonal ones. */
  const QueenDirections: seq<Square> := RookDirections + BishopDirections

  /** The king's eight unit offsets, in the same order as the queen's rays. */
  const KingDirections: seq<Square> := QueenDirections

  /** The knight's eight offsets, in the order the knight generator tries them. */
  const KnightDeltas: seq<Square> := [
    Square(1, 2), Square(2, 1), Square(-1, 2), Square(-2, 1),
    Square(1, -2), Square(2, -1), Square(-1, -2), Square(-2, -1)
  ]
}
