/**
 * Attack, check and checkmate on a board value: where a side's king is found, which squares a side
 * attacks, the board after a hypothetical move, and what it means to be in check or checkmated.
 */
module Attacks {
  import opened Squares
  import opened Moves

  /** The square `s` holds the king of colour `white`. */
  predicate IsKingOf(g: Grid, s: Square, white: bool) {
    IsWithinBoard(s) && g[s.x][s.y] == Some(Man(King, white))
  }

  /** `a` comes strictly before `b` in the board scan: file by file, rank by rank within a file. */
  predicate ScannedBefore(a: Square, b: Square) {
    a.x < b.x || (a.x == b.x && a.y < b.y)
  }

  /** The first king of colour `white` that the scan meets from cell (x, y) on. */
  function KingScan(g: Grid, white: bool, x: nat, y: nat): Option<Square>
    decreases 8 - x, 8 - y
  {
    if x >= 8 then None
    else if y >= 8 then KingScan(g, white, x + 1, 0)
    else if IsKingOf(g, Square(x, y), white) then Some(Square(x, y))
    else KingScan(g, white, x, y + 1)
  }

  /** `s` holds a king of colour `white` and no such king comes before it in scan order. */
  ghost predicate IsFirstKing(g: Grid, s: Square, white: bool) {
    IsKingOf(g, s, white) && forall s' :: IsKingOf(g, s', white) ==> !ScannedBefore(s', s)
  }

  /** Where the king of colour `white` stands, if there is one: the first one in scan order. */
  ghost function KingAt(g: Grid, white: bool): Option<Square> {
    if exists s :: IsFirstKing(g, s, white) then Some(var s :| IsFirstKing(g, s, white); s) else None
  }

  lemma {:induction false} KingScanFinds(g: Grid, white: bool, x: nat, y: nat)
    requires x <= 8 && y <= 8
    ensures KingScan(g, white, x, y).None? <==>
              forall s :: IsKingOf(g, s, white) ==> ScannedBefore(s, Square(x, y))
    ensures KingScan(g, white, x, y).Some? ==>
              var k := KingScan(g, white, x, y).value;
              IsKingOf(g, k, white) && !ScannedBefore(k, Square(x, y)) &&
              forall s :: IsKingOf(g, s, white) && ScannedBefore(s, k) ==> ScannedBefore(s, Square(x, y))
    decreases 8 - x, 8 - y
  {
    if x >= 8 {
    } else if y >= 8 {
      KingScanFinds(g, white, x + 1, 0);
    } else if !IsKingOf(g, Square(x, y), white) {
      KingScanFinds(g, white, x, y + 1);
    }
  }

  /** There is at most one first king. */
  lemma FirstKingUnique(g: Grid, a: Square, b: Square, white: bool)
    requires IsFirstKing(g, a, white) && IsFirstKing(g, b, white)
    ensures a == b
  {
  }

  /**
   * The king search finds nothing exactly when no king of that colour is on the board; otherwise it
   * finds a king of that colour, the first one in scan order; and the scan from the first cell
   * finds that same king.
   */
  lemma KingAtSpec(g: Grid, white: bool)
    ensures KingAt(g, white).None? <==> forall s :: !IsKingOf(g, s, white)
    ensures KingAt(g, white).Some? ==>
              IsKingOf(g, KingAt(g, white).value, white) &&
              forall s :: IsKingOf(g, s, white) ==> !ScannedBefore(s, KingAt(g, white).value)
    ensures KingScan(g, white, 0, 0) == KingAt(g, white)
  {
    KingScanFinds(g, white, 0, 0);
    var scan := KingScan(g, white, 0, 0);
    if scan.Some? {
      assert IsFirstKing(g, scan.value, white);
      FirstKingUnique(g, KingAt(g, white).value, scan.value, white);
    } else {
      assert forall s :: !IsKingOf(g, s, white);
    }
  }

  /** With exactly one king of a colour on the board, the search finds that king. */
  lemma UniqueKing(g: Grid, white: bool, k: Square)
    requires IsKingOf(g, k, white)
    requires forall s :: IsKingOf(g, s, white) ==> s == k
    ensures KingAt(g, white) == Some(k)
  {
    KingAtSpec(g, white);
  }

  /** The piece on `s` has colour `byWhite` and offers `pos` among its moves. */
  predicate AttacksFrom(g: Grid, s: Square, pos: Square, byWhite: bool) {
    IsWithinBoard(s) && g[s.x][s.y].Some? && g[s.x][s.y].value.isWhite == byWhite &&
    pos in PieceMoves(g, g[s.x][s.y].value, s)
  }

  /** Some piece of colour `byWhite` has `pos` in its (ordinary, pseudo-legal) move list. */
  ghost predicate Attacked(g: Grid, pos: Square, byWhite: bool) {
    exists s :: AttacksFrom(g, s, pos, byWhite)
  }

  /** No square scanned before `b` holds a piece of colour `byWhite` that offers `pos`. */
  ghost predicate NoAttackerBefore(g: Grid, pos: Square, byWhite: bool, b: Square) {
    forall s :: ScannedBefore(s, b) ==> !AttacksFrom(g, s, pos, byWhite)
  }

  lemma NoAttackerNext(g: Grid, pos: Square, byWhite: bool, x: int, y: int)
    requires NoAttackerBefore(g, pos, byWhite, Square(x, y)) && !AttacksFrom(g, Square(x, y), pos, byWhite)
    ensures NoAttackerBefore(g, pos, byWhite, Square(x, y + 1))
  {
    forall s | ScannedBefore(s, Square(x, y + 1)) ensures !AttacksFrom(g, s, pos, byWhite) {
      if s != Square(x, y) {
        assert ScannedBefore(s, Square(x, y));
      }
    }
  }

  /** Having scanned the whole board without finding an attacker, the square is not attacked. */
  lemma NoAttackerAtAll(g: Grid, pos: Square, byWhite: bool)
    requires NoAttackerBefore(g, pos, byWhite, Square(8, 0))
    ensures !Attacked(g, pos, byWhite)
  {
  }

  /** The king of colour `white` stands on a square the other colour attacks. */
  ghost predicate InCheck(g: Grid, white: bool)
    requires KingAt(g, white).Some?
  {
    Attacked(g, KingAt(g, white).value, !white)
  }

  /** The board with cell `s` set to `c`; a square off the board changes nothing. */
  function Put(g: Grid, s: Square, c: Option<Man>): Grid {
    if IsWithinBoard(s) then g[s.x := g[s.x][s.y := c]] else g
  }

  /** The board after `m` is lifted from `from` and put on `to`, overwriting whatever stood there. */
  function Relocate(g: Grid, from: Square, to: Square, m: Man): (r: Grid)
  {
    Put(Put(g, from, None), to, Some(m))
  }

  /** Clearing the destination first makes no difference to a relocation. */
  lemma RelocateOverCapture(g: Grid, from: Square, to: Square, m: Man)
    requires IsWithinBoard(to)
    ensures Relocate(Put(g, to, None), from, to, m) == Relocate(g, from, to, m)
  {
    GridExtensionality(Relocate(Put(g, to, None), from, to, m), Relocate(g, from, to, m));
  }

  /** Moving back and restoring the destination's old occupant gives the board back. */
  lemma RelocateUndone(g: Grid, from: Square, to: Square, m: Man)
    requires IsWithinBoard(from) && IsWithinBoard(to) && g[from.x][from.y] == Some(m)
    ensures Put(Relocate(Relocate(g, from, to, m), to, from, m), to, g[to.x][to.y]) == g
  {
    GridExtensionality(Put(Relocate(Relocate(g, from, to, m), to, from, m), to, g[to.x][to.y]), g);
  }

  /** A piece of colour `white` stands on `s`. */
  predicate OwnPiece(g: Grid, s: Square, white: bool) {
    IsWithinBoard(s) && g[s.x][s.y].Some? && g[s.x][s.y].value.isWhite == white
  }

  /** The piece on `s` has colour `white` and `t` is one of its moves. */
  predicate OwnMove(g: Grid, s: Square, t: Square, white: bool) {
    OwnPiece(g, s, white) && t in PieceMoves(g, g[s.x][s.y].value, s)
  }

  /** Putting an own piece on an empty or enemy square never removes one's own king from the board. */
  lemma RelocateKeepsKing(g: Grid, s: Square, t: Square, white: bool)
    requires KingAt(g, white).Some? && OwnPiece(g, s, white) && Open(g, t, white)
    ensures KingAt(Relocate(g, s, t, g[s.x][s.y].value), white).Some?
  {
    var g' := Relocate(g, s, t, g[s.x][s.y].value);
    KingAtSpec(g, white);
    var k := KingAt(g, white).value;
    if k == s {
      assert IsKingOf(g', t, white);
    } else {
      assert g'[k.x][k.y] == g[k.x][k.y];
      assert IsKingOf(g', k, white);
    }
    KingAtSpec(g', white);
  }

  /** A move of one's own never removes one's own king from the board. */
  lemma OwnMoveKeepsKing(g: Grid, s: Square, t: Square, white: bool)
    requires KingAt(g, white).Some? && OwnMove(g, s, t, white)
    ensures Open(g, t, white)
    ensures KingAt(Relocate(g, s, t, g[s.x][s.y].value), white).Some?
  {
    MovesNeverFriendly(g, s);
    assert Open(g, t, white);
    RelocateKeepsKing(g, s, t, white);
  }

  /**
   * After the own piece on `s` is moved to `t`, its side has a king and that king is attacked.
   * For a move the king survives (`OwnMoveKeepsKing`) this is plain "still in check".
   */
  ghost predicate LeavesInCheck(g: Grid, s: Square, t: Square, white: bool)
    requires OwnPiece(g, s, white)
  {
    var r := Relocate(g, s, t, g[s.x][s.y].value);
    KingAt(r, white).Some? && InCheck(r, white)
  }

  /** In check, and every pseudo-legal move of every own piece leaves the side in check. */
  ghost predicate Checkmate(g: Grid, white: bool)
    requires KingAt(g, white).Some?
  {
    InCheck(g, white) && forall s, t :: OwnMove(g, s, t, white) ==> LeavesInCheck(g, s, t, white)
  }

  /** Every move of every own piece scanned before `b` leaves the side in check. */
  ghost predicate NoEscapeBefore(g: Grid, white: bool, b: Square)
    requires KingAt(g, white).Some?
  {
    forall s {:trigger NoEscapeFrom(g, white, s)} :: ScannedBefore(s, b) ==> NoEscapeFrom(g, white, s)
  }

  /** Every move of the piece on `s` leaves the side in check (vacuous for an empty or enemy cell). */
  ghost predicate NoEscapeFrom(g: Grid, white: bool, s: Square)
    requires KingAt(g, white).Some?
  {
    forall t :: OwnMove(g, s, t, white) ==> LeavesInCheck(g, s, t, white)
  }

  lemma NoEscapeNext(g: Grid, white: bool, x: int, y: int)
    requires KingAt(g, white).Some?
    requires NoEscapeBefore(g, white, Square(x, y)) && NoEscapeFrom(g, white, Square(x, y))
    ensures NoEscapeBefore(g, white, Square(x, y + 1))
  {
    forall s | ScannedBefore(s, Square(x, y + 1)) ensures NoEscapeFrom(g, white, s) {
      if s != Square(x, y) {
        assert ScannedBefore(s, Square(x, y));
      }
    }
  }

  lemma NoEscapeNextFile(g: Grid, white: bool, x: int)
    requires KingAt(g, white).Some?
    requires NoEscapeBefore(g, white, Square(x, 8))
    ensures NoEscapeBefore(g, white, Square(x + 1, 0))
  {
    forall s | ScannedBefore(s, Square(x + 1, 0)) ensures NoEscapeFrom(g, white, s) {
      if IsWithinBoard(s) {
        assert ScannedBefore(s, Square(x, 8));
      }
    }
  }

  /** Every move in the list of the own piece on `s` lands on an empty or enemy square. */
  lemma MoveListOpen(g: Grid, white: bool, s: Square, moves: seq<Square>)
    requires OwnPiece(g, s, white) && moves == PieceMoves(g, g[s.x][s.y].value, s)
    ensures forall j :: 0 <= j < |moves| ==> Open(g, moves[j], white)
  {
    MovesAreOpen(g, g[s.x][s.y].value, s);
    forall j | 0 <= j < |moves| ensures Open(g, moves[j], white) {
      assert moves[j] in moves;
    }
  }

  /** The own piece on `s` offers no escape exactly when every move in its list leaves the side in check. */
  lemma NoEscapeFromAll(g: Grid, white: bool, s: Square, moves: seq<Square>)
    requires KingAt(g, white).Some? && OwnPiece(g, s, white)
    requires moves == PieceMoves(g, g[s.x][s.y].value, s)
    ensures NoEscapeFrom(g, white, s) <==> forall j :: 0 <= j < |moves| ==> LeavesInCheck(g, s, moves[j], white)
  {
    if forall j :: 0 <= j < |moves| ==> LeavesInCheck(g, s, moves[j], white) {
      forall t | OwnMove(g, s, t, white) ensures LeavesInCheck(g, s, t, white) {
        var j :| 0 <= j < |moves| && moves[j] == t;
      }
    }
    if NoEscapeFrom(g, white, s) {
      forall j | 0 <= j < |moves| ensures LeavesInCheck(g, s, moves[j], white) {
        assert OwnMove(g, s, moves[j], white);
      }
    }
  }


  /** A piece with a move out of check means no checkmate. */
  lemma EscapeIsNotMate(g: Grid, white: bool, s: Square)
    requires KingAt(g, white).Some? && !NoEscapeFrom(g, white, s)
    ensures !Checkmate(g, white)
  {
    var t :| OwnMove(g, s, t, white) && !LeavesInCheck(g, s, t, white);
  }

  /** In check, with no own piece on the board offering an escape, the side is checkmated. */
  lemma NoEscapeIsMate(g: Grid, white: bool)
    requires KingAt(g, white).Some? && InCheck(g, white)
    requires NoEscapeBefore(g, white, Square(8, 0))
    ensures Checkmate(g, white)
  {
    forall s, t | OwnMove(g, s, t, white) ensures LeavesInCheck(g, s, t, white) {
      assert ScannedBefore(s, Square(8, 0));
      assert NoEscapeFrom(g, white, s);
    }
  }

  // ---------------------------------------------------------------------------------------------
  // Two positions

  /** A board holding exactly the pieces of `men`, each on its square. */
  function Position(men: map<Square, Man>): Grid {
    seq(8, x requires 0 <= x < 8 =>
      seq(8, y requires 0 <= y < 8 => if Square(x, y) in men then Some(men[Square(x, y)]) else None))
  }

  /**
   * A rook of the other colour on the far end of the king's file, the squares between empty,
   * gives check.
   */
  lemma RookDownTheFileGivesCheck(g: Grid, king: Square)
    requires 0 <= king.x < 8 && king.y == 0
    requires IsKingOf(g, king, true) && forall s :: IsKingOf(g, s, true) ==> s == king
    requires g[king.x][7] == Some(Man(Rook, false))
    requires forall j :: 1 <= j < 7 ==> g[king.x][j].None?
    ensures KingAt(g, true) == Some(king) && InCheck(g, true)
    ensures AttacksFrom(g, Square(king.x, 7), king, false)
  {
    UniqueKing(g, true, king);
    var rook := Square(king.x, 7);
    SlidingRay(g, rook, Down, false);
    forall j: nat | 1 <= j < 7 ensures TileEmpty(g, Walk(rook, Down, j)) {
      assert Walk(rook, Down, j) == Square(king.x, 7 - j);
    }
    assert Walk(rook, Down, 7) == king;
    RaysMember(g, rook, RookDirections, false, king);
    assert RookDirections[1] == Down;
    assert AttacksFrom(g, rook, king, false);
  }

  /** A white king on (4, 0) and a black rook on (4, 7), the file between them empty: white is in check. */
  lemma RookOnOpenFileGivesCheck()
    ensures var g := Position(map[Square(4, 0) := Man(King, true), Square(4, 7) := Man(Rook, false)]);
            KingAt(g, true) == Some(Square(4, 0)) && InCheck(g, true)
  {
    var g := Position(map[Square(4, 0) := Man(King, true), Square(4, 7) := Man(Rook, false)]);
    RookDownTheFileGivesCheck(g, Square(4, 0));
  }

  /** A king of either colour alone on the board, on any square, is found there and is not in check. */
  lemma LoneKingNotInCheck(k: Square, white: bool)
    requires IsWithinBoard(k)
    ensures var g := Position(map[k := Man(King, white)]);
            KingAt(g, white) == Some(k) && !InCheck(g, white)
  {
    var g := Position(map[k := Man(King, white)]);
    UniqueKing(g, white, k);
    var other := !white;
    forall s ensures !AttacksFrom(g, s, k, other) {
      if IsWithinBoard(s) && s != k {
        assert g[s.x][s.y].None?;
      }
    }
  }

  /** Taking a side's only king, with anything but a king of that side, leaves that side without a king. */
  lemma CapturedKingIsGone(g: Grid, k: Square, from: Square, m: Man, white: bool)
    requires IsKingOf(g, k, white) && forall s :: IsKingOf(g, s, white) ==> s == k
    requires m != Man(King, white)
    ensures KingAt(Relocate(g, from, k, m), white).None?
  {
    var r := Relocate(g, from, k, m);
    forall s ensures !IsKingOf(r, s, white) {
      if s == k {
        assert r[s.x][s.y] == Some(m);
      } else if IsWithinBoard(s) && s == from {
        assert r[s.x][s.y] == None;
      } else if IsWithinBoard(s) {
        assert r[s.x][s.y] == g[s.x][s.y] && !IsKingOf(g, s, white);
      }
    }
    KingAtSpec(r, white);
  }

  /**
   * Moves are pseudo-legal, so a side may leave its king attacked and the other side may then take
   * it: here the black rook's list holds the white king's square, and after that capture white has
   * no king left for the check query to look at.
   */
  lemma KingCaptureLeavesNoKing()
    ensures var g := Position(map[Square(4, 0) := Man(King, true), Square(4, 7) := Man(Rook, false)]);
            Square(4, 0) in PieceMoves(g, Man(Rook, false), Square(4, 7)) &&
            KingAt(Relocate(g, Square(4, 7), Square(4, 0), Man(Rook, false)), true).None?
  {
    var g := Position(map[Square(4, 0) := Man(King, true), Square(4, 7) := Man(Rook, false)]);
    RookDownTheFileGivesCheck(g, Square(4, 0));
    CapturedKingIsGone(g, Square(4, 0), Square(4, 7), Man(Rook, false), true);
  }
}
