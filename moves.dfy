/**
 * Pseudo-legal move generation on a board value: the occupancy queries, the sliding rays, the
 * fixed-offset steps and the pawn rules, each as the list of destination squares in the order the
 * generators emit them, with lemmas that say exactly which squares each list holds.
 */
module Moves {
  import opened Squares

  /** What the rules need to know of a piece: its kind and its colour. */
  datatype Man = Man(kind: PieceType, isWhite: bool)

  predicate IsGrid(g: seq<seq<Option<Man>>>) {
    |g| == 8 && forall x :: 0 <= x < 8 ==> |g[x]| == 8
  }

  /** An 8 x 8 grid of optional occupants, indexed `g[x][y]` like the board array. */
  type Grid = g: seq<seq<Option<Man>>> | IsGrid(g) witness seq(8, _ => seq(8, _ => None))

  /** On the board and unoccupied; every square off the board counts as not empty. */
  predicate TileEmpty(g: Grid, s: Square) {
    IsWithinBoard(s) && g[s.x][s.y].None?
  }

  /** On the board and occupied by a piece whose colour differs from `white`. */
  predicate EnemyAt(g: Grid, s: Square, white: bool) {
    IsWithinBoard(s) && g[s.x][s.y].Some? && g[s.x][s.y].value.isWhite != white
  }

  /** A square a non-pawn piece of colour `white` may land on: empty or enemy-occupied. */
  predicate Open(g: Grid, s: Square, white: bool) {
    TileEmpty(g, s) || EnemyAt(g, s, white)
  }

  lemma GridExtensionality(a: Grid, b: Grid)
    requires forall x, y :: 0 <= x < 8 && 0 <= y < 8 ==> a[x][y] == b[x][y]
    ensures a == b
  {
    forall x | 0 <= x < 8
      ensures a[x] == b[x]
    {
      assert forall y :: 0 <= y < 8 ==> a[x][y] == b[x][y];
    }
  }

  // ---------------------------------------------------------------------------------------------
  // Sliding pieces

  /** A bound on how many more steps of `d` stay on the board from `c`; it shrinks along a ray. */
  function Dist(c: Square, d: Square): nat {
    (if d.x > 0 && c.x < 8 then 8 - c.x else if d.x < 0 && c.x >= 0 then c.x + 1 else 0) +
    (if d.y > 0 && c.y < 8 then 8 - c.y else if d.y < 0 && c.y >= 0 then c.y + 1 else 0)
  }

  /** A step along a direction from a square on the board brings the walk closer to the edge. */
  lemma DistShrinks(c: Square, d: Square)
    requires IsDirection(d) && IsWithinBoard(c)
    ensures Dist(c.Plus(d), d) < Dist(c, d)
  {
  }

  /**
   * The walk along `d` starting at `c`: every empty square is taken and the walk goes on; the
   * first occupied square is taken when it holds an enemy, and the walk stops there either way.
   */
  function Ray(g: Grid, c: Square, d: Square, white: bool): seq<Square>
    requires IsDirection(d)
    decreases Dist(c, d)
  {
    if !IsWithinBoard(c) then []
    else if TileEmpty(g, c) then [c] + Ray(g, c.Plus(d), d, white)
    else if EnemyAt(g, c, white) then [c]
    else []
  }

  /** The rays of a piece standing on `from`, one after the other in the order of `dirs`. */
  function Rays(g: Grid, from: Square, dirs: seq<Square>, white: bool): seq<Square>
    requires AllDirections(dirs)
    decreases |dirs|
  {
    if dirs == [] then []
    else
      var d := dirs[|dirs| - 1];
      Rays(g, from, dirs[..|dirs| - 1], white) + Ray(g, from.Plus(d), d, white)
  }

  function RookMoves(g: Grid, from: Square, white: bool): seq<Square> {
    Rays(g, from, RookDirections, white)
  }

  function BishopMoves(g: Grid, from: Square, white: bool): seq<Square> {
    Rays(g, from, BishopDirections, white)
  }

  function QueenMoves(g: Grid, from: Square, white: bool): seq<Square> {
    Rays(g, from, QueenDirections, white)
  }

  // ---------------------------------------------------------------------------------------------
  // Fixed offsets

  /** The squares `from + o`, for the offsets `o` in order, that are empty or enemy-occupied. */
  function Steps(g: Grid, from: Square, offs: seq<Square>, white: bool): seq<Square>
    decreases |offs|
  {
    if offs == [] then []
    else
      var s := from.Plus(offs[|offs| - 1]);
      Steps(g, from, offs[..|offs| - 1], white) + (if Open(g, s, white) then [s] else [])
  }

  /** The squares `from + o`, for the offsets `o` in order, that are enemy-occupied. */
  function Captures(g: Grid, from: Square, offs: seq<Square>, white: bool): seq<Square>
    decreases |offs|
  {
    if offs == [] then []
    else
      var s := from.Plus(offs[|offs| - 1]);
      Captures(g, from, offs[..|offs| - 1], white) + (if EnemyAt(g, s, white) then [s] else [])
  }

  function KingMoves(g: Grid, from: Square, white: bool): seq<Square> {
    Steps(g, from, KingDirections, white)
  }

  function KnightMoves(g: Grid, from: Square, white: bool): seq<Square> {
    Steps(g, from, KnightDeltas, white)
  }

  // ---------------------------------------------------------------------------------------------
  // Pawns

  /** White pawns move up the board, black pawns down. */
  function Forward(white: bool): Square {
    if white then Up else Down
  }

  function PawnDiagonals(white: bool): seq<Square> {
    if white then [Square(1, 1), Square(-1, 1)] else [Square(1, -1), Square(-1, -1)]
  }

  /** One step forward onto an empty square, then two steps from the home rank onto an empty square. */
  function PawnPushes(g: Grid, from: Square, white: bool): seq<Square> {
    var next1 := from.Plus(Forward(white));
    var next2 := from.Plus(Forward(white).Scale(2));
    var onStartRow := (white && from.y == 1) || (!white && from.y == 6);
    if TileEmpty(g, next1) then [next1] + (if onStartRow && TileEmpty(g, next2) then [next2] else [])
    else []
  }

  /** The pushes, then the two forward diagonals when an enemy stands there. */
  function PawnMoves(g: Grid, from: Square, white: bool): seq<Square> {
    PawnPushes(g, from, white) + Captures(g, from, PawnDiagonals(white), white)
  }

  /** The pseudo-legal destinations of a piece `m` standing on `from`, by kind. */
  function PieceMoves(g: Grid, m: Man, from: Square): seq<Square> {
    match m.kind
    case Pawn => PawnMoves(g, from, m.isWhite)
    case Rook => RookMoves(g, from, m.isWhite)
    case Bishop => BishopMoves(g, from, m.isWhite)
    case Queen => QueenMoves(g, from, m.isWhite)
    case King => KingMoves(g, from, m.isWhite)
    case Knight => KnightMoves(g, from, m.isWhite)
  }

  // ---------------------------------------------------------------------------------------------
  // What the rays hold

  lemma WalkShift(c: Square, d: Square, k: nat)
    ensures Walk(c.Plus(d), d, k) == Walk(c, d, k + 1)
  {
    assert (k + 1) * d.x == k * d.x + d.x;
    assert (k + 1) * d.y == k * d.y + d.y;
  }

  lemma WalkLeaves(c: Square, d: Square, k: nat)
    requires IsDirection(d)
    ensures Walk(c, d, k + 1) != c
  {
    if d.x != 0 {
      assert (k + 1) * d.x != 0 by {
        if d.x == 1 { assert (k + 1) * d.x == k + 1; } else { assert (k + 1) * d.x == -(k + 1); }
      }
    } else {
      assert (k + 1) * d.y != 0 by {
        if d.y == 1 { assert (k + 1) * d.y == k + 1; } else { assert (k + 1) * d.y == -(k + 1); }
      }
    }
  }

  /** The `i`-th square of the walk from `c` is `c` moved `i` steps along `d`. */
  lemma {:induction false} RayAt(g: Grid, c: Square, d: Square, white: bool, i: nat)
    requires IsDirection(d) && i < |Ray(g, c, d, white)|
    ensures Ray(g, c, d, white)[i] == Walk(c, d, i)
    decreases i
  {
    if i == 0 {
      assert Walk(c, d, 0) == c;
    } else {
      var rest := Ray(g, c.Plus(d), d, white);
      assert Ray(g, c, d, white) == [c] + rest;
      RayAt(g, c.Plus(d), d, white, i - 1);
      WalkShift(c, d, i - 1);
    }
  }

  /** Every square strictly before step `k` of the walk from `c` is empty. */
  ghost predicate ClearBefore(g: Grid, c: Square, d: Square, k: nat) {
    forall j: nat :: j < k ==> TileEmpty(g, Walk(c, d, j))
  }

  /** Step `k` of the walk is taken iff all earlier steps are empty and step `k` is empty or an enemy. */
  lemma {:induction false} RayMember(g: Grid, c: Square, d: Square, white: bool, k: nat)
    requires IsDirection(d)
    ensures Walk(c, d, k) in Ray(g, c, d, white) <==> ClearBefore(g, c, d, k) && Open(g, Walk(c, d, k), white)
    decreases k
  {
    assert Walk(c, d, 0) == c;
    if k == 0 {
    } else {
      WalkShift(c, d, k - 1);
      WalkLeaves(c, d, k - 1);
      if IsWithinBoard(c) && TileEmpty(g, c) {
        RayMember(g, c.Plus(d), d, white, k - 1);
        assert ClearBefore(g, c, d, k) <==> ClearBefore(g, c.Plus(d), d, k - 1) by {
          forall j: nat | j < k - 1 ensures Walk(c.Plus(d), d, j) == Walk(c, d, j + 1) {
            WalkShift(c, d, j);
          }
          if ClearBefore(g, c.Plus(d), d, k - 1) {
            forall j: nat | j < k ensures TileEmpty(g, Walk(c, d, j)) {
              if j > 0 { assert Walk(c, d, j) == Walk(c.Plus(d), d, j - 1); }
            }
          }
        }
      } else {
        assert !TileEmpty(g, Walk(c, d, 0));
      }
    }
  }

  /**
   * The sliding moves along `d` from a piece on `from` are exactly the squares `from + k*d`
   * (k >= 1) whose predecessors on the ray are all empty and which are themselves empty or
   * enemy-occupied: the run of empty squares next to the piece, plus the first occupied square
   * iff it holds an enemy, and nothing beyond it.
   */
  lemma SlidingRay(g: Grid, from: Square, d: Square, white: bool)
    requires IsDirection(d)
    ensures forall s :: s in Ray(g, from.Plus(d), d, white) ==> exists k: nat :: 1 <= k && s == Walk(from, d, k)
    ensures forall k: nat :: 1 <= k ==>
              (Walk(from, d, k) in Ray(g, from.Plus(d), d, white) <==>
                 (forall j: nat :: 1 <= j < k ==> TileEmpty(g, Walk(from, d, j))) && Open(g, Walk(from, d, k), white))
  {
    var c := from.Plus(d);
    var r := Ray(g, c, d, white);
    forall s | s in r ensures exists k: nat :: 1 <= k && s == Walk(from, d, k) {
      var i :| 0 <= i < |r| && r[i] == s;
      RayAt(g, c, d, white, i);
      WalkShift(from, d, i);
      assert s == Walk(from, d, i + 1);
    }
    forall k: nat | 1 <= k
      ensures Walk(from, d, k) in r <==>
                (forall j: nat :: 1 <= j < k ==> TileEmpty(g, Walk(from, d, j))) && Open(g, Walk(from, d, k), white)
    {
      WalkShift(from, d, k - 1);
      RayMember(g, c, d, white, k - 1);
      forall j: nat | j < k - 1 ensures Walk(c, d, j) == Walk(from, d, j + 1) {
        WalkShift(from, d, j);
      }
      if forall j: nat :: 1 <= j < k ==> TileEmpty(g, Walk(from, d, j)) {
        assert ClearBefore(g, c, d, k - 1);
      }
      if ClearBefore(g, c, d, k - 1) {
        forall j: nat | 1 <= j < k ensures TileEmpty(g, Walk(from, d, j)) {
          assert Walk(from, d, j) == Walk(c, d, j - 1) by { WalkShift(from, d, j - 1); }
        }
      }
    }
  }

  lemma {:induction false} RayOpen(g: Grid, c: Square, d: Square, white: bool)
    requires IsDirection(d)
    ensures forall s :: s in Ray(g, c, d, white) ==> Open(g, s, white)
    decreases Dist(c, d)
  {
    if IsWithinBoard(c) && TileEmpty(g, c) {
      RayOpen(g, c.Plus(d), d, white);
    }
  }

  lemma {:induction false} RaysMember(g: Grid, from: Square, dirs: seq<Square>, white: bool, s: Square)
    requires AllDirections(dirs)
    ensures s in Rays(g, from, dirs, white) <==>
              exists i :: 0 <= i < |dirs| && s in Ray(g, from.Plus(dirs[i]), dirs[i], white)
    decreases |dirs|
  {
    if dirs != [] {
      var n := |dirs| - 1;
      var init := dirs[..n];
      RaysMember(g, from, init, white, s);
      if s in Ray(g, from.Plus(dirs[n]), dirs[n], white) {
        assert exists i :: 0 <= i < |dirs| && s in Ray(g, from.Plus(dirs[i]), dirs[i], white);
      }
      if exists i :: 0 <= i < |dirs| && s in Ray(g, from.Plus(dirs[i]), dirs[i], white) {
        var i :| 0 <= i < |dirs| && s in Ray(g, from.Plus(dirs[i]), dirs[i], white);
        if i < n { assert init[i] == dirs[i]; }
      }
    }
  }

  lemma AllDirectionsAppend(a: seq<Square>, b: seq<Square>)
    requires AllDirections(a) && AllDirections(b)
    ensures AllDirections(a + b)
  {
    forall i | 0 <= i < |a + b| ensures IsDirection((a + b)[i]) {
      if i < |a| { assert (a + b)[i] == a[i]; } else { assert (a + b)[i] == b[i - |a|]; }
    }
  }

  lemma RaysSnoc(g: Grid, from: Square, a: seq<Square>, d: Square, white: bool)
    requires AllDirections(a) && IsDirection(d)
    ensures AllDirections(a + [d])
    ensures Rays(g, from, a + [d], white) == Rays(g, from, a, white) + Ray(g, from.Plus(d), d, white)
  {
    AllDirectionsAppend(a, [d]);
    assert (a + [d])[..|a|] == a;
  }

  lemma {:induction false} RaysAppend(g: Grid, from: Square, a: seq<Square>, b: seq<Square>, white: bool)
    requires AllDirections(a) && AllDirections(b)
    ensures AllDirections(a + b)
    ensures Rays(g, from, a + b, white) == Rays(g, from, a, white) + Rays(g, from, b, white)
    decreases |b|
  {
    AllDirectionsAppend(a, b);
    if b == [] {
      assert a + b == a;
    } else {
      var n := |b| - 1;
      var init := b[..n];
      assert b == init + [b[n]];
      assert a + b == (a + init) + [b[n]];
      RaysAppend(g, from, a, init, white);
      RaysSnoc(g, from, a + init, b[n], white);
      RaysSnoc(g, from, init, b[n], white);
    }
  }

  /** The queen's list is the rook's list followed by the bishop's, so its set is their union. */
  lemma QueenIsRookPlusBishop(g: Grid, from: Square, white: bool)
    ensures QueenMoves(g, from, white) == RookMoves(g, from, white) + BishopMoves(g, from, white)
    ensures forall s :: s in QueenMoves(g, from, white) <==> s in RookMoves(g, from, white) || s in BishopMoves(g, from, white)
  {
    RaysAppend(g, from, RookDirections, BishopDirections, white);
  }

  lemma {:induction false} RaysOpen(g: Grid, from: Square, dirs: seq<Square>, white: bool)
    requires AllDirections(dirs)
    ensures forall s :: s in Rays(g, from, dirs, white) ==> Open(g, s, white)
  {
    forall s | s in Rays(g, from, dirs, white) ensures Open(g, s, white) {
      RaysMember(g, from, dirs, white, s);
      var i :| 0 <= i < |dirs| && s in Ray(g, from.Plus(dirs[i]), dirs[i], white);
      RayOpen(g, from.Plus(dirs[i]), dirs[i], white);
    }
  }

  // ---------------------------------------------------------------------------------------------
  // What the fixed-offset lists hold

  lemma {:induction false} StepsMember(g: Grid, from: Square, offs: seq<Square>, white: bool, s: Square)
    ensures s in Steps(g, from, offs, white) <==>
              Open(g, s, white) && exists i :: 0 <= i < |offs| && s == from.Plus(offs[i])
    ensures |Steps(g, from, offs, white)| <= |offs|
    decreases |offs|
  {
    if offs != [] {
      var n := |offs| - 1;
      var last := from.Plus(offs[n]);
      assert Steps(g, from, offs, white) == Steps(g, from, offs[..n], white) + (if Open(g, last, white) then [last] else []);
      StepsMember(g, from, offs[..n], white, s);
      if exists i :: 0 <= i < |offs| && s == from.Plus(offs[i]) {
        var i :| 0 <= i < |offs| && s == from.Plus(offs[i]);
        if i < n { assert offs[..n][i] == offs[i]; }
      }
      if exists i :: 0 <= i < n && s == from.Plus(offs[..n][i]) {
        var i :| 0 <= i < n && s == from.Plus(offs[..n][i]);
        assert s == from.Plus(offs[i]);
      }
    }
  }

  lemma {:induction false} CapturesMember(g: Grid, from: Square, offs: seq<Square>, white: bool, s: Square)
    ensures s in Captures(g, from, offs, white) <==>
              EnemyAt(g, s, white) && exists i :: 0 <= i < |offs| && s == from.Plus(offs[i])
    decreases |offs|
  {
    if offs != [] {
      var n := |offs| - 1;
      var last := from.Plus(offs[n]);
      assert Captures(g, from, offs, white) == Captures(g, from, offs[..n], white) + (if EnemyAt(g, last, white) then [last] else []);
      CapturesMember(g, from, offs[..n], white, s);
      if exists i :: 0 <= i < |offs| && s == from.Plus(offs[i]) {
        var i :| 0 <= i < |offs| && s == from.Plus(offs[i]);
        if i < n { assert offs[..n][i] == offs[i]; }
      }
      if exists i :: 0 <= i < n && s == from.Plus(offs[..n][i]) {
        var i :| 0 <= i < n && s == from.Plus(offs[..n][i]);
        assert s == from.Plus(offs[i]);
      }
    }
  }

  /** A king step: at most one square along each axis, and not standing still. */
  predicate IsKingStep(from: Square, s: Square) {
    -1 <= s.x - from.x <= 1 && -1 <= s.y - from.y <= 1 && s != from
  }

  /** A knight jump: two squares along one axis and one along the other. */
  predicate IsKnightJump(from: Square, s: Square) {
    var dx, dy := s.x - from.x, s.y - from.y;
    ((dx == 1 || dx == -1) && (dy == 2 || dy == -2)) || ((dx == 2 || dx == -2) && (dy == 1 || dy == -1))
  }

  /** The king's moves are the king steps onto empty or enemy squares, at most eight of them. */
  lemma KingMovesExactly(g: Grid, from: Square, white: bool)
    ensures forall s :: s in KingMoves(g, from, white) <==> IsKingStep(from, s) && Open(g, s, white)
    ensures |KingMoves(g, from, white)| <= 8
  {
    var offs := KingDirections;
    assert |offs| == 8;
    forall s ensures s in KingMoves(g, from, white) <==> IsKingStep(from, s) && Open(g, s, white) {
      StepsMember(g, from, offs, white, s);
      if IsKingStep(from, s) {
        var d := Square(s.x - from.x, s.y - from.y);
        assert s == from.Plus(d);
        assert d in offs;
        var i :| 0 <= i < |offs| && offs[i] == d;
      }
    }
    StepsMember(g, from, offs, white, from);
  }

  /** The knight's moves are the knight jumps onto empty or enemy squares, at most eight of them. */
  lemma KnightMovesExactly(g: Grid, from: Square, white: bool)
    ensures forall s :: s in KnightMoves(g, from, white) <==> IsKnightJump(from, s) && Open(g, s, white)
    ensures |KnightMoves(g, from, white)| <= 8
  {
    var offs := KnightDeltas;
    forall s ensures s in KnightMoves(g, from, white) <==> IsKnightJump(from, s) && Open(g, s, white) {
      StepsMember(g, from, offs, white, s);
      if IsKnightJump(from, s) {
        var d := Square(s.x - from.x, s.y - from.y);
        assert s == from.Plus(d);
        assert d in offs;
        var i :| 0 <= i < |offs| && offs[i] == d;
      }
    }
    StepsMember(g, from, offs, white, from);
  }

  // ---------------------------------------------------------------------------------------------
  // What the pawn list holds

  /** The capture part of the pawn's list holds only enemy-occupied forward diagonal squares. */
  lemma PawnCapturesDiagonal(g: Grid, from: Square, white: bool)
    ensures forall t :: t in Captures(g, from, PawnDiagonals(white), white) ==>
              (t.x == from.x + 1 || t.x == from.x - 1) && t.y == from.y + Forward(white).y && EnemyAt(g, t, white)
  {
    forall t | t in Captures(g, from, PawnDiagonals(white), white)
      ensures (t.x == from.x + 1 || t.x == from.x - 1) && t.y == from.y + Forward(white).y && EnemyAt(g, t, white)
    {
      CapturesMember(g, from, PawnDiagonals(white), white, t);
    }
  }

  /** The one-step square is offered iff it is on the board and empty. */
  lemma PawnSingleStep(g: Grid, from: Square, white: bool)
    ensures var next1 := Square(from.x, if white then from.y + 1 else from.y - 1);
            next1 in PawnMoves(g, from, white) <==> TileEmpty(g, next1)
  {
    var next1 := from.Plus(Forward(white));
    PawnCapturesDiagonal(g, from, white);
    assert next1 !in Captures(g, from, PawnDiagonals(white), white);
    assert next1 in PawnMoves(g, from, white) <==> next1 in PawnPushes(g, from, white);
  }

  /**
   * The two-step square is offered iff the pawn is on its home rank and both the one-step and the
   * two-step squares are empty; with the one-step square blocked neither forward square is offered.
   */
  lemma PawnDoubleStep(g: Grid, from: Square, white: bool)
    ensures var next1 := Square(from.x, if white then from.y + 1 else from.y - 1);
            var next2 := Square(from.x, if white then from.y + 2 else from.y - 2);
            var home := if white then 1 else 6;
            (next2 in PawnMoves(g, from, white) <==> from.y == home && TileEmpty(g, next1) && TileEmpty(g, next2)) &&
            (!TileEmpty(g, next1) ==> next1 !in PawnMoves(g, from, white) && next2 !in PawnMoves(g, from, white))
  {
    var next1 := from.Plus(Forward(white));
    var next2 := from.Plus(Forward(white).Scale(2));
    assert next1 == Square(from.x, if white then from.y + 1 else from.y - 1);
    assert next2 == Square(from.x, if white then from.y + 2 else from.y - 2) && next2 != next1;
    PawnCapturesDiagonal(g, from, white);
    var pushes := PawnPushes(g, from, white);
    assert next1 !in Captures(g, from, PawnDiagonals(white), white);
    assert next2 !in Captures(g, from, PawnDiagonals(white), white);
    assert next1 in PawnMoves(g, from, white) <==> next1 in pushes;
    assert next2 in PawnMoves(g, from, white) <==> next2 in pushes;
  }

  /** A forward diagonal square is offered iff an enemy stands on it. */
  lemma PawnDiagonalCapture(g: Grid, from: Square, white: bool, dx: int)
    requires dx == 1 || dx == -1
    ensures var t := Square(from.x + dx, if white then from.y + 1 else from.y - 1);
            t in PawnMoves(g, from, white) <==> EnemyAt(g, t, white)
  {
    var t := Square(from.x + dx, if white then from.y + 1 else from.y - 1);
    CapturesMember(g, from, PawnDiagonals(white), white, t);
    assert t == from.Plus(PawnDiagonals(white)[if dx == 1 then 0 else 1]);
  }

  /**
   * A pawn only ever moves forward: one or two ranks straight ahead, or one rank diagonally; never
   * sideways or backward.
   */
  lemma PawnForwardOnly(g: Grid, from: Square, white: bool)
    ensures forall t :: t in PawnMoves(g, from, white) ==>
              var f := if white then 1 else -1;
              (t.x == from.x && (t.y == from.y + f || t.y == from.y + 2 * f)) ||
              ((t.x == from.x + 1 || t.x == from.x - 1) && t.y == from.y + f)
  {
    PawnCapturesDiagonal(g, from, white);
  }

  /**
   * On an occupied square the pawn's list holds exactly its diagonal captures: the forward squares
   * are offered only when empty. So reusing the movement list for attack testing cannot make a pawn
   * "attack" an occupied square straight ahead of it.
   */
  lemma PawnOccupiedTarget(g: Grid, from: Square, white: bool, t: Square)
    requires IsWithinBoard(t) && g[t.x][t.y].Some?
    ensures t in PawnMoves(g, from, white) <==> t in Captures(g, from, PawnDiagonals(white), white)
  {
  }

  // ---------------------------------------------------------------------------------------------
  // Every generator lands on empty or enemy squares

  lemma {:induction false} StepsOpen(g: Grid, from: Square, offs: seq<Square>, white: bool)
    ensures forall s :: s in Steps(g, from, offs, white) ==> Open(g, s, white)
  {
    forall s | s in Steps(g, from, offs, white) ensures Open(g, s, white) {
      StepsMember(g, from, offs, white, s);
    }
  }

  /** Every destination any generator offers is on the board and empty or enemy-occupied. */
  lemma MovesAreOpen(g: Grid, m: Man, from: Square)
    ensures forall t :: t in PieceMoves(g, m, from) ==> IsWithinBoard(t) && Open(g, t, m.isWhite)
  {
    match m.kind
    case Pawn =>
      forall t | t in PawnMoves(g, from, m.isWhite) ensures Open(g, t, m.isWhite) {
        CapturesMember(g, from, PawnDiagonals(m.isWhite), m.isWhite, t);
      }
    case Rook => RaysOpen(g, from, RookDirections, m.isWhite);
    case Bishop => RaysOpen(g, from, BishopDirections, m.isWhite);
    case Queen => RaysOpen(g, from, QueenDirections, m.isWhite);
    case King => StepsOpen(g, from, KingDirections, m.isWhite);
    case Knight => StepsOpen(g, from, KnightDeltas, m.isWhite);
  }

  /**
   * For a piece that stands on `from`, no destination holds a piece of its own colour, so in
   * particular no destination is its own square.
   */
  lemma MovesNeverFriendly(g: Grid, from: Square)
    requires IsWithinBoard(from) && g[from.x][from.y].Some?
    ensures var m := g[from.x][from.y].value;
            forall t :: t in PieceMoves(g, m, from) ==>
              IsWithinBoard(t) && t != from && (g[t.x][t.y].None? || g[t.x][t.y].value.isWhite != m.isWhite)
  {
    var m := g[from.x][from.y].value;
    MovesAreOpen(g, m, from);
    forall t | t in PieceMoves(g, m, from)
      ensures IsWithinBoard(t) && t != from && (g[t.x][t.y].None? || g[t.x][t.y].value.isWhite != m.isWhite)
    {
      assert Open(g, t, m.isWhite);
    }
  }
}
