/** Pseudo-legal move generation, `Piece::getMoves` and its helpers
    (piece.cpp:27-60, 82-177), as functions of a board snapshot.
    Generation only reads the board. */
module MoveGen {
  import opened Options
  import opened Points
  import opened Pieces
  import opened Boards

  /** `runForValidOffset(location, dx, dy, action)`: the action runs on the
      shifted square, and only when that square is on the board. */
  function ValidOffset(loc: Point, dx: int, dy: int): (r: Option<Point>)
    ensures r.Some? <==> OnBoard(Point(loc.x + dx, loc.y + dy))
    ensures r.Some? ==> r.value == Point(loc.x + dx, loc.y + dy)
  {
    if IsValidLocation(loc.x + dx, loc.y + dy) then Some(Point(loc.x + dx, loc.y + dy)) else None
  }

  /** The square k steps from p along (dx, dy). */
  function Walk(p: Point, dx: int, dy: int, k: nat): Point
    decreases k
  {
    if k == 0 then p else Walk(Point(p.x + dx, p.y + dy), dx, dy, k - 1)
  }

  /** Distance to the edge along a non-zero direction; it shrinks at every step. */
  function RayMeasure(p: Point, dx: int, dy: int): nat
    requires OnBoard(p)
  {
    if dx > 0 then BOARD_WIDTH - p.x
    else if dx < 0 then p.x + 1
    else if dy > 0 then BOARD_HEIGHT - p.y
    else p.y + 1
  }

  /** The loop of `lookInDirection` from square `from` once `count` steps
      have been taken: step along (dx, dy); stop at the cap `max` (when
      positive), at the edge, or at the first occupied square, which is kept
      iff its piece is of the other colour. */
  function Ray(b: Board, mover: Color, from: Point, dx: int, dy: int, max: int, count: int): (r: seq<Point>)
    requires OnBoard(from) && (dx != 0 || dy != 0)
    ensures forall t :: t in r ==> OnBoard(t) && NotFriendly(b, mover, t)
    decreases RayMeasure(from, dx, dy)
  {
    if max > 0 && count >= max then []
    else
      var next := Point(from.x + dx, from.y + dy);
      if !IsValidLocation(next.x, next.y) then []
      else if !HasPiece(b, next) then [next] + Ray(b, mover, next, dx, dy, max, count + 1)
      else if At(b, next).color != mover then [next]
      else []
  }

  /** `lookInDirection(game, result, location, right, up, max)`: the squares
      it appends to `result`; a zero direction appends nothing. */
  function Look(b: Board, mover: Color, from: Point, dx: int, dy: int, max: int): (r: seq<Point>)
    requires OnBoard(from)
    ensures forall t :: t in r ==> OnBoard(t) && NotFriendly(b, mover, t)
  {
    if dx == 0 && dy == 0 then [] else Ray(b, mover, from, dx, dy, max, 0)
  }

  /** The direction tables of getMoves. The queen's and the king's tables are
      the same eight directions in the same order: the bishop's four, then the
      rook's four. */
  const RookDirections: seq<(int, int)> := [(1, 0), (-1, 0), (0, 1), (0, -1)]
  const BishopDirections: seq<(int, int)> := [(1, 1), (-1, -1), (-1, 1), (1, -1)]
  const EightDirections: seq<(int, int)> := BishopDirections + RookDirections
  const KnightOffsets: seq<(int, int)> :=
    [(1, 2), (1, -2), (-1, 2), (-1, -2), (2, 1), (2, -1), (-2, 1), (-2, -1)]

  /** One `lookInDirection` call per direction, in table order. */
  function Rays(b: Board, mover: Color, loc: Point, dirs: seq<(int, int)>, max: int): (r: seq<Point>)
    requires OnBoard(loc)
    ensures forall t :: t in r ==> OnBoard(t) && NotFriendly(b, mover, t)
  {
    if dirs == [] then []
    else
      var d := dirs[|dirs| - 1];
      Rays(b, mover, loc, dirs[..|dirs| - 1], max) + Look(b, mover, loc, d.0, d.1, max)
  }

  /** The knight's action for one offset: keep the square unless a piece of
      the mover's colour stands on it. */
  function Jump(b: Board, mover: Color, loc: Point, dx: int, dy: int): seq<Point>
  {
    match ValidOffset(loc, dx, dy)
    case None => []
    case Some(t) => if HasPiece(b, t) && At(b, t).color == mover then [] else [t]
  }

  function Jumps(b: Board, mover: Color, loc: Point, offsets: seq<(int, int)>): (r: seq<Point>)
    ensures forall t :: t in r ==> OnBoard(t) && NotFriendly(b, mover, t)
  {
    if offsets == [] then []
    else
      var d := offsets[|offsets| - 1];
      Jumps(b, mover, loc, offsets[..|offsets| - 1]) + Jump(b, mover, loc, d.0, d.1)
  }

  /** White pawns advance toward row 0, black pawns toward row 7. */
  function PawnDirection(c: Color): int
  {
    if c == White then -1 else 1
  }

  /** `pawnLogicForward`: a step onto an empty square. */
  function PawnForward(b: Board, loc: Point, dy: int): (r: seq<Point>)
    ensures forall t :: t in r ==> OnBoard(t) && !HasPiece(b, t)
  {
    match ValidOffset(loc, 0, dy)
    case None => []
    case Some(t) => if !HasPiece(b, t) then [t] else []
  }

  /** `pawnLogicForwardFirst`: the double step of an unmoved pawn, over an empty
      intermediate square onto an empty square. */
  function PawnForwardFirst(b: Board, piece: Piece, loc: Point): (r: seq<Point>)
    requires OnBoard(loc)
    ensures forall t :: t in r ==> OnBoard(t) && !HasPiece(b, t)
  {
    match ValidOffset(loc, 0, 2 * PawnDirection(piece.color))
    case None => []
    case Some(t) =>
      if !piece.firstMove then []
      else if HasPiece(b, Point(t.x, t.y + (if piece.color == White then 1 else -1))) then []
      else if !HasPiece(b, t) then [t]
      else []
  }

  /** `pawnLogicCapture`: a diagonal step onto a piece of the other colour. */
  function PawnCapture(b: Board, mover: Color, loc: Point, dx: int, dy: int): (r: seq<Point>)
    ensures forall t :: t in r ==> OnBoard(t) && HasPiece(b, t) && At(b, t).color != mover
  {
    match ValidOffset(loc, dx, dy)
    case None => []
    case Some(t) => if HasPiece(b, t) && At(b, t).color != mover then [t] else []
  }

  /** The four pawn actions of getMoves, in order. */
  function PawnMoves(b: Board, piece: Piece, loc: Point): (r: seq<Point>)
    requires OnBoard(loc)
    ensures forall t :: t in r ==> OnBoard(t) && NotFriendly(b, piece.color, t)
  {
    var d := PawnDirection(piece.color);
    PawnForward(b, loc, d) + PawnForwardFirst(b, piece, loc)
      + PawnCapture(b, piece.color, loc, 1, d) + PawnCapture(b, piece.color, loc, -1, d)
  }

  /** `kingCastleLogic` reads the squares x+3 and x-4 of the king's row without
      a bounds check: it is well defined only for an unmoved king on column 4. */
  predicate CastleSafe(piece: Piece, loc: Point)
  {
    piece.kind == King && piece.firstMove ==> loc.x == 4
  }

  /** Every unmoved king on the board stands on column 4. */
  predicate KingsHome(b: Board)
  {
    forall y, x :: 0 <= y < BOARD_HEIGHT && 0 <= x < BOARD_WIDTH ==> CastleSafe(b[y][x], Point(x, y))
  }

  /** The king-side candidate: an unmoved piece three files right, two empty
      squares between. Neither the rook's kind nor its colour is looked at. */
  function CastleRight(b: Board, k: Point): seq<Point>
    requires OnBoard(k) && k.x == 4
  {
    var rook := Point(k.x + 3, k.y);
    if HasPiece(b, rook) && At(b, rook).firstMove
       && !HasPiece(b, Point(k.x + 2, k.y)) && !HasPiece(b, Point(k.x + 1, k.y))
    then [Point(k.x + 2, k.y)]
    else []
  }

  /** The queen-side candidate: an unmoved piece four files left, three empty
      squares between. */
  function CastleLeft(b: Board, k: Point): seq<Point>
    requires OnBoard(k) && k.x == 4
  {
    var rook := Point(k.x - 4, k.y);
    if HasPiece(b, rook) && At(b, rook).firstMove
       && !HasPiece(b, Point(k.x - 3, k.y)) && !HasPiece(b, Point(k.x - 2, k.y))
       && !HasPiece(b, Point(k.x - 1, k.y))
    then [Point(k.x - 2, k.y)]
    else []
  }

  /** `kingCastleLogic`, run through `runForValidOffset(location, 0, 0, ...)`. */
  function Castling(b: Board, piece: Piece, loc: Point): (r: seq<Point>)
    requires OnBoard(loc) && CastleSafe(piece, loc)
    ensures forall t :: t in r ==> OnBoard(t) && !HasPiece(b, t)
  {
    match ValidOffset(loc, 0, 0)
    case None => []
    case Some(k) =>
      if piece.kind == King && piece.firstMove then CastleRight(b, k) + CastleLeft(b, k) else []
  }

  /** `Piece::getMoves`: the pseudo-legal destinations of `piece` standing on
      `loc`, in generation order. None is off the board and none holds a
      piece of the mover's colour. */
  function Moves(b: Board, piece: Piece, loc: Point): (r: seq<Point>)
    requires OnBoard(loc) && CastleSafe(piece, loc)
    ensures forall t :: t in r ==> OnBoard(t) && NotFriendly(b, piece.color, t)
  {
    if piece.kind == Pawn then PawnMoves(b, piece, loc)
    else if piece.kind == Rook then Rays(b, piece.color, loc, RookDirections, -1)
    else if piece.kind == Bishop then Rays(b, piece.color, loc, BishopDirections, -1)
    else if piece.kind == Queen then Rays(b, piece.color, loc, EightDirections, -1)
    else if piece.kind == Knight then Jumps(b, piece.color, loc, KnightOffsets)
    else if piece.kind == King then Rays(b, piece.color, loc, EightDirections, 1) + Castling(b, piece, loc)
    else []
  }
}
