/** The rules of game.cpp as functions of a board snapshot: committing a move,
    check, the legality filter of `getValidMoves`, the game state, promotion,
    the starting layout and the cursor's direction test. */
module Rules {
  import opened Options
  import opened Points
  import opened Pieces
  import opened Boards
  import opened MoveGen

  /** `GameState` of game.h. WHITE_WIN and BLACK_WIN name the side to move that
      is checkmated; WHITE_RESIGN and BLACK_RESIGN the side that resigned. */
  datatype GameState = Play | Draw | WhiteWin | BlackWin | WhiteResign | BlackResign

  /** `BoardMode` of game.h. */
  datatype BoardMode = Display | SelectPiece | SelectTarget

  // ---------------------------------------------------------------- moveToTarget

  /** The castling side effect: the piece on file `fromX` of row y, if its flag
      is set, moves to file `toX` with the flag cleared. */
  function RookHop(b: Board, y: int, fromX: int, toX: int): (r: Board)
    requires 0 <= y < BOARD_HEIGHT && 0 <= fromX < BOARD_WIDTH && 0 <= toX < BOARD_WIDTH
  {
    var rook := At(b, Point(fromX, y));
    if rook.firstMove then Put(Put(b, Point(fromX, y), EmptyPiece), Point(toX, y), SetFirstMove(rook, false))
    else b
  }

  /** `Game::moveToTarget` on the board: the origin becomes `Piece()`; an
      unmoved king whose target is on file 6 (file 2) takes the unmoved piece on
      file 7 (file 0) of its row to file 5 (file 3); the target receives the
      moved piece with its flag cleared. Unmoved kings stay on column 4. */
  function MoveOnBoard(b: Board, from: Point, to: Point): (r: Board)
    requires OnBoard(from) && OnBoard(to)
    ensures At(r, to) == SetFirstMove(At(b, from), false)
    ensures KingsHome(b) ==> KingsHome(r)
  {
    var piece := At(b, from);
    var cleared := Put(b, from, EmptyPiece);
    var hopped :=
      if piece.kind == King && piece.firstMove then
        if to.x == 6 then RookHop(cleared, from.y, 7, 5)
        else if to.x == 2 then RookHop(cleared, from.y, 0, 3)
        else cleared
      else cleared;
    Put(hopped, to, SetFirstMove(piece, false))
  }

  /** The rook's files when committing from -> to is a castling hop. */
  function CastleHop(b: Board, from: Point, to: Point): Option<(int, int)>
    requires OnBoard(from) && OnBoard(to)
  {
    var piece := At(b, from);
    if piece.kind == King && piece.firstMove && to.x == 6 && At(b, Point(7, from.y)).firstMove then Some((7, 5))
    else if piece.kind == King && piece.firstMove && to.x == 2 && At(b, Point(0, from.y)).firstMove then Some((0, 3))
    else None
  }

  // ---------------------------------------------------------------- isInCheck

  /** What a row-major scan of the board looks for: the king of a colour
      (`isInCheck`) or any piece of a colour (`findNearestPiece`). */
  datatype Quarry = KingOf(c: Color) | PieceOf(c: Color)

  /** The scan's test on one square: a piece (`hasPiece`) of the right colour,
      and a king when a king is sought. */
  predicate Matches(b: Board, p: Point, q: Quarry)
    requires OnBoard(p)
  {
    HasPiece(b, p) && At(b, p).color == q.c && (q.KingOf? ==> At(b, p).kind == King)
  }

  /** Row-major order of the scans in game.cpp: p comes at or after (x, y). */
  predicate AtOrAfter(p: Point, y: int, x: int)
  {
    p.y > y || (p.y == y && p.x >= x)
  }

  /** The first square from (x, y) on, in row-major order, that matches q;
      None when there is none. */
  function ScanFrom(b: Board, q: Quarry, y: int, x: int): Option<Point>
    requires 0 <= y <= BOARD_HEIGHT && 0 <= x <= BOARD_WIDTH
    decreases BOARD_HEIGHT - y, BOARD_WIDTH - x
  {
    if y == BOARD_HEIGHT then None
    else if x == BOARD_WIDTH then ScanFrom(b, q, y + 1, 0)
    else if Matches(b, Point(x, y), q) then Some(Point(x, y))
    else ScanFrom(b, q, y, x + 1)
  }

  /** The king `isInCheck` finds: the first king of colour c in row-major order. */
  function FindKing(b: Board, c: Color): Option<Point>
  {
    ScanFrom(b, KingOf(c), 0, 0)
  }

  /** The piece on p is of the other colour and its pseudo-legal moves
      include k. */
  predicate Attacks(b: Board, c: Color, p: Point, k: Point)
    requires KingsHome(b) && OnBoard(p)
  {
    HasPiece(b, p) && At(b, p).color != c && k in Moves(b, At(b, p), p)
  }

  /** A row-major scan from square (x, y) on: some square there or later
      satisfies f. The loops of `isInCheck` and `getState` are such scans. */
  predicate AnyFrom(f: Point -> bool, y: int, x: int)
    requires 0 <= y <= BOARD_HEIGHT && 0 <= x <= BOARD_WIDTH
    decreases BOARD_HEIGHT - y, BOARD_WIDTH - x
  {
    if y == BOARD_HEIGHT then false
    else if x == BOARD_WIDTH then AnyFrom(f, y + 1, 0)
    else f(Point(x, y)) || AnyFrom(f, y, x + 1)
  }

  /** The second loop of `isInCheck` from square (x, y) on: some piece there
      or later in row-major order attacks k. */
  predicate AttackedFrom(b: Board, c: Color, k: Point, y: int, x: int)
    requires KingsHome(b) && 0 <= y <= BOARD_HEIGHT && 0 <= x <= BOARD_WIDTH
  {
    AnyFrom(p => OnBoard(p) && Attacks(b, c, p, k), y, x)
  }

  /** One step of the attack scan along row y. */
  lemma AttackedStep(b: Board, c: Color, k: Point, y: int, x: int)
    requires KingsHome(b) && 0 <= y < BOARD_HEIGHT && 0 <= x <= BOARD_WIDTH
    ensures x < BOARD_WIDTH ==>
      AttackedFrom(b, c, k, y, x) == (Attacks(b, c, Point(x, y), k) || AttackedFrom(b, c, k, y, x + 1))
    ensures x == BOARD_WIDTH ==> AttackedFrom(b, c, k, y, x) == AttackedFrom(b, c, k, y + 1, 0)
  {
  }

  /** `Game::isInCheck(c)`: true when there is no king of colour c; otherwise
      whether a piece of the other colour has the (first) king's square among
      its pseudo-legal moves. */
  predicate InCheck(b: Board, c: Color)
    requires KingsHome(b)
  {
    match FindKing(b, c)
    case None => true
    case Some(k) => AttackedFrom(b, c, k, 0, 0)
  }

  // ---------------------------------------------------------------- getValidMoves

  /** The `copy_if` of `getValidMoves`: keep, in order, each destination after
      which (committed on a copy) colour c is not in check. */
  function KeepSafe(b: Board, c: Color, from: Point, ts: seq<Point>): (r: seq<Point>)
    requires KingsHome(b) && OnBoard(from) && forall t :: t in ts ==> OnBoard(t)
    ensures forall t :: t in r ==> t in ts
    ensures |r| <= |ts|
  {
    if ts == [] then []
    else
      var t := ts[|ts| - 1];
      var kept := KeepSafe(b, c, from, ts[..|ts| - 1]);
      if InCheck(MoveOnBoard(b, from, t), c) then kept else kept + [t]
  }

  /** `Piece::getValidMoves`: exactly the pseudo-legal destinations after
      which the mover's colour is not in check. */
  function ValidMoves(b: Board, piece: Piece, loc: Point): (r: seq<Point>)
    requires KingsHome(b) && OnBoard(loc) && CastleSafe(piece, loc)
    ensures forall t :: t in r ==> OnBoard(t)
  {
    KeepSafe(b, piece.color, loc, Moves(b, piece, loc))
  }

  /** A legal move of the side `turn`: p holds one of its pieces and t is
      among that piece's valid moves. */
  predicate Legal(b: Board, turn: Color, p: Point, t: Point)
    requires KingsHome(b)
  {
    OnBoard(p) && HasPiece(b, p) && At(b, p).color == turn && t in ValidMoves(b, At(b, p), p)
  }

  // ---------------------------------------------------------------- getState

  /** The square holds a piece of colour `turn` with at least one legal move. */
  predicate Movable(b: Board, turn: Color, p: Point)
    requires KingsHome(b) && OnBoard(p)
  {
    HasPiece(b, p) && At(b, p).color == turn && |ValidMoves(b, At(b, p), p)| > 0
  }

  /** The loop of `getState` from square (x, y) on: some square there or
      later in row-major order is movable. */
  predicate MovableFrom(b: Board, turn: Color, y: int, x: int)
    requires KingsHome(b) && 0 <= y <= BOARD_HEIGHT && 0 <= x <= BOARD_WIDTH
  {
    AnyFrom(p => OnBoard(p) && Movable(b, turn, p), y, x)
  }

  /** `Game::getState`: resignations first (black before white); then PLAY if
      the side to move has a legal move; otherwise a win named after that side
      when it is in check, and a draw when it is not. */
  function StateOf(b: Board, turn: Color, blackResigned: bool, whiteResigned: bool): GameState
    requires KingsHome(b)
  {
    if blackResigned then BlackResign
    else if whiteResigned then WhiteResign
    else if MovableFrom(b, turn, 0, 0) then Play
    else if InCheck(b, turn) then (if turn == White then WhiteWin else BlackWin)
    else Draw
  }

  // ---------------------------------------------------------------- checkPawnUpgrade

  /** The promotion menu's answer mapped to a kind; anything but "Rook",
      "Bishop" or "Knight" gives the default, a queen. */
  function UpgradeKind(selection: string): (k: Kind)
    ensures k == Queen || k == Rook || k == Bishop || k == Knight
    ensures k == Rook <==> selection == "Rook"
    ensures k == Bishop <==> selection == "Bishop"
    ensures k == Knight <==> selection == "Knight"
  {
    if selection == "Rook" then Rook
    else if selection == "Bishop" then Bishop
    else if selection == "Knight" then Knight
    else Queen
  }

  /** The row where pawns of colour `turn` are promoted. */
  function PromotionRow(turn: Color): int
  {
    if turn == White then 0 else BOARD_HEIGHT - 1
  }

  predicate Promotes(b: Board, turn: Color, x: int, y: int)
    requires 0 <= y < BOARD_HEIGHT && 0 <= x < BOARD_WIDTH
  {
    y == PromotionRow(turn) && HasPiece(b, Point(x, y)) && b[y][x].color == turn && b[y][x].kind == Pawn
  }

  /** `checkPawnUpgrade` on the board, with `answer(x)` the menu's answer for
      the pawn on column x. */
  function Promote(b: Board, turn: Color, answer: int -> string): (r: Board)
    ensures forall p :: OnBoard(p) && p.y != PromotionRow(turn) ==> At(r, p) == At(b, p)
    ensures forall x :: 0 <= x < BOARD_WIDTH ==>
      var p := Point(x, PromotionRow(turn));
      At(r, p) == if Promotes(b, turn, x, p.y) then NewPiece(UpgradeKind(answer(x)), turn) else At(b, p)
    ensures forall x :: 0 <= x < BOARD_WIDTH ==> !Promotes(r, turn, x, PromotionRow(turn))
    ensures KingsHome(b) ==> KingsHome(r)
  {
    var rows: seq<seq<Piece>> := seq(BOARD_HEIGHT, y requires 0 <= y < BOARD_HEIGHT =>
      seq(BOARD_WIDTH, x requires 0 <= x < BOARD_WIDTH => PromotedAt(b, turn, answer, x, y)));
    assert forall y :: 0 <= y < |rows| ==> |rows[y]| == BOARD_WIDTH;
    assert forall y, x :: 0 <= y < BOARD_HEIGHT && 0 <= x < BOARD_WIDTH ==> rows[y][x] == PromotedAt(b, turn, answer, x, y);
    rows
  }

  /** The piece on (x, y) once the pawns of `turn` are promoted. */
  function PromotedAt(b: Board, turn: Color, answer: int -> string, x: int, y: int): Piece
    requires 0 <= y < BOARD_HEIGHT && 0 <= x < BOARD_WIDTH
  {
    if Promotes(b, turn, x, y) then NewPiece(UpgradeKind(answer(x)), turn) else b[y][x]
  }

  // ---------------------------------------------------------------- reset

  /** The back rank, files 0 to 7. */
  const BackRank: seq<Kind> := [Rook, Knight, Bishop, Queen, King, Bishop, Knight, Rook]

  /** The piece `reset` puts on file x of row y. */
  function InitialPiece(x: int, y: int): (p: Piece)
    requires 0 <= x < BOARD_WIDTH && 0 <= y < BOARD_HEIGHT
    ensures p.firstMove
    ensures y < 2 || y >= BOARD_HEIGHT - 2 <==> p.kind != Empty
    ensures y < 2 ==> p.color == Black
    ensures y >= BOARD_HEIGHT - 2 ==> p.color == White
    ensures p.kind == King ==> x == 4
  {
    if y == 0 then NewPiece(BackRank[x], Black)
    else if y == 1 then NewPiece(Pawn, Black)
    else if y == BOARD_HEIGHT - 2 then NewPiece(Pawn, White)
    else if y == BOARD_HEIGHT - 1 then NewPiece(BackRank[x], White)
    else NewPiece(Empty, White)
  }

  /** The board `Game::reset` sets up. */
  function InitialBoard(): (r: Board)
    ensures KingsHome(r)
    ensures At(r, Point(4, 0)) == NewPiece(King, Black) && At(r, Point(4, BOARD_HEIGHT - 1)) == NewPiece(King, White)
    ensures forall p :: OnBoard(p) && 2 <= p.y < BOARD_HEIGHT - 2 ==> !HasPiece(r, p)
    ensures forall p :: OnBoard(p) ==> At(r, p).firstMove
    ensures forall x :: 0 <= x < BOARD_WIDTH ==>
      && At(r, Point(x, 0)) == NewPiece(BackRank[x], Black)
      && At(r, Point(x, 1)) == NewPiece(Pawn, Black)
      && At(r, Point(x, BOARD_HEIGHT - 2)) == NewPiece(Pawn, White)
      && At(r, Point(x, BOARD_HEIGHT - 1)) == NewPiece(BackRank[x], White)
    ensures forall p :: OnBoard(p) && p.y < 2 ==> HasPiece(r, p) && At(r, p).color == Black
    ensures forall p :: OnBoard(p) && p.y >= BOARD_HEIGHT - 2 ==> HasPiece(r, p) && At(r, p).color == White
  {
    var rows: seq<seq<Piece>> := seq(BOARD_HEIGHT, y requires 0 <= y < BOARD_HEIGHT =>
      seq(BOARD_WIDTH, x requires 0 <= x < BOARD_WIDTH => InitialPiece(x, y)));
    assert forall y :: 0 <= y < |rows| ==> |rows[y]| == BOARD_WIDTH;
    InitialLayout(rows);
    rows
  }

  /** A board holding `InitialPiece` on every square has the layout of
      `reset`. */
  lemma InitialLayout(r: Board)
    requires forall y, x :: 0 <= y < BOARD_HEIGHT && 0 <= x < BOARD_WIDTH ==> r[y][x] == InitialPiece(x, y)
    ensures KingsHome(r)
    ensures At(r, Point(4, 0)) == NewPiece(King, Black) && At(r, Point(4, BOARD_HEIGHT - 1)) == NewPiece(King, White)
    ensures forall p :: OnBoard(p) && 2 <= p.y < BOARD_HEIGHT - 2 ==> !HasPiece(r, p)
    ensures forall p :: OnBoard(p) ==> At(r, p).firstMove
    ensures forall x :: 0 <= x < BOARD_WIDTH ==>
      && At(r, Point(x, 0)) == NewPiece(BackRank[x], Black)
      && At(r, Point(x, 1)) == NewPiece(Pawn, Black)
      && At(r, Point(x, BOARD_HEIGHT - 2)) == NewPiece(Pawn, White)
      && At(r, Point(x, BOARD_HEIGHT - 1)) == NewPiece(BackRank[x], White)
    ensures forall p :: OnBoard(p) && p.y < 2 ==> HasPiece(r, p) && At(r, p).color == Black
    ensures forall p :: OnBoard(p) && p.y >= BOARD_HEIGHT - 2 ==> HasPiece(r, p) && At(r, p).color == White
  {
  }

  // ---------------------------------------------------------------- cursor helpers

  /** `checkOffsets`: along every axis with a non-zero offset, the target lies
      strictly on that side of the location. */
  function CheckOffsets(location: Point, target: Point, x: int, y: int): (correct: bool)
    ensures correct <==>
      && (x > 0 ==> target.x > location.x)
      && (x < 0 ==> target.x < location.x)
      && (y > 0 ==> target.y > location.y)
      && (y < 0 ==> target.y < location.y)
  {
    var c1 := !(x > 0 && target.x <= location.x);
    var c2 := c1 && !(x < 0 && target.x >= location.x);
    var c3 := c2 && !(y > 0 && target.y <= location.y);
    c3 && !(y < 0 && target.y >= location.y)
  }

  function Abs(n: int): nat
  {
    if n < 0 then -n else n
  }

  /** The Manhattan distance the cursor searches compare. */
  function Distance(a: Point, b: Point): nat
  {
    Abs(a.x - b.x) + Abs(a.y - b.y)
  }

  // ---------------------------------------------------------------- findNearest*

  /** The square is strictly ahead of `location` along the cursor's offsets. */
  predicate Ahead(location: Point, p: Point, dx: int, dy: int)
  {
    CheckOffsets(location, p, dx, dy)
  }

  /** One iteration of the search loops of `findNearestTarget` and
      `findNearestPiece`: a candidate ahead replaces a current result that is
      not ahead, or one that is strictly farther away. */
  function NearestStep(location: Point, result: Point, p: Point, dx: int, dy: int): Point
  {
    if !CheckOffsets(location, result, dx, dy) && CheckOffsets(location, p, dx, dy) then p
    else if Distance(location, p) < Distance(location, result) && CheckOffsets(location, p, dx, dy) then p
    else result
  }

  /** The search loop run from `start` over `options` in order. */
  function NearestAmong(location: Point, start: Point, options: seq<Point>, dx: int, dy: int): Point
  {
    if options == [] then start
    else NearestStep(location, NearestAmong(location, start, options[..|options| - 1], dx, dy), options[|options| - 1], dx, dy)
  }

  /** One more option folds in through one step. */
  lemma NearestAmongSnoc(location: Point, start: Point, options: seq<Point>, p: Point, dx: int, dy: int)
    ensures NearestAmong(location, start, options + [p], dx, dy) ==
      NearestStep(location, NearestAmong(location, start, options, dx, dy), p, dx, dy)
  {
    assert (options + [p])[..|options|] == options;
  }

  /** `findNearestTarget(location, options, x, y)`. */
  function NearestTarget(location: Point, options: seq<Point>, dx: int, dy: int): Point
  {
    NearestAmong(location, location, options, dx, dy)
  }

  /** The squares holding a piece of `color` strictly before (x, y) in
      row-major order: those the second loop of `findNearestPiece` has
      visited. */
  function OwnSquaresBefore(b: Board, color: Color, y: int, x: int): (r: seq<Point>)
    requires 0 <= y < BOARD_HEIGHT && 0 <= x <= BOARD_WIDTH
    ensures forall p :: p in r ==> OnBoard(p) && Matches(b, p, PieceOf(color))
    decreases y, x
  {
    if x == 0 then (if y == 0 then [] else OwnSquaresBefore(b, color, y - 1, BOARD_WIDTH))
    else
      var p := Point(x - 1, y);
      OwnSquaresBefore(b, color, y, x - 1) + (if Matches(b, p, PieceOf(color)) then [p] else [])
  }

  /** Every square of `color`, in row-major order. */
  function OwnSquares(b: Board, color: Color): seq<Point>
  {
    // The bounds are taken from the board, not written as numerals, so that
    // the verifier does not unfold the recursion square by square.
    OwnSquaresBefore(b, color, |b| - 1, |b[0]|)
  }

  /** The second loop of `findNearestPiece` from square (x, y) on, with
      running result r: each piece of `color` met in row-major order is
      weighed against r. */
  function NearestScan(b: Board, location: Point, color: Color, dx: int, dy: int, r: Point, y: int, x: int): Point
    requires 0 <= y <= BOARD_HEIGHT && 0 <= x <= BOARD_WIDTH
    decreases BOARD_HEIGHT - y, BOARD_WIDTH - x
  {
    if y == BOARD_HEIGHT then r
    else if x == BOARD_WIDTH then NearestScan(b, location, color, dx, dy, r, y + 1, 0)
    else
      var p := Point(x, y);
      var r' := if Matches(b, p, PieceOf(color)) then NearestStep(location, r, p, dx, dy) else r;
      NearestScan(b, location, color, dx, dy, r', y, x + 1)
  }

  /** `findNearestPiece(location, color, x, y)`: the search starts from
      `location` when it holds a piece of `color`, else from the first such
      piece in row-major order; with no such piece the result is `location`. */
  function NearestPiece(b: Board, location: Point, color: Color, dx: int, dy: int): Point
    requires OnBoard(location)
  {
    var start :=
      if HasPiece(b, location) && At(b, location).color == color then Some(location)
      else ScanFrom(b, PieceOf(color), 0, 0);
    match start
    case None => location
    case Some(s) => NearestAmong(location, s, OwnSquares(b, color), dx, dy)
  }
}
