/** The `Game` object of game.h and game.cpp, and the move generation of
    piece.cpp that reads it. Every method works on the `pieces` array as the
    source does and is proved against the board functions of MoveGen and
    Rules; `board` is the array's contents as a value. */
module Engine {
  import opened Options
  import opened Points
  import opened Pieces
  import opened Boards
  import opened MoveGen
  import opened Rules
  import opened RulesFacts

  class Game {
    /** `Piece pieces[BOARD_HEIGHT][BOARD_WIDTH]`, indexed [y, x]. */
    const pieces: array2<Piece>
    /** The contents of `pieces`. */
    ghost var board: Board
    var mode: BoardMode
    var selectedPiece: Point
    var selectedTarget: Point
    var lastSelected: Point
    var lastTarget: Point
    var currentTurn: Color
    var firstMove: bool
    var blackResigned: bool
    var whiteResigned: bool

    /** `pieces` holds exactly `board`. */
    ghost predicate Synced()
      reads this, pieces
    {
      && pieces.Length0 == BOARD_HEIGHT && pieces.Length1 == BOARD_WIDTH
      && forall y, x :: 0 <= y < BOARD_HEIGHT && 0 <= x < BOARD_WIDTH ==> pieces[y, x] == board[y][x]
    }

    /** In sync, and every unmoved king on column 4, which the castling
        lookups of `getMoves` rely on. */
    ghost predicate Valid()
      reads this, pieces
    {
      Synced() && KingsHome(board)
    }

    /** `Game()`: `Piece()` on every square, white to move, DISPLAY mode,
        every point (0, 0), `firstMove` set and nobody resigned. */
    constructor ()
      ensures Valid() && fresh(pieces)
      ensures board == EmptyBoard()
      ensures mode == Display && currentTurn == White
      ensures selectedPiece == Point(0, 0) && selectedTarget == Point(0, 0)
      ensures lastSelected == Point(0, 0) && lastTarget == Point(0, 0)
      ensures firstMove && !blackResigned && !whiteResigned
    {
      pieces := new Piece[BOARD_HEIGHT, BOARD_WIDTH]((y, x) => EmptyPiece);
      board := EmptyBoard();
      mode := Display;
      selectedPiece, selectedTarget := Point(0, 0), Point(0, 0);
      lastSelected, lastTarget := Point(0, 0), Point(0, 0);
      currentTurn := White;
      firstMove, blackResigned, whiteResigned := true, false, false;
    }

    /** `Game(const Game& game)`: copies the turn, the mode, the selection
        and the 64 squares into a fresh array; the last move, `firstMove` and
        the resignation flags keep their defaults. */
    constructor Copy(game: Game)
      requires game.Valid()
      ensures Valid() && fresh(pieces)
      ensures board == game.board
      ensures currentTurn == game.currentTurn && mode == game.mode
      ensures selectedPiece == game.selectedPiece && selectedTarget == game.selectedTarget
      ensures lastSelected == Point(0, 0) && lastTarget == Point(0, 0)
      ensures firstMove && !blackResigned && !whiteResigned
    {
      currentTurn := game.currentTurn;
      mode := game.mode;
      selectedPiece := game.selectedPiece;
      selectedTarget := game.selectedTarget;
      lastSelected, lastTarget := Point(0, 0), Point(0, 0);
      firstMove, blackResigned, whiteResigned := true, false, false;
      pieces := new Piece[BOARD_HEIGHT, BOARD_WIDTH]((y, x) => EmptyPiece);
      board := game.board;
      new;
      // The source bounds y by BOARD_WIDTH and x by BOARD_HEIGHT; both are 8.
      for y := 0 to BOARD_WIDTH
        modifies pieces
        invariant forall y', x' :: 0 <= y' < y && 0 <= x' < BOARD_WIDTH ==> pieces[y', x'] == board[y'][x']
      {
        for x := 0 to BOARD_HEIGHT
          modifies pieces
          invariant forall y', x' :: 0 <= y' < y && 0 <= x' < BOARD_WIDTH ==> pieces[y', x'] == board[y'][x']
          invariant forall x' :: 0 <= x' < x ==> pieces[y, x'] == board[y][x']
        {
          pieces[y, x] := game.pieces[y, x];
        }
      }
    }

    /** `hasPiece(location)`. */
    function HasPiece(location: Point): (has: bool)
      reads this, pieces
      requires Synced() && OnBoard(location)
      ensures has <==> Boards.HasPiece(board, location)
    {
      !TypeEquals(pieces[location.y, location.x].kind, Empty)
    }

    /** `getPiece(location)`: row y, column x. */
    function GetPiece(location: Point): (piece: Piece)
      reads this, pieces
      requires Synced() && OnBoard(location)
      ensures piece == At(board, location)
    {
      pieces[location.y, location.x]
    }

    method SetSelectedPiece(point: Point)
      modifies this`selectedPiece
      ensures selectedPiece == point
    {
      selectedPiece := point;
    }

    method SetSelectedTarget(point: Point)
      modifies this`selectedTarget
      ensures selectedTarget == point
    {
      selectedTarget := point;
    }

    method SetCurrentTurn(color: Color)
      modifies this`currentTurn
      ensures currentTurn == color
    {
      currentTurn := color;
    }

    /** One write to the array, mirrored on `board`. */
    method Place(p: Point, v: Piece)
      requires Synced() && OnBoard(p)
      modifies pieces, this`board
      ensures Synced() && board == Put(old(board), p, v)
    {
      pieces[p.y, p.x] := v;
      board := Put(board, p, v);
    }

    /** `std::fill` of the whole array with v. */
    method Fill(v: Piece)
      requires pieces.Length0 == BOARD_HEIGHT && pieces.Length1 == BOARD_WIDTH
      modifies pieces
      ensures forall y, x :: 0 <= y < BOARD_HEIGHT && 0 <= x < BOARD_WIDTH ==> pieces[y, x] == v
    {
      for y := 0 to BOARD_HEIGHT
        invariant forall y', x' :: 0 <= y' < y && 0 <= x' < BOARD_WIDTH ==> pieces[y', x'] == v
      {
        for x := 0 to BOARD_WIDTH
          invariant forall y', x' :: 0 <= y' < y && 0 <= x' < BOARD_WIDTH ==> pieces[y', x'] == v
          invariant forall x' :: 0 <= x' < x ==> pieces[y, x'] == v
        {
          pieces[y, x] := v;
        }
      }
    }

    /** The body of reset's loop over rows 0 and 7: rook, knight, bishop,
        queen, king, bishop, knight, rook of one colour. */
    method SetBackRank(row: int, color: Color)
      requires pieces.Length0 == BOARD_HEIGHT && pieces.Length1 == BOARD_WIDTH && 0 <= row < BOARD_HEIGHT
      modifies pieces
      ensures forall x :: 0 <= x < BOARD_WIDTH ==> pieces[row, x] == NewPiece(BackRank[x], color)
      ensures forall y, x :: 0 <= y < BOARD_HEIGHT && 0 <= x < BOARD_WIDTH && y != row ==> pieces[y, x] == old(pieces[y, x])
    {
      pieces[row, 0] := NewPiece(Rook, color);
      pieces[row, 7] := NewPiece(Rook, color);
      pieces[row, 1] := NewPiece(Knight, color);
      pieces[row, 6] := NewPiece(Knight, color);
      pieces[row, 2] := NewPiece(Bishop, color);
      pieces[row, 5] := NewPiece(Bishop, color);
      pieces[row, 3] := NewPiece(Queen, color);
      pieces[row, 4] := NewPiece(King, color);
    }

    /** `reset`: fill with `Piece(EMPTY, WHITE)`, pawns on rows 1 and 6, the
        back ranks on rows 0 (black) and 7 (white). */
    method Reset()
      requires Synced()
      modifies pieces, this`board
      ensures Valid() && board == InitialBoard()
    {
      Fill(NewPiece(Empty, White));
      for x := 0 to BOARD_WIDTH
        invariant forall y', x' :: 0 <= y' < BOARD_HEIGHT && 0 <= x' < BOARD_WIDTH ==>
          pieces[y', x'] == if (y' == 1 || y' == 6) && x' < x then InitialPiece(x', y') else EmptyPiece
      {
        pieces[1, x] := NewPiece(Pawn, Black);
        pieces[6, x] := NewPiece(Pawn, White);
      }
      var rows := [0, 7];
      for i := 0 to |rows|
        invariant forall y', x' :: 0 <= y' < BOARD_HEIGHT && 0 <= x' < BOARD_WIDTH ==>
          pieces[y', x'] ==
            if (y' == 0 && i < 1) || (y' == 7 && i < 2) then EmptyPiece else InitialPiece(x', y')
      {
        var row := rows[i];
        var color := if row == 0 then Black else White;
        SetBackRank(row, color);
      }
      board := InitialBoard();
      assert forall y, x :: 0 <= y < BOARD_HEIGHT && 0 <= x < BOARD_WIDTH ==> board[y][x] == InitialPiece(x, y);
    }

    /** `moveToTarget`: records the move as the last one, clears the origin,
        performs the castling hop for an unmoved king moving to file 6 or 2,
        and puts the piece, flag cleared, on the target. */
    method MoveToTarget()
      requires Valid() && OnBoard(selectedPiece) && OnBoard(selectedTarget)
      modifies pieces, this`board, this`lastSelected, this`lastTarget, this`firstMove
      ensures Valid()
      ensures board == MoveOnBoard(old(board), selectedPiece, selectedTarget)
      ensures lastSelected == selectedPiece && lastTarget == selectedTarget && !firstMove
    {
      lastSelected := selectedPiece;
      lastTarget := selectedTarget;
      firstMove := false;
      var piece := pieces[selectedPiece.y, selectedPiece.x];
      Place(selectedPiece, EmptyPiece);
      ghost var cleared := board;
      assert piece == At(old(board), selectedPiece);
      if piece.kind == King && piece.firstMove {
        if selectedTarget.x == 6 {
          var rook := pieces[selectedPiece.y, 7];
          assert rook == At(cleared, Point(7, selectedPiece.y));
          if rook.firstMove {
            Place(Point(7, selectedPiece.y), EmptyPiece);
            rook := SetFirstMove(rook, false);
            Place(Point(5, selectedPiece.y), rook);
          }
          assert board == RookHop(cleared, selectedPiece.y, 7, 5);
        } else if selectedTarget.x == 2 {
          var rook := pieces[selectedPiece.y, 0];
          assert rook == At(cleared, Point(0, selectedPiece.y));
          if rook.firstMove {
            Place(Point(0, selectedPiece.y), EmptyPiece);
            rook := SetFirstMove(rook, false);
            Place(Point(3, selectedPiece.y), rook);
          }
          assert board == RookHop(cleared, selectedPiece.y, 0, 3);
        }
      }
      ghost var hopped := board;
      assert hopped ==
        if piece.kind == King && piece.firstMove then
          if selectedTarget.x == 6 then RookHop(cleared, selectedPiece.y, 7, 5)
          else if selectedTarget.x == 2 then RookHop(cleared, selectedPiece.y, 0, 3)
          else cleared
        else cleared;
      piece := SetFirstMove(piece, false);
      Place(selectedTarget, piece);
      assert board == MoveOnBoard(old(board), selectedPiece, selectedTarget);
    }

    /** The inner loop of the first scan of `isInCheck` and of
        `findNearestPiece`: the first square of row y matching q. */
    method MatchInRow(q: Quarry, y: int) returns (found: bool, at: Point)
      requires Valid() && 0 <= y < BOARD_HEIGHT
      ensures found ==> ScanFrom(board, q, y, 0) == Some(at)
      ensures !found ==> ScanFrom(board, q, y, 0) == ScanFrom(board, q, y + 1, 0)
    {
      for x := 0 to BOARD_HEIGHT
        invariant ScanFrom(board, q, y, 0) == ScanFrom(board, q, y, x)
      {
        var point := Point(x, y);
        if HasPiece(point) {
          var piece := GetPiece(point);
          if piece.color == q.c && (q.KingOf? ==> piece.kind == King) {
            return true, point;
          }
        }
      }
      return false, Point(0, 0);
    }

    /** The first nested loop of `isInCheck` and of `findNearestPiece`: scan
        the squares in row-major order and stop at the first one matching q. */
    method FirstMatch(q: Quarry) returns (found: bool, at: Point)
      requires Valid()
      ensures found <==> ScanFrom(board, q, 0, 0).Some?
      ensures found ==> ScanFrom(board, q, 0, 0) == Some(at)
    {
      found, at := false, Point(0, 0);
      for y := 0 to BOARD_WIDTH
        invariant !found ==> ScanFrom(board, q, 0, 0) == ScanFrom(board, q, y, 0)
        invariant found ==> ScanFrom(board, q, 0, 0) == Some(at)
      {
        if found {
          break;
        }
        found, at := MatchInRow(q, y);
      }
    }

    /** The body of the second loop of `isInCheck` for one square: a piece of
        the other colour whose pseudo-legal moves include `king`. */
    method AttacksFrom(point: Point, color: Color, king: Point) returns (attacks: bool)
      requires Valid() && OnBoard(point)
      ensures attacks == Attacks(board, color, point, king)
    {
      if HasPiece(point) {
        var piece := GetPiece(point);
        if piece.color != color {
          var moves := GetMoves(piece, this, point);
          attacks := Reaches(moves, king);
          return;
        }
      }
      return false;
    }

    /** The inner loop of the second scan of `isInCheck`: some piece of
        row y from column x on reaches `king`. */
    method AttackedInRow(color: Color, king: Point, y: int) returns (attacked: bool)
      requires Valid() && 0 <= y < BOARD_HEIGHT
      ensures attacked ==> AttackedFrom(board, color, king, y, 0)
      ensures !attacked ==> AttackedFrom(board, color, king, y, 0) == AttackedFrom(board, color, king, y + 1, 0)
    {
      for x := 0 to BOARD_HEIGHT
        invariant AttackedFrom(board, color, king, y, 0) == AttackedFrom(board, color, king, y, x)
      {
        AttackedStep(board, color, king, y, x);
        var attacks := AttacksFrom(Point(x, y), color, king);
        if attacks {
          return true;
        }
      }
      AttackedStep(board, color, king, y, BOARD_WIDTH);
      return false;
    }

    /** The second loop of `isInCheck`: some piece of the other colour
        reaches `king`. */
    method AttackedSquare(color: Color, king: Point) returns (attacked: bool)
      requires Valid()
      ensures attacked == AttackedFrom(board, color, king, 0, 0)
    {
      for y := 0 to BOARD_WIDTH
        invariant AttackedFrom(board, color, king, 0, 0) == AttackedFrom(board, color, king, y, 0)
      {
        attacked := AttackedInRow(color, king, y);
        if attacked {
          return;
        }
      }
      return false;
    }

    /** `isInCheck(color)`: find the first king of `color` in row-major order
        (none: in check), then look for a piece of the other colour whose
        pseudo-legal moves reach it. */
    method IsInCheck(color: Color) returns (check: bool)
      requires Valid()
      ensures check == InCheck(board, color)
    {
      var foundKing, king := FirstMatch(KingOf(color));
      if !foundKing {
        return true;
      }
      check := AttackedSquare(color, king);
    }

    /** The body of the loop of `getState` for one square: a piece of `turn`
        with a non-empty `getValidMoves`. */
    method CanMove(point: Point, turn: Color) returns (movable: bool)
      requires Valid() && OnBoard(point)
      ensures movable == Movable(board, turn, point)
    {
      movable := false;
      if HasPiece(point) {
        var piece := GetPiece(point);
        if piece.color == turn {
          var valid := GetValidMoves(piece, this, point);
          movable := |valid| > 0;
        }
      }
    }

    /** The inner loop of `getState`: some piece of `turn` in row y has a
        legal move. */
    method MovableInRow(turn: Color, y: int) returns (movable: bool)
      requires Valid() && 0 <= y < BOARD_HEIGHT
      ensures movable ==> MovableFrom(board, turn, y, 0)
      ensures !movable ==> MovableFrom(board, turn, y, 0) == MovableFrom(board, turn, y + 1, 0)
    {
      for x := 0 to BOARD_HEIGHT
        invariant MovableFrom(board, turn, y, 0) == MovableFrom(board, turn, y, x)
      {
        movable := CanMove(Point(x, y), turn);
        if movable {
          return;
        }
      }
      return false;
    }

    /** `getState`: resignations first, then PLAY as soon as a piece of the
        side to move has a legal move, then mate or stalemate. */
    method GetState() returns (state: GameState)
      requires Valid()
      ensures state == StateOf(board, currentTurn, blackResigned, whiteResigned)
    {
      if blackResigned {
        return BlackResign;
      }
      if whiteResigned {
        return WhiteResign;
      }
      for y := 0 to BOARD_WIDTH
        invariant MovableFrom(board, currentTurn, 0, 0) == MovableFrom(board, currentTurn, y, 0)
      {
        var movable := MovableInRow(currentTurn, y);
        if movable {
          return Play;
        }
      }
      var inCheck := IsInCheck(currentTurn);
      if inCheck {
        match currentTurn
        case White => return WhiteWin;
        case Black => return BlackWin;
      }
      return Draw;
    }

    /** `checkPawnUpgrade`: every pawn of the side to move on its last row
        becomes a fresh piece of the kind `answer(x)` names (default queen).
        The source's `ai` parameter is unused and left out. */
    method CheckPawnUpgrade(answer: int -> string)
      requires Valid()
      modifies pieces, this`board
      ensures Valid() && board == Promote(old(board), currentTurn, answer)
    {
      var y := if currentTurn == White then 0 else BOARD_HEIGHT - 1;
      for x := 0 to BOARD_WIDTH
        invariant Synced()
        invariant forall y', x' :: 0 <= y' < BOARD_HEIGHT && 0 <= x' < BOARD_WIDTH ==>
          board[y'][x'] == if x' < x then PromotedAt(old(board), currentTurn, answer, x', y') else old(board)[y'][x']
      {
        var point := Point(x, y);
        if HasPiece(point) {
          var piece := GetPiece(point);
          if piece.color == currentTurn && piece.kind == Pawn {
            var upgrade := UpgradeKind(answer(x));
            Place(point, NewPiece(upgrade, currentTurn));
          }
        }
      }
      SameBoard(board, Promote(old(board), currentTurn, answer));
    }

    /** The inner loop of the second scan of `findNearestPiece` along row y:
        each piece of `color` is weighed against the running result. */
    method NearestInRow(location: Point, color: Color, xOffset: int, yOffset: int, y: int, from: Point)
      returns (result: Point)
      requires Valid() && 0 <= y < BOARD_HEIGHT
      ensures NearestScan(board, location, color, xOffset, yOffset, from, y, 0)
           == NearestScan(board, location, color, xOffset, yOffset, result, y + 1, 0)
    {
      result := from;
      for x := 0 to BOARD_HEIGHT
        invariant NearestScan(board, location, color, xOffset, yOffset, from, y, 0)
               == NearestScan(board, location, color, xOffset, yOffset, result, y, x)
      {
        var point := Point(x, y);
        if HasPiece(point) {
          var piece := pieces[y, x];
          if piece.color == color {
            result := Weigh(location, result, point, xOffset, yOffset);
          }
        }
      }
    }

    /** `findNearestPiece(location, color, xOffset, yOffset)`: start from
        `location` when it holds a piece of `color`, else from the first such
        piece (none: `location`), then keep the piece of `color` that the
        offsets and the distance prefer. */
    method FindNearestPiece(location: Point, color: Color, xOffset: int, yOffset: int) returns (result: Point)
      requires Valid() && OnBoard(location)
      ensures result == NearestPiece(board, location, color, xOffset, yOffset)
    {
      result := location;
      if !HasPiece(result) || GetPiece(location).color != color {
        var found;
        found, result := FirstMatch(PieceOf(color));
        if !found {
          return location;
        }
      }
      assert OwnSquaresBefore(board, color, 0, 0) == [];
      NearestScanIsAmong(board, location, color, xOffset, yOffset, result, 0);
      result := NearestSweep(location, color, xOffset, yOffset, result);
    }

    /** The second loop of `findNearestPiece`, from the running result `from`. */
    method NearestSweep(location: Point, color: Color, xOffset: int, yOffset: int, from: Point) returns (result: Point)
      requires Valid()
      ensures result == NearestScan(board, location, color, xOffset, yOffset, from, 0, 0)
    {
      result := from;
      for y := 0 to BOARD_WIDTH
        invariant NearestScan(board, location, color, xOffset, yOffset, from, 0, 0)
               == NearestScan(board, location, color, xOffset, yOffset, result, y, 0)
      {
        result := NearestInRow(location, color, xOffset, yOffset, y, result);
      }
    }
  }

  /** The body of the second loop of `findNearestPiece` and of the loop of
      `findNearestTarget` for one candidate: a candidate the offsets allow
      replaces a result they do not, and otherwise replaces it when strictly
      closer. */
  method Weigh(location: Point, result: Point, point: Point, xOffset: int, yOffset: int) returns (next: Point)
    ensures next == NearestStep(location, result, point, xOffset, yOffset)
  {
    if !CheckOffsets(location, result, xOffset, yOffset) {
      if CheckOffsets(location, point, xOffset, yOffset) {
        return point;
      }
    }
    next := result;
    if Distance(location, point) < Distance(location, result) && CheckOffsets(location, point, xOffset, yOffset) {
      next := point;
    }
  }

  /** `findNearestTarget(location, options, xOffset, yOffset)`. */
  method FindNearestTarget(location: Point, options: seq<Point>, xOffset: int, yOffset: int) returns (result: Point)
    ensures result == NearestTarget(location, options, xOffset, yOffset)
  {
    result := location;
    for i := 0 to |options|
      invariant result == NearestAmong(location, location, options[..i], xOffset, yOffset)
    {
      assert options[..i + 1][..i] == options[..i];
      result := Weigh(location, result, options[i], xOffset, yOffset);
    }
    assert options[..|options|] == options;
  }

  /** The `lookInDirection` loop with its output so far: `done` followed by
      the rest of the ray from `here`. */
  ghost function RayFrom(b: Board, mover: Color, here: Point, dx: int, dy: int, max: int, count: int,
                         done: seq<Point>): seq<Point>
    requires OnBoard(here) && (dx != 0 || dy != 0)
    decreases RayMeasure(here, dx, dy)
  {
    if max > 0 && count >= max then done
    else
      var next := Point(here.x + dx, here.y + dy);
      if !IsValidLocation(next.x, next.y) then done
      else if !Boards.HasPiece(b, next) then RayFrom(b, mover, next, dx, dy, max, count + 1, done + [next])
      else if At(b, next).color != mover then done + [next]
      else done
  }

  lemma {:induction false} RayFromIsRay(b: Board, mover: Color, here: Point, dx: int, dy: int, max: int, count: int,
                                        done: seq<Point>)
    requires OnBoard(here) && (dx != 0 || dy != 0)
    ensures RayFrom(b, mover, here, dx, dy, max, count, done) == done + Ray(b, mover, here, dx, dy, max, count)
    decreases RayMeasure(here, dx, dy)
  {
    if !(max > 0 && count >= max) {
      var next := Point(here.x + dx, here.y + dy);
      if IsValidLocation(next.x, next.y) && !Boards.HasPiece(b, next) {
        RayFromIsRay(b, mover, next, dx, dy, max, count + 1, done + [next]);
        assert (done + [next]) + Ray(b, mover, next, dx, dy, max, count + 1)
            == done + ([next] + Ray(b, mover, next, dx, dy, max, count + 1));
      }
    }
  }

  /** `lookInDirection(game, result, location, right, up, max)` for a piece
      of `piece.color`: appends the squares of the ray to `result`. */
  method LookInDirection(piece: Piece, game: Game, result: seq<Point>, location: Point, right: int, up: int, max: int)
    returns (extended: seq<Point>)
    requires game.Synced() && OnBoard(location)
    ensures extended == result + Look(game.board, piece.color, location, right, up, max)
  {
    extended := result;
    if right == 0 && up == 0 {
      return;
    }
    ghost var b, mover := game.board, piece.color;
    ghost var total := RayFrom(b, mover, location, right, up, max, 0, result);
    RayFromIsRay(b, mover, location, right, up, max, 0, result);
    var x, y, count := location.x, location.y, 0;
    while true
      invariant OnBoard(Point(x, y))
      invariant RayFrom(b, mover, Point(x, y), right, up, max, count, extended) == total
      decreases RayMeasure(Point(x, y), right, up)
    {
      if max > 0 && count >= max {
        break;
      }
      count := count + 1;
      x := x + right;
      y := y + up;
      if !IsValidLocation(x, y) {
        break;
      }
      var point := Point(x, y);
      if !game.HasPiece(point) {
        extended := extended + [point];
        continue;
      }
      var other := game.GetPiece(point);
      if other.color != piece.color {
        extended := extended + [point];
      }
      break;
    }
  }

  /** The loop of `isInCheck` over one piece's moves: does any of them
      equal `king`? */
  method Reaches(moves: seq<Point>, king: Point) returns (found: bool)
    ensures found <==> king in moves
  {
    for i := 0 to |moves|
      invariant king !in moves[..i]
    {
      if Equals(moves[i], king) {
        return true;
      }
    }
    assert moves[..|moves|] == moves;
    return false;
  }

  /** The loop `for (int* r : options) lookInDirection(...)` of getMoves. */
  method LookInDirections(piece: Piece, game: Game, result: seq<Point>, location: Point, options: seq<(int, int)>, max: int)
    returns (extended: seq<Point>)
    requires game.Valid() && OnBoard(location)
    ensures extended == result + Rays(game.board, piece.color, location, options, max)
  {
    extended := result;
    for i := 0 to |options|
      invariant extended == result + Rays(game.board, piece.color, location, options[..i], max)
    {
      extended := LookInOption(piece, game, result, extended, location, options, i, max);
    }
    assert options[..|options|] == options;
  }

  /** The body of the `options` loop: the ray of direction i follows the
      rays of the directions before it. */
  method LookInOption(piece: Piece, game: Game, result: seq<Point>, done: seq<Point>, location: Point,
                      options: seq<(int, int)>, i: int, max: int)
    returns (extended: seq<Point>)
    requires game.Valid() && OnBoard(location) && 0 <= i < |options|
    requires done == result + Rays(game.board, piece.color, location, options[..i], max)
    ensures extended == result + Rays(game.board, piece.color, location, options[..i + 1], max)
  {
    ghost var b := game.board;
    RaysStep(b, piece.color, location, options, i, max);
    var r := options[i];
    ghost var before := Rays(b, piece.color, location, options[..i], max);
    ghost var look := Look(b, piece.color, location, r.0, r.1, max);
    extended := LookInDirection(piece, game, done, location, r.0, r.1, max);
    AppendAssoc(result, before, look);
  }

  /** One step of the `options` loop: the first i + 1 directions give the
      rays of the first i followed by the ray of direction i. */
  lemma RaysStep(b: Board, mover: Color, loc: Point, dirs: seq<(int, int)>, i: int, max: int)
    requires OnBoard(loc) && 0 <= i < |dirs|
    ensures Rays(b, mover, loc, dirs[..i + 1], max)
         == Rays(b, mover, loc, dirs[..i], max) + Look(b, mover, loc, dirs[i].0, dirs[i].1, max)
  {
    assert dirs[..i + 1][..i] == dirs[..i];
  }

  /** `runForValidOffset(location, 0, dy, pawnLogicForward)`. */
  method PawnLogicForward(game: Game, result: seq<Point>, location: Point, dy: int) returns (extended: seq<Point>)
    requires game.Valid()
    ensures extended == result + PawnForward(game.board, location, dy)
  {
    extended := result;
    var loc := ValidOffset(location, 0, dy);
    if loc.Some? && !game.HasPiece(loc.value) {
      extended := extended + [loc.value];
    }
  }

  /** `runForValidOffset(location, 0, 2 * dy, pawnLogicForwardFirst)`. */
  method PawnLogicForwardFirst(piece: Piece, game: Game, result: seq<Point>, location: Point) returns (extended: seq<Point>)
    requires game.Valid() && OnBoard(location)
    ensures extended == result + PawnForwardFirst(game.board, piece, location)
  {
    extended := result;
    var loc := ValidOffset(location, 0, 2 * PawnDirection(piece.color));
    if loc.Some? && piece.firstMove {
      var between := Point(loc.value.x, loc.value.y + (if piece.color == White then 1 else -1));
      if game.HasPiece(between) {
        return;
      }
      if !game.HasPiece(loc.value) {
        extended := extended + [loc.value];
      }
    }
  }

  /** `runForValidOffset(location, dx, dy, pawnLogicCapture)`. */
  method PawnLogicCapture(piece: Piece, game: Game, result: seq<Point>, location: Point, dx: int, dy: int)
    returns (extended: seq<Point>)
    requires game.Valid()
    ensures extended == result + PawnCapture(game.board, piece.color, location, dx, dy)
  {
    extended := result;
    var loc := ValidOffset(location, dx, dy);
    if loc.Some? && game.HasPiece(loc.value) {
      if game.GetPiece(loc.value).color != piece.color {
        extended := extended + [loc.value];
      }
    }
  }

  /** `runForValidOffset(location, dx, dy, ...)` with the knight's action:
      append the square unless a piece of the mover's colour stands there. */
  method KnightJump(piece: Piece, game: Game, result: seq<Point>, location: Point, dx: int, dy: int)
    returns (extended: seq<Point>)
    requires game.Valid()
    ensures extended == result + Jump(game.board, piece.color, location, dx, dy)
  {
    extended := result;
    var loc := ValidOffset(location, dx, dy);
    if loc.Some? {
      if !(game.HasPiece(loc.value) && game.GetPiece(loc.value).color == piece.color) {
        extended := extended + [loc.value];
      }
    }
  }

  /** The knight loop of getMoves over its eight offsets. */
  method KnightLogic(piece: Piece, game: Game, result: seq<Point>, location: Point) returns (extended: seq<Point>)
    requires game.Valid()
    ensures extended == result + Jumps(game.board, piece.color, location, KnightOffsets)
  {
    extended := result;
    var options := KnightOffsets;
    for i := 0 to |options|
      invariant extended == result + Jumps(game.board, piece.color, location, options[..i])
    {
      extended := KnightOption(piece, game, result, extended, location, options, i);
    }
    assert options[..|options|] == options;
  }

  /** The body of the knight loop: the jump by offset i follows the jumps by
      the offsets before it. */
  method KnightOption(piece: Piece, game: Game, result: seq<Point>, done: seq<Point>, location: Point,
                      options: seq<(int, int)>, i: int)
    returns (extended: seq<Point>)
    requires game.Valid() && 0 <= i < |options|
    requires done == result + Jumps(game.board, piece.color, location, options[..i])
    ensures extended == result + Jumps(game.board, piece.color, location, options[..i + 1])
  {
    ghost var b := game.board;
    assert options[..i + 1][..i] == options[..i];
    ghost var before := Jumps(b, piece.color, location, options[..i]);
    ghost var jump := Jump(b, piece.color, location, options[i].0, options[i].1);
    extended := KnightJump(piece, game, done, location, options[i].0, options[i].1);
    AppendAssoc(result, before, jump);
  }

  /** `runForValidOffset(location, 0, 0, kingCastleLogic)`. */
  method KingCastleLogic(piece: Piece, game: Game, result: seq<Point>, location: Point) returns (extended: seq<Point>)
    requires game.Valid() && OnBoard(location) && CastleSafe(piece, location)
    ensures extended == result + Castling(game.board, piece, location)
  {
    extended := result;
    var loc := ValidOffset(location, 0, 0);
    if loc.Some? && piece.firstMove && piece.kind == King {
      var k := loc.value;
      extended := CastleRightLogic(game, extended, k);
      extended := CastleLeftLogic(game, extended, k);
      AppendAssoc(result, CastleRight(game.board, k), CastleLeft(game.board, k));
    }
  }

  /** The king-side half of `kingCastleLogic` for a king on k. */
  method CastleRightLogic(game: Game, result: seq<Point>, k: Point) returns (extended: seq<Point>)
    requires game.Valid() && OnBoard(k) && k.x == 4
    ensures extended == result + CastleRight(game.board, k)
  {
    extended := result;
    var rookRight := Point(k.x + 3, k.y);
    if game.HasPiece(rookRight) && game.GetPiece(rookRight).firstMove {
      if !game.HasPiece(Point(k.x + 2, k.y)) && !game.HasPiece(Point(k.x + 1, k.y)) {
        extended := extended + [Point(k.x + 2, k.y)];
      }
    }
  }

  /** The queen-side half of `kingCastleLogic` for a king on k. */
  method CastleLeftLogic(game: Game, result: seq<Point>, k: Point) returns (extended: seq<Point>)
    requires game.Valid() && OnBoard(k) && k.x == 4
    ensures extended == result + CastleLeft(game.board, k)
  {
    extended := result;
    var rookLeft := Point(k.x - 4, k.y);
    if game.HasPiece(rookLeft) && game.GetPiece(rookLeft).firstMove {
      if !game.HasPiece(Point(k.x - 3, k.y)) && !game.HasPiece(Point(k.x - 2, k.y)) && !game.HasPiece(Point(k.x - 1, k.y)) {
        extended := extended + [Point(k.x - 2, k.y)];
      }
    }
  }

  /** The pawn branch of `getMoves`: the forward step, the double step and
      the two captures, toward row 0 for white and row 7 for black. */
  method PawnLogic(piece: Piece, game: Game, location: Point) returns (result: seq<Point>)
    requires game.Valid() && OnBoard(location)
    ensures result == PawnMoves(game.board, piece, location)
  {
    var d := PawnDirection(piece.color);
    result := PawnLogicForward(game, [], location, d);
    result := PawnLogicForwardFirst(piece, game, result, location);
    result := PawnLogicCapture(piece, game, result, location, 1, d);
    result := PawnLogicCapture(piece, game, result, location, -1, d);
  }

  /** `Piece::getMoves(game, location)` for `piece`. */
  method GetMoves(piece: Piece, game: Game, location: Point) returns (result: seq<Point>)
    requires game.Valid() && OnBoard(location) && CastleSafe(piece, location)
    ensures result == Moves(game.board, piece, location)
  {
    result := [];
    if piece.kind == Pawn {
      result := PawnLogic(piece, game, location);
    } else if piece.kind == Rook {
      result := LookInDirections(piece, game, result, location, RookDirections, -1);
    } else if piece.kind == Bishop {
      result := LookInDirections(piece, game, result, location, BishopDirections, -1);
    } else if piece.kind == Queen {
      result := LookInDirections(piece, game, result, location, EightDirections, -1);
    } else if piece.kind == Knight {
      result := KnightLogic(piece, game, result, location);
    } else if piece.kind == King {
      result := KingLogic(piece, game, location);
    }
  }

  /** The king branch of `getMoves`: one square in each of the eight
      directions, then the castling candidates. */
  method KingLogic(piece: Piece, game: Game, location: Point) returns (result: seq<Point>)
    requires game.Valid() && OnBoard(location) && CastleSafe(piece, location)
    ensures result == Rays(game.board, piece.color, location, EightDirections, 1) + Castling(game.board, piece, location)
  {
    result := LookInDirections(piece, game, [], location, EightDirections, 1);
    result := KingCastleLogic(piece, game, result, location);
  }

  /** The predicate of the `copy_if` in `getValidMoves`: play `location` to
      `point` on a fresh copy of the game and ask whether `color` is then in
      check. The game itself is not modified. */
  method CheckAfter(game: Game, color: Color, location: Point, point: Point) returns (inCheck: bool)
    requires game.Valid() && OnBoard(location) && OnBoard(point)
    ensures inCheck == InCheck(MoveOnBoard(game.board, location, point), color)
  {
    var copy := new Game.Copy(game);
    copy.SetSelectedPiece(location);
    copy.SetSelectedTarget(point);
    copy.MoveToTarget();
    inCheck := copy.IsInCheck(color);
  }

  /** `Piece::getValidMoves(game, location)`: each pseudo-legal destination is
      played on a fresh copy of the game and kept, in order, when it leaves
      the mover's colour out of check. The game itself is not modified. */
  method GetValidMoves(piece: Piece, game: Game, location: Point) returns (checked: seq<Point>)
    requires game.Valid() && OnBoard(location) && CastleSafe(piece, location)
    ensures checked == ValidMoves(game.board, piece, location)
  {
    var result := GetMoves(piece, game, location);
    checked := [];
    for i := 0 to |result|
      invariant checked == KeepSafe(game.board, piece.color, location, result[..i])
    {
      checked := KeepIfSafe(game, piece.color, location, result, checked, i);
    }
    assert result[..|result|] == result;
  }

  /** One step of `copy_if`: destination i is kept after those kept before
      it exactly when it leaves `color` out of check. */
  lemma KeepSafeStep(b: Board, color: Color, location: Point, ts: seq<Point>, i: int)
    requires KingsHome(b) && OnBoard(location) && 0 <= i < |ts|
    requires forall t :: t in ts ==> OnBoard(t)
    ensures KeepSafe(b, color, location, ts[..i + 1]) ==
      var kept := KeepSafe(b, color, location, ts[..i]);
      if InCheck(MoveOnBoard(b, location, ts[i]), color) then kept else kept + [ts[i]]
  {
    assert ts[..i + 1][..i] == ts[..i];
  }

  /** The test of `copy_if` on destination i: keep it after those kept
      before it when it leaves `color` out of check. */
  method KeepIfSafe(game: Game, color: Color, location: Point, result: seq<Point>, kept: seq<Point>, i: int)
    returns (checked: seq<Point>)
    requires game.Valid() && OnBoard(location) && 0 <= i < |result|
    requires forall t :: t in result ==> OnBoard(t)
    requires kept == KeepSafe(game.board, color, location, result[..i])
    ensures checked == KeepSafe(game.board, color, location, result[..i + 1])
  {
    KeepSafeStep(game.board, color, location, result, i);
    var point := result[i];
    var inCheck := CheckAfter(game, color, location, point);
    checked := kept;
    if !inCheck {
      checked := checked + [point];
    }
  }
}
