/** The greedy computer player of ai.cpp: material values, the material a
    side has under attack, the scoring of every legal move of the side to
    move and the choice among the scored moves. The functions state what the
    source computes; the methods compute it on a `Game` as the source does. */
module Ai {
  import opened Points
  import opened Pieces
  import opened Boards
  import opened MoveGen
  import opened Rules
  import opened RulesFacts
  import opened Engine

  // ---------------------------------------------------------------- values

  /** `getMaterialValue`: the usual values, with the king counted as 3 and an
      empty square as 0. */
  function MaterialValue(kind: Kind): (v: int)
    ensures 0 <= v <= 9
    ensures v == 0 <==> kind == Empty
  {
    match kind
    case Pawn => 1
    case Bishop => 3
    case Knight => 3
    case Rook => 5
    case Queen => 9
    case King => 3
    case Empty => 0
  }

  /** C++ `a / 3` on `int`, which truncates toward zero (Dafny's `/` is
      Euclidean and rounds negative quotients down instead). */
  function TruncDiv3(a: int): (q: int)
    ensures a >= 0 ==> 3 * q <= a < 3 * q + 3
    ensures a < 0 ==> 3 * q - 3 < a <= 3 * q
  {
    if a >= 0 then a / 3 else -((-a) / 3)
  }

  // ---------------------------------------------------------------- getEndangeredMaterial

  /** A piece of `color` on t that the other side could take with the legal
      move from p to t. */
  predicate Threatened(b: Board, color: Color, p: Point, t: Point)
    requires KingsHome(b)
  {
    Legal(b, Opponent(color), p, t) && HasPiece(b, t) && At(b, t).color == color
  }

  /** The value of a piece of colour `color` standing on `to`, else 0. */
  function Captured(b: Board, color: Color, to: Point): int
    requires OnBoard(to)
  {
    if HasPiece(b, to) && At(b, to).color == color then MaterialValue(At(b, to).kind) else 0
  }

  /** The innermost loop of `getEndangeredMaterial`: the values of the pieces
      of colour `color` on the destinations `ts`. */
  function CaptureSum(b: Board, color: Color, ts: seq<Point>): int
    requires forall t :: t in ts ==> OnBoard(t)
  {
    if ts == [] then 0
    else CaptureSum(b, color, ts[..|ts| - 1]) + Captured(b, color, ts[|ts| - 1])
  }

  /** What the piece on p threatens: when it belongs to the other side, the
      value of the pieces of `color` on its legal destinations. */
  function Threat(b: Board, color: Color, p: Point): int
    requires KingsHome(b) && OnBoard(p)
  {
    if HasPiece(b, p) && At(b, p).color != color then CaptureSum(b, color, ValidMoves(b, At(b, p), p))
    else 0
  }

  /** A row-major sum from square (x, y) on. */
  function SumFrom(f: Point -> int, y: int, x: int): int
    requires 0 <= y <= BOARD_HEIGHT && 0 <= x <= BOARD_WIDTH
    decreases BOARD_HEIGHT - y, BOARD_WIDTH - x
  {
    if y == BOARD_HEIGHT then 0
    else if x == BOARD_WIDTH then SumFrom(f, y + 1, 0)
    else f(Point(x, y)) + SumFrom(f, y, x + 1)
  }

  /** The loops of `getEndangeredMaterial` from square (x, y) on. */
  function EndangeredFrom(b: Board, color: Color, y: int, x: int): int
    requires KingsHome(b) && 0 <= y <= BOARD_HEIGHT && 0 <= x <= BOARD_WIDTH
  {
    SumFrom(p => if OnBoard(p) then Threat(b, color, p) else 0, y, x)
  }

  /** `getEndangeredMaterial(game, color)`: the material of `color` that the
      other side could take with one legal move, counted once per move. */
  function Endangered(b: Board, color: Color): int
    requires KingsHome(b)
  {
    EndangeredFrom(b, color, 0, 0)
  }

  /** One step of the sum along row y. */
  lemma EndangeredStep(b: Board, color: Color, y: int, x: int)
    requires KingsHome(b) && 0 <= y < BOARD_HEIGHT && 0 <= x <= BOARD_WIDTH
    ensures x < BOARD_WIDTH ==>
      EndangeredFrom(b, color, y, x) == Threat(b, color, Point(x, y)) + EndangeredFrom(b, color, y, x + 1)
    ensures x == BOARD_WIDTH ==> EndangeredFrom(b, color, y, x) == EndangeredFrom(b, color, y + 1, 0)
  {
  }

  // ---------------------------------------------------------------- aiMakeMove: scoring

  /** `PossibleMove`. The source's `piece` member is never set or read and is
      left out. */
  datatype PossibleMove = PossibleMove(from: Point, to: Point, material: int, defensive: bool)

  /** The value of a piece of the other side standing on `to`, else 0. */
  function TakenValue(b: Board, turn: Color, to: Point): (v: int)
    requires OnBoard(to)
    ensures 0 <= v <= 9
    ensures v != 0 <==> HasPiece(b, to) && At(b, to).color != turn
  {
    if HasPiece(b, to) && At(b, to).color != turn then MaterialValue(At(b, to).kind) else 0
  }

  /** The score of a move from the material of the side to move under attack
      before (`endangered`) and after (`updatedEndangered`) it, the material
      of the other side under attack before (`attacking`) and after
      (`updatedAttacking`) it, and the value of what it takes: the reduction
      of the first, a third of the growth of the second (truncated toward
      zero), and the value taken. The move is defensive when it leaves less
      of the mover's material under attack. */
  function Score(from: Point, to: Point, endangered: int, attacking: int,
                 updatedEndangered: int, updatedAttacking: int, taken: int): (m: PossibleMove)
    ensures m.from == from && m.to == to
    ensures m.defensive <==> updatedEndangered < endangered
    ensures var bonus := m.material - (endangered - updatedEndangered) - taken;
      var growth := updatedAttacking - attacking;
      && (growth >= 0 ==> 0 <= growth - 3 * bonus < 3)
      && (growth < 0 ==> -3 < growth - 3 * bonus <= 0)
  {
    PossibleMove(from, to,
                 (endangered - updatedEndangered) + TruncDiv3(updatedAttacking - attacking) + taken,
                 updatedEndangered < endangered)
  }

  /** The score `aiMakeMove` gives the move from `from` to `to` on board b,
      given the material under attack before it of the side to move
      (`endangered`) and of the other side (`attacking`). */
  function Evaluate(b: Board, turn: Color, from: Point, to: Point, endangered: int, attacking: int): PossibleMove
    requires KingsHome(b) && OnBoard(from) && OnBoard(to)
  {
    var after := MoveOnBoard(b, from, to);
    Score(from, to, endangered, attacking,
          Endangered(after, turn), Endangered(after, Opponent(turn)), TakenValue(b, turn, to))
  }

  /** What the score of a move says: it keeps the move's squares, it is
      defensive exactly when the move leaves less of the mover's material
      under attack, and its material is the reduction of that material plus
      the value taken plus a third of the growth of the other side's
      material under attack, truncated toward zero. */
  lemma EvaluateMeans(b: Board, turn: Color, from: Point, to: Point, endangered: int, attacking: int)
    requires KingsHome(b) && OnBoard(from) && OnBoard(to)
    ensures var m, after := Evaluate(b, turn, from, to, endangered, attacking), MoveOnBoard(b, from, to);
      var updatedEndangered, updatedAttacking := Endangered(after, turn), Endangered(after, Opponent(turn));
      var bonus := m.material - (endangered - updatedEndangered) - TakenValue(b, turn, to);
      && m.from == from && m.to == to
      && (m.defensive <==> updatedEndangered < endangered)
      && -3 < (updatedAttacking - attacking) - 3 * bonus < 3
      && (updatedAttacking == attacking ==> m.material == endangered - updatedEndangered + TakenValue(b, turn, to))
  {
  }

  /** The legal destinations of the piece on p when it belongs to `turn`,
      and none for any other square. */
  function MovesOf(b: Board, turn: Color): Point -> seq<Point>
    requires KingsHome(b)
  {
    p => TargetsOf(b, turn, p)
  }

  /** The legal destinations of the piece on p when it belongs to `turn`. */
  function TargetsOf(b: Board, turn: Color, p: Point): seq<Point>
    requires KingsHome(b)
  {
    if OnBoard(p) && HasPiece(b, p) && At(b, p).color == turn then ValidMoves(b, At(b, p), p) else []
  }

  /** The scoring of the moves of `turn` against the material under attack
      before any move. */
  function ScoreOf(b: Board, turn: Color, endangered: int, attacking: int): (Point, Point) -> PossibleMove
    requires KingsHome(b)
  {
    (p, t) => ScoreMove(b, turn, endangered, attacking, p, t)
  }

  /** The scored move from p to t, for points on the board. */
  function ScoreMove(b: Board, turn: Color, endangered: int, attacking: int, p: Point, t: Point): PossibleMove
    requires KingsHome(b)
  {
    if OnBoard(p) && OnBoard(t) then Evaluate(b, turn, p, t, endangered, attacking)
    else PossibleMove(p, t, 0, false)
  }

  /** The innermost loop of `aiMakeMove`: the moves from `from` to the
      destinations `ts`, scored, in order. */
  function Scores(score: (Point, Point) -> PossibleMove, from: Point, ts: seq<Point>): seq<PossibleMove>
  {
    if ts == [] then []
    else Scores(score, from, ts[..|ts| - 1]) + [score(from, ts[|ts| - 1])]
  }

  /** The collecting loops of `aiMakeMove` from square (x, y) on, with the
      moves collected so far in `acc`: every square in row-major order
      appends its scored moves. */
  function CollectFrom(moves: Point -> seq<Point>, score: (Point, Point) -> PossibleMove,
                       acc: seq<PossibleMove>, y: int, x: int): seq<PossibleMove>
    requires 0 <= y <= BOARD_HEIGHT && 0 <= x <= BOARD_WIDTH
    decreases BOARD_HEIGHT - y, BOARD_WIDTH - x
  {
    if y == BOARD_HEIGHT then acc
    else if x == BOARD_WIDTH then CollectFrom(moves, score, acc, y + 1, 0)
    else
      var p := Point(x, y);
      CollectFrom(moves, score, acc + Scores(score, p, moves(p)), y, x + 1)
  }

  /** One step of the collecting scan. */
  lemma CollectStep(moves: Point -> seq<Point>, score: (Point, Point) -> PossibleMove,
                    acc: seq<PossibleMove>, y: int, x: int)
    requires 0 <= y < BOARD_HEIGHT && 0 <= x <= BOARD_WIDTH
    ensures x < BOARD_WIDTH ==>
      (CollectFrom(moves, score, acc, y, x)
       == CollectFrom(moves, score, acc + Scores(score, Point(x, y), moves(Point(x, y))), y, x + 1))
    ensures x == BOARD_WIDTH ==> CollectFrom(moves, score, acc, y, x) == CollectFrom(moves, score, acc, y + 1, 0)
  {
  }

  /** Every legal move of the side to move, scored, in the order `aiMakeMove`
      pushes them. */
  function Candidates(b: Board, turn: Color): seq<PossibleMove>
    requires KingsHome(b)
  {
    CollectFrom(MovesOf(b, turn), ScoreOf(b, turn, Endangered(b, turn), Endangered(b, Opponent(turn))), [], 0, 0)
  }

  // ---------------------------------------------------------------- aiMakeMove: choice

  /** One step of the choosing loop: a move with more material replaces the
      best so far, and so does a defensive one with equal material replacing
      one that is not defensive. */
  function Better(best: PossibleMove, m: PossibleMove): PossibleMove
  {
    if m.material > best.material then m
    else if m.material == best.material && m.defensive && !best.defensive then m
    else best
  }

  /** The choosing loop over `moves`, starting from `best`. */
  function BestOf(best: PossibleMove, moves: seq<PossibleMove>): PossibleMove
  {
    if moves == [] then best
    else Better(BestOf(best, moves[..|moves| - 1]), moves[|moves| - 1])
  }

  /** The move `aiMakeMove` plays out of the (shuffled) candidates. */
  function Choose(moves: seq<PossibleMove>): PossibleMove
    requires moves != []
  {
    BestOf(moves[0], moves)
  }

  /** An independent description of the choice: moves[i] has the most
      material; it is defensive when some move with that much material is;
      and every move before it has less material, or is not defensive while
      moves[i] is. */
  predicate Preferred(moves: seq<PossibleMove>, i: int)
  {
    && 0 <= i < |moves|
    && (forall j :: 0 <= j < |moves| ==> moves[j].material <= moves[i].material)
    && (forall j :: 0 <= j < |moves| && moves[j].material == moves[i].material && moves[j].defensive ==>
          moves[i].defensive)
    && (forall j :: 0 <= j < i ==>
          moves[j].material < moves[i].material || (!moves[j].defensive && moves[i].defensive))
  }

  // ---------------------------------------------------------------- methods

  /** The innermost loop of `getEndangeredMaterial` for one piece. */
  method CaptureValue(game: Game, color: Color, moves: seq<Point>) returns (sum: int)
    requires game.Valid() && forall t :: t in moves ==> OnBoard(t)
    ensures sum == CaptureSum(game.board, color, moves)
  {
    sum := 0;
    for i := 0 to |moves|
      invariant sum == CaptureSum(game.board, color, moves[..i])
    {
      assert moves[..i + 1][..i] == moves[..i];
      var to := moves[i];
      if game.HasPiece(to) {
        var taken := game.GetPiece(to);
        if taken.color == color {
          sum := sum + MaterialValue(taken.kind);
        }
      }
    }
    assert moves[..|moves|] == moves;
  }

  /** The body of the loops of `getEndangeredMaterial` for one square. */
  method ThreatAt(game: Game, color: Color, point: Point) returns (threat: int)
    requires game.Valid() && OnBoard(point)
    ensures threat == Threat(game.board, color, point)
  {
    threat := 0;
    if game.HasPiece(point) {
      var piece := game.GetPiece(point);
      if piece.color != color {
        var moves := GetValidMoves(piece, game, point);
        threat := CaptureValue(game, color, moves);
      }
    }
  }

  /** The inner loop of `getEndangeredMaterial` along row y. */
  method EndangeredInRow(game: Game, color: Color, y: int) returns (sum: int)
    requires game.Valid() && 0 <= y < BOARD_HEIGHT
    ensures sum + EndangeredFrom(game.board, color, y + 1, 0) == EndangeredFrom(game.board, color, y, 0)
  {
    sum := 0;
    for x := 0 to BOARD_HEIGHT
      invariant sum + EndangeredFrom(game.board, color, y, x) == EndangeredFrom(game.board, color, y, 0)
    {
      EndangeredStep(game.board, color, y, x);
      var threat := ThreatAt(game, color, Point(x, y));
      sum := sum + threat;
    }
    EndangeredStep(game.board, color, y, BOARD_WIDTH);
  }

  /** `getEndangeredMaterial(game, color)`. */
  method GetEndangeredMaterial(game: Game, color: Color) returns (endangered: int)
    requires game.Valid()
    ensures endangered == Endangered(game.board, color)
  {
    endangered := 0;
    for y := 0 to BOARD_WIDTH
      invariant endangered + EndangeredFrom(game.board, color, y, 0) == Endangered(game.board, color)
    {
      var sum := EndangeredInRow(game, color, y);
      endangered := endangered + sum;
    }
  }

  /** The first half of the innermost loop of `aiMakeMove`: play the move on
      a copy of the game and measure the material of each side under attack
      there. */
  method EndangeredAfter(game: Game, point: Point, to: Point) returns (updatedEndangered: int, updatedAttacking: int)
    requires game.Valid() && OnBoard(point) && OnBoard(to)
    ensures updatedEndangered == Endangered(MoveOnBoard(game.board, point, to), game.currentTurn)
    ensures updatedAttacking == Endangered(MoveOnBoard(game.board, point, to), Opponent(game.currentTurn))
  {
    var copy := MovedCopy(game, point, to);
    updatedEndangered := GetEndangeredMaterial(copy, game.currentTurn);
    updatedAttacking := GetEndangeredMaterial(copy, Opponent(game.currentTurn));
  }

  /** The copy of the game on which `aiMakeMove` plays a move to weigh it. */
  method MovedCopy(game: Game, point: Point, to: Point) returns (copy: Game)
    requires game.Valid() && OnBoard(point) && OnBoard(to)
    ensures copy.Valid() && copy.board == MoveOnBoard(game.board, point, to)
  {
    copy := new Game.Copy(game);
    copy.SetSelectedPiece(point);
    copy.SetSelectedTarget(to);
    copy.MoveToTarget();
  }

  /** The body of the innermost loop of `aiMakeMove`: score the move from
      what it changes and what it takes. */
  method EvaluateMove(game: Game, point: Point, to: Point, endangered: int, attacking: int)
    returns (move: PossibleMove)
    requires game.Valid() && OnBoard(point) && OnBoard(to)
    ensures move == Evaluate(game.board, game.currentTurn, point, to, endangered, attacking)
  {
    var updatedEndangered, updatedAttacking := EndangeredAfter(game, point, to);
    var taken := 0;
    if game.HasPiece(to) {
      var piece := game.GetPiece(to);
      if piece.color != game.currentTurn {
        taken := MaterialValue(piece.kind);
      }
    }
    move := Score(point, to, endangered, attacking, updatedEndangered, updatedAttacking, taken);
  }

  /** The loop of `aiMakeMove` over the destinations `tos` of the piece on
      `point`. */
  method EvaluateAll(game: Game, point: Point, tos: seq<Point>, endangered: int, attacking: int,
                     ghost score: (Point, Point) -> PossibleMove)
    returns (moves: seq<PossibleMove>)
    requires game.Valid() && OnBoard(point) && forall t :: t in tos ==> OnBoard(t)
    requires score == ScoreOf(game.board, game.currentTurn, endangered, attacking)
    ensures moves == Scores(score, point, tos)
  {
    moves := [];
    for i := 0 to |tos|
      invariant moves == Scores(score, point, tos[..i])
    {
      ScoresStep(score, point, tos, i);
      ScoredIs(game.board, game.currentTurn, endangered, attacking, point, tos[i]);
      var move := EvaluateMove(game, point, tos[i], endangered, attacking);
      moves := moves + [move];
    }
    assert tos[..|tos|] == tos;
  }

  /** One step of the innermost loop: the (i + 1)-th destination appends its
      scored move. */
  lemma ScoresStep(score: (Point, Point) -> PossibleMove, from: Point, ts: seq<Point>, i: int)
    requires 0 <= i < |ts|
    ensures Scores(score, from, ts[..i + 1]) == Scores(score, from, ts[..i]) + [score(from, ts[i])]
  {
    assert ts[..i + 1][..i] == ts[..i];
  }

  /** On the board, the scoring function is `Evaluate`. */
  lemma ScoredIs(b: Board, turn: Color, endangered: int, attacking: int, p: Point, t: Point)
    requires KingsHome(b) && OnBoard(p) && OnBoard(t)
    ensures ScoreOf(b, turn, endangered, attacking)(p, t) == Evaluate(b, turn, p, t, endangered, attacking)
  {
  }

  /** The moves of the piece on `point`, scored, when it belongs to the side
      to move. */
  method EvaluatePiece(game: Game, point: Point, endangered: int, attacking: int)
    returns (moves: seq<PossibleMove>)
    requires game.Valid() && OnBoard(point)
    ensures moves == Scores(ScoreOf(game.board, game.currentTurn, endangered, attacking), point,
                            MovesOf(game.board, game.currentTurn)(point))
  {
    moves := [];
    if game.HasPiece(point) {
      var piece := game.GetPiece(point);
      if piece.color == game.currentTurn {
        var tos := GetValidMoves(piece, game, point);
        moves := EvaluateAll(game, point, tos, endangered, attacking, ScoreOf(game.board, game.currentTurn, endangered, attacking));
      }
    }
  }

  /** The inner collecting loop of `aiMakeMove` along row y. */
  method CollectInRow(game: Game, y: int, endangered: int, attacking: int, acc: seq<PossibleMove>,
                      ghost legal: Point -> seq<Point>, ghost score: (Point, Point) -> PossibleMove)
    returns (moves: seq<PossibleMove>)
    requires game.Valid() && 0 <= y < BOARD_HEIGHT
    requires legal == MovesOf(game.board, game.currentTurn)
    requires score == ScoreOf(game.board, game.currentTurn, endangered, attacking)
    ensures CollectFrom(legal, score, acc, y, 0) == CollectFrom(legal, score, moves, y + 1, 0)
  {
    moves := acc;
    for x := 0 to BOARD_HEIGHT
      invariant CollectFrom(legal, score, acc, y, 0) == CollectFrom(legal, score, moves, y, x)
    {
      CollectStep(legal, score, moves, y, x);
      var scored := EvaluatePiece(game, Point(x, y), endangered, attacking);
      moves := moves + scored;
    }
    CollectStep(legal, score, moves, y, BOARD_WIDTH);
  }

  /** The collecting loops of `aiMakeMove`, given the material of each side
      under attack before any move. */
  method CollectAll(game: Game, endangered: int, attacking: int,
                    ghost legal: Point -> seq<Point>, ghost score: (Point, Point) -> PossibleMove)
    returns (moves: seq<PossibleMove>)
    requires game.Valid()
    requires legal == MovesOf(game.board, game.currentTurn)
    requires score == ScoreOf(game.board, game.currentTurn, endangered, attacking)
    ensures moves == CollectFrom(legal, score, [], 0, 0)
  {
    moves := [];
    for y := 0 to BOARD_WIDTH
      invariant CollectFrom(legal, score, [], 0, 0) == CollectFrom(legal, score, moves, y, 0)
    {
      moves := CollectInRow(game, y, endangered, attacking, moves, legal, score);
    }
  }

  /** The first part of `aiMakeMove`: measure the material of each side under
      attack, then score every legal move of the side to move. */
  method CollectMoves(game: Game) returns (moves: seq<PossibleMove>)
    requires game.Valid()
    ensures moves == Candidates(game.board, game.currentTurn)
  {
    var endangered := GetEndangeredMaterial(game, game.currentTurn);
    var attacking := GetEndangeredMaterial(game, Opponent(game.currentTurn));
    moves := CollectAll(game, endangered, attacking, MovesOf(game.board, game.currentTurn),
                        ScoreOf(game.board, game.currentTurn, endangered, attacking));
  }

  /** The choosing loop of `aiMakeMove`: start from the first move and let
      each move in turn replace the best so far when it is better. */
  method SelectMove(moves: seq<PossibleMove>) returns (move: PossibleMove)
    requires moves != []
    ensures move == Choose(moves)
  {
    move := moves[0];
    for i := 0 to |moves|
      invariant move == BestOf(moves[0], moves[..i])
    {
      assert moves[..i + 1][..i] == moves[..i];
      var m := moves[i];
      if m.material > move.material {
        move := m;
        continue;
      }
      if m.material == move.material {
        if m.defensive && !move.defensive {
          move := m;
          continue;
        }
      }
    }
    assert moves[..|moves|] == moves;
  }

  /** `aiMakeMove(game)`: score every legal move of the side to move, do
      nothing when there is none, otherwise shuffle the moves, choose one and
      play it. The shuffle is a parameter that may reorder the moves in any
      way but neither adds nor drops one. */
  method AiMakeMove(game: Game, shuffle: seq<PossibleMove> -> seq<PossibleMove>)
    returns (ghost moves: seq<PossibleMove>)
    requires game.Valid()
    requires forall s :: multiset(shuffle(s)) == multiset(s)
    modifies game.pieces, game`board, game`selectedPiece, game`selectedTarget
    modifies game`lastSelected, game`lastTarget, game`firstMove
    ensures game.Valid()
    ensures moves == Candidates(old(game.board), old(game.currentTurn))
    ensures moves == [] ==>
      && game.board == old(game.board)
      && game.selectedPiece == old(game.selectedPiece) && game.selectedTarget == old(game.selectedTarget)
      && game.lastSelected == old(game.lastSelected) && game.lastTarget == old(game.lastTarget)
      && game.firstMove == old(game.firstMove)
    ensures moves != [] ==>
      var shuffled := shuffle(moves);
      && shuffled != []
      && var m := Choose(shuffled);
      && OnBoard(m.from) && OnBoard(m.to)
      && game.board == MoveOnBoard(old(game.board), m.from, m.to)
      && game.selectedPiece == m.from && game.selectedTarget == m.to
      && game.lastSelected == m.from && game.lastTarget == m.to && !game.firstMove
  {
    var collected := CollectMoves(game);
    moves := collected;
    if |collected| == 0 {
      return;
    }
    var shuffled := shuffle(collected);
    ShuffledNonEmpty(collected, shuffled);
    var move := SelectMove(shuffled);
    ChosenOnBoard(game.board, game.currentTurn, shuffled);
    PlayMove(game, move);
  }

  /** The end of `aiMakeMove`: select the chosen move and play it. */
  method PlayMove(game: Game, move: PossibleMove)
    requires game.Valid() && OnBoard(move.from) && OnBoard(move.to)
    modifies game.pieces, game`board, game`selectedPiece, game`selectedTarget
    modifies game`lastSelected, game`lastTarget, game`firstMove
    ensures game.Valid()
    ensures game.board == MoveOnBoard(old(game.board), move.from, move.to)
    ensures game.selectedPiece == move.from && game.selectedTarget == move.to
    ensures game.lastSelected == move.from && game.lastTarget == move.to && !game.firstMove
  {
    game.SetSelectedPiece(move.from);
    game.SetSelectedTarget(move.to);
    game.MoveToTarget();
  }

  // ---------------------------------------------------------------- facts

  /** The scores of `ts`, in order: one score per destination. */
  lemma {:induction false} ScoresMeans(score: (Point, Point) -> PossibleMove, from: Point, ts: seq<Point>)
    ensures |Scores(score, from, ts)| == |ts|
    ensures forall i :: 0 <= i < |ts| ==> Scores(score, from, ts)[i] == score(from, ts[i])
  {
    if ts != [] {
      ScoresMeans(score, from, ts[..|ts| - 1]);
    }
  }

  /** What the collecting scan from (x, y) on holds: the moves of `acc`, and
      the score of every move from a square at or after (x, y). */
  lemma {:induction false} CollectFromMeans(moves: Point -> seq<Point>, score: (Point, Point) -> PossibleMove,
                                            acc: seq<PossibleMove>, y: int, x: int)
    requires 0 <= y <= BOARD_HEIGHT && 0 <= x <= BOARD_WIDTH
    ensures forall m :: m in CollectFrom(moves, score, acc, y, x) <==>
      m in acc || exists p, t :: OnBoard(p) && AtOrAfter(p, y, x) && t in moves(p) && m == score(p, t)
    decreases BOARD_HEIGHT - y, BOARD_WIDTH - x
  {
    if y < BOARD_HEIGHT {
      if x == BOARD_WIDTH {
        CollectFromMeans(moves, score, acc, y + 1, 0);
        forall p | OnBoard(p) && AtOrAfter(p, y, x)
          ensures AtOrAfter(p, y + 1, 0)
        {
        }
      } else {
        var here := Point(x, y);
        var scored := Scores(score, here, moves(here));
        CollectFromMeans(moves, score, acc + scored, y, x + 1);
        ScoresMeans(score, here, moves(here));
        forall m | m in scored
          ensures exists t :: t in moves(here) && m == score(here, t)
        {
          var i :| 0 <= i < |scored| && scored[i] == m;
          assert moves(here)[i] in moves(here);
        }
        forall t | t in moves(here)
          ensures score(here, t) in scored
        {
          var i :| 0 <= i < |moves(here)| && moves(here)[i] == t;
          assert scored[i] == score(here, t);
        }
        forall p | OnBoard(p) && AtOrAfter(p, y, x) && p != here
          ensures AtOrAfter(p, y, x + 1)
        {
        }
      }
    }
  }

  /** The moves collected against material e and a under attack are exactly
      the legal moves of the side to move, each scored against e and a. */
  lemma CollectedMeans(b: Board, turn: Color, e: int, a: int)
    requires KingsHome(b)
    ensures forall m :: m in CollectFrom(MovesOf(b, turn), ScoreOf(b, turn, e, a), [], 0, 0) <==>
      exists p, t :: Legal(b, turn, p, t) && m == Evaluate(b, turn, p, t, e, a)
  {
    var score := ScoreOf(b, turn, e, a);
    CollectedScores(b, turn, e, a);
    forall p, t | Legal(b, turn, p, t)
      ensures score(p, t) == Evaluate(b, turn, p, t, e, a)
    {
      TargetsMeans(b, turn, p, t);
    }
  }

  /** `CollectedMeans` before the scores are unfolded. */
  lemma CollectedScores(b: Board, turn: Color, e: int, a: int)
    requires KingsHome(b)
    ensures forall m :: m in CollectFrom(MovesOf(b, turn), ScoreOf(b, turn, e, a), [], 0, 0) <==>
      exists p, t :: Legal(b, turn, p, t) && m == ScoreOf(b, turn, e, a)(p, t)
  {
    var legal, score := MovesOf(b, turn), ScoreOf(b, turn, e, a);
    var ok := (p, t) => KingsHome(b) && Legal(b, turn, p, t);
    forall p, t
      ensures (OnBoard(p) && t in legal(p)) <==> ok(p, t)
    {
      TargetsMeans(b, turn, p, t);
    }
    CollectedAmong(legal, score, ok);
  }

  /** Generic form of `CollectedMeans`: when `ok` picks out exactly the
      listed moves, the scan from the start collects exactly their scores. */
  lemma CollectedAmong(moves: Point -> seq<Point>, score: (Point, Point) -> PossibleMove, ok: (Point, Point) -> bool)
    requires forall p, t :: (OnBoard(p) && t in moves(p)) <==> ok(p, t)
    ensures forall m :: m in CollectFrom(moves, score, [], 0, 0) <==> exists p, t :: ok(p, t) && m == score(p, t)
  {
    CollectFromMeans(moves, score, [], 0, 0);
    forall m | m in CollectFrom(moves, score, [], 0, 0)
      ensures exists p, t :: ok(p, t) && m == score(p, t)
    {
      var p, t :| OnBoard(p) && AtOrAfter(p, 0, 0) && t in moves(p) && m == score(p, t);
      assert ok(p, t);
    }
    forall p, t | ok(p, t)
      ensures score(p, t) in CollectFrom(moves, score, [], 0, 0)
    {
      assert AtOrAfter(p, 0, 0);
    }
  }

  /** The destinations `MovesOf` lists for p are the legal moves from p. */
  lemma TargetsMeans(b: Board, turn: Color, p: Point, t: Point)
    requires KingsHome(b)
    ensures OnBoard(p) && t in MovesOf(b, turn)(p) <==> Legal(b, turn, p, t)
  {
  }

  /** The candidates of `aiMakeMove` are exactly the legal moves of the side
      to move, each scored against the material under attack before any
      move. */
  lemma CandidatesMeans(b: Board, turn: Color)
    requires KingsHome(b)
    ensures var e, a := Endangered(b, turn), Endangered(b, Opponent(turn));
      forall m :: m in Candidates(b, turn) <==> exists p, t :: Legal(b, turn, p, t) && m == Evaluate(b, turn, p, t, e, a)
  {
    CollectedMeans(b, turn, Endangered(b, turn), Endangered(b, Opponent(turn)));
  }

  /** The collecting scan from the start collects something exactly when
      some square has a move. */
  lemma CollectNonEmpty(moves: Point -> seq<Point>, score: (Point, Point) -> PossibleMove)
    ensures CollectFrom(moves, score, [], 0, 0) != [] <==> exists p, t :: OnBoard(p) && t in moves(p)
  {
    CollectFromMeans(moves, score, [], 0, 0);
    var all := CollectFrom(moves, score, [], 0, 0);
    if all != [] {
      assert all[0] in all;
    }
    if exists p, t :: OnBoard(p) && t in moves(p) {
      var p, t :| OnBoard(p) && t in moves(p);
      assert AtOrAfter(p, 0, 0);
      assert score(p, t) in all;
    }
  }

  /** Something is collected exactly when the side to move has a legal
      move, whatever the scores. */
  lemma CollectedIffLegal(b: Board, turn: Color, e: int, a: int)
    requires KingsHome(b)
    ensures CollectFrom(MovesOf(b, turn), ScoreOf(b, turn, e, a), [], 0, 0) != [] <==>
      exists p, t :: Legal(b, turn, p, t)
  {
    var legal := MovesOf(b, turn);
    CollectNonEmpty(legal, ScoreOf(b, turn, e, a));
    forall p, t
      ensures OnBoard(p) && t in legal(p) <==> Legal(b, turn, p, t)
    {
      TargetsMeans(b, turn, p, t);
    }
  }

  /** `aiMakeMove` leaves the game alone exactly when `getState` would not
      answer PLAY: when the side to move has no legal move. */
  lemma NoCandidatesIffNoPlay(b: Board, turn: Color)
    requires KingsHome(b)
    ensures Candidates(b, turn) == [] <==> StateOf(b, turn, false, false) != Play
  {
    CollectedIffLegal(b, turn, Endangered(b, turn), Endangered(b, Opponent(turn)));
    PlayIffLegal(b, turn);
  }

  /** The choosing loop over the first n moves ends on the preferred one of
      them. */
  lemma {:induction false} BestOfPreferred(moves: seq<PossibleMove>, n: int) returns (i: int)
    requires 1 <= n <= |moves|
    ensures Preferred(moves[..n], i) && BestOf(moves[0], moves[..n]) == moves[i]
  {
    if n == 1 {
      assert moves[..1][..0] == [];
      i := 0;
    } else {
      var k := BestOfPreferred(moves, n - 1);
      assert moves[..n][..n - 1] == moves[..n - 1];
      var m := moves[n - 1];
      if m.material > moves[k].material || (m.material == moves[k].material && m.defensive && !moves[k].defensive) {
        i := n - 1;
      } else {
        i := k;
      }
    }
  }

  /** `aiMakeMove` plays the preferred move of the shuffled list. */
  lemma ChoosePreferred(moves: seq<PossibleMove>) returns (i: int)
    requires moves != []
    ensures Preferred(moves, i) && Choose(moves) == moves[i]
  {
    i := BestOfPreferred(moves, |moves|);
    assert moves[..|moves|] == moves;
  }

  /** At most one position of a list is preferred. */
  lemma PreferredUnique(moves: seq<PossibleMove>, i: int, k: int)
    requires Preferred(moves, i) && Preferred(moves, k)
    ensures i == k
  {
  }


  /** A reordering of a list with the same elements is empty only when the
      list is. */
  lemma ShuffledNonEmpty(moves: seq<PossibleMove>, shuffled: seq<PossibleMove>)
    requires multiset(shuffled) == multiset(moves) && moves != []
    ensures shuffled != []
  {
    assert moves[0] in multiset(shuffled);
  }

  /** Choosing among any reordering of `moves` picks one of `moves` with the
      most material. */
  lemma ChoiceFacts(moves: seq<PossibleMove>, shuffled: seq<PossibleMove>)
    requires shuffled != [] && multiset(shuffled) == multiset(moves)
    ensures Choose(shuffled) in moves
    ensures forall m :: m in moves ==> m.material <= Choose(shuffled).material
  {
    var i := ChoosePreferred(shuffled);
    assert shuffled[i] in multiset(moves);
    forall m | m in moves
      ensures m.material <= Choose(shuffled).material
    {
      assert m in multiset(shuffled);
      var j :| 0 <= j < |shuffled| && shuffled[j] == m;
    }
  }

  /** What `aiMakeMove` plays when the side to move has a legal move: one of
      its legal moves, scored as the source scores it, and none of its legal
      moves scores more material. */
  lemma ChosenMove(b: Board, turn: Color, shuffled: seq<PossibleMove>)
    requires KingsHome(b)
    requires shuffled != [] && multiset(shuffled) == multiset(Candidates(b, turn))
    ensures var c := Choose(shuffled);
      var e, a := Endangered(b, turn), Endangered(b, Opponent(turn));
      && Legal(b, turn, c.from, c.to) && c == Evaluate(b, turn, c.from, c.to, e, a)
      && forall p, t :: Legal(b, turn, p, t) ==> Evaluate(b, turn, p, t, e, a).material <= c.material
  {
    ChosenAmong(b, turn, Endangered(b, turn), Endangered(b, Opponent(turn)), shuffled);
  }

  /** The move `aiMakeMove` plays starts and ends on the board. */
  lemma ChosenOnBoard(b: Board, turn: Color, shuffled: seq<PossibleMove>)
    requires KingsHome(b)
    requires shuffled != [] && multiset(shuffled) == multiset(Candidates(b, turn))
    ensures OnBoard(Choose(shuffled).from) && OnBoard(Choose(shuffled).to)
  {
    ChosenMove(b, turn, shuffled);
  }

  /** `ChosenMove` for any material e and a under attack before the move. */
  lemma ChosenAmong(b: Board, turn: Color, e: int, a: int, shuffled: seq<PossibleMove>)
    requires KingsHome(b)
    requires shuffled != [] && multiset(shuffled) == multiset(CollectFrom(MovesOf(b, turn), ScoreOf(b, turn, e, a), [], 0, 0))
    ensures var c := Choose(shuffled);
      && Legal(b, turn, c.from, c.to) && c == Evaluate(b, turn, c.from, c.to, e, a)
      && forall p, t :: Legal(b, turn, p, t) ==> Evaluate(b, turn, p, t, e, a).material <= c.material
  {
    var moves := CollectFrom(MovesOf(b, turn), ScoreOf(b, turn, e, a), [], 0, 0);
    CollectedMeans(b, turn, e, a);
    ChoiceFacts(moves, shuffled);
    var c := Choose(shuffled);
    var p, t :| Legal(b, turn, p, t) && c == Evaluate(b, turn, p, t, e, a);
    forall p', t' | Legal(b, turn, p', t')
      ensures Evaluate(b, turn, p', t', e, a).material <= c.material
    {
      assert Evaluate(b, turn, p', t', e, a) in moves;
    }
  }

  // ---------------------------------------------------------------- material under attack

  /** The captured values over `ts` lie between 0 and 9 per destination, and
      are 0 exactly when no destination holds a piece of `color`. */
  lemma {:induction false} CaptureSumFacts(b: Board, color: Color, ts: seq<Point>)
    requires forall t :: t in ts ==> OnBoard(t)
    ensures 0 <= CaptureSum(b, color, ts) <= 9 * |ts|
    ensures CaptureSum(b, color, ts) == 0 <==> forall t :: t in ts ==> !(HasPiece(b, t) && At(b, t).color == color)
  {
    if ts != [] {
      var init := ts[..|ts| - 1];
      CaptureSumFacts(b, color, init);
      assert forall t :: t in ts <==> t in init || t == ts[|ts| - 1];
    }
  }

  /** A sum of terms that are never negative on the board is never negative,
      and it is 0 exactly when every term from (x, y) on is 0. */
  lemma {:induction false} SumFromFacts(f: Point -> int, y: int, x: int)
    requires 0 <= y <= BOARD_HEIGHT && 0 <= x <= BOARD_WIDTH
    requires forall p :: OnBoard(p) ==> f(p) >= 0
    ensures SumFrom(f, y, x) >= 0
    ensures SumFrom(f, y, x) == 0 <==> forall p :: OnBoard(p) && AtOrAfter(p, y, x) ==> f(p) == 0
    decreases BOARD_HEIGHT - y, BOARD_WIDTH - x
  {
    if y < BOARD_HEIGHT {
      if x == BOARD_WIDTH {
        SumFromFacts(f, y + 1, 0);
        forall p | OnBoard(p) && AtOrAfter(p, y, x)
          ensures AtOrAfter(p, y + 1, 0)
        {
        }
      } else {
        var here := Point(x, y);
        SumFromFacts(f, y, x + 1);
        forall p | OnBoard(p) && AtOrAfter(p, y, x) && p != here
          ensures AtOrAfter(p, y, x + 1)
        {
        }
      }
    }
  }

  /** What one square contributes to `getEndangeredMaterial(game, color)`:
      never negative, and 0 exactly when no legal move from that square
      lands on a piece of `color`. */
  lemma ThreatFacts(b: Board, color: Color, p: Point)
    requires KingsHome(b) && OnBoard(p)
    ensures Threat(b, color, p) >= 0
    ensures Threat(b, color, p) == 0 <==> forall t :: !Threatened(b, color, p, t)
  {
    if HasPiece(b, p) && At(b, p).color != color {
      var ts := ValidMoves(b, At(b, p), p);
      CaptureSumFacts(b, color, ts);
      assert At(b, p).color == Opponent(color);
      assert forall t :: Threatened(b, color, p, t) <==> t in ts && HasPiece(b, t) && At(b, t).color == color;
    } else {
      assert forall t :: !Legal(b, Opponent(color), p, t);
    }
  }

  /** `getEndangeredMaterial(game, color)` is never negative, and it is 0
      exactly when no legal move of the other side lands on a piece of
      `color`. */
  lemma EndangeredFacts(b: Board, color: Color)
    requires KingsHome(b)
    ensures Endangered(b, color) >= 0
    ensures Endangered(b, color) == 0 <==> !exists p, t :: Threatened(b, color, p, t)
  {
    var f := p => if OnBoard(p) then Threat(b, color, p) else 0;
    forall p | OnBoard(p)
      ensures f(p) >= 0
      ensures f(p) == 0 <==> forall t :: !Threatened(b, color, p, t)
    {
      ThreatFacts(b, color, p);
    }
    SumAllFacts(f);
  }

  /** `SumFromFacts` over the whole board. */
  lemma SumAllFacts(f: Point -> int)
    requires forall p :: OnBoard(p) ==> f(p) >= 0
    ensures SumFrom(f, 0, 0) >= 0
    ensures SumFrom(f, 0, 0) == 0 <==> forall p :: OnBoard(p) ==> f(p) == 0
  {
    SumFromFacts(f, 0, 0);
    assert forall p :: OnBoard(p) ==> AtOrAfter(p, 0, 0);
  }
}
