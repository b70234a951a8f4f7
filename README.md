# Quantum64/Chess — a verified model of the engine core

The program is a console chess game for two players or one player against a
greedy computer opponent. It also has a credits screen that runs a small
cellular automaton. This project models its core in Dafny and proves what
that core promises:

- **Points and pieces** (`points.dfy`, `pieces.dfy`): the `Point` class, piece kinds and colours, and the `firstMove` flag.
- **Boards** (`boards.dfy`): an 8 x 8 board as a value, `isValidLocation`, and square reads and writes.
- **Move generation** (`movegen.dfy`, `movegen_facts.dfy`):
  - `Piece::getMoves` as pure functions: sliding rays (`lookInDirection`), knight jumps (`runForValidOffset`), pawn steps and captures, king steps and castling;
  - lemmas that give each piece's moves exactly, in chess terms.
- **Game rules** (`rules.dfy`, `rules_facts.dfy`): pure functions for:
  - `moveToTarget` (with the castling rook hop);
  - `isInCheck` (including "no king means in check");
  - the `getValidMoves` filter and `getState`;
  - pawn promotion (`checkPawnUpgrade`);
  - the `reset` layout;
  - `checkOffsets`, `findNearestTarget` and `findNearestPiece`.

  Each comes with lemmas on its meaning. Examples: `getState` answers PLAY exactly when the side to move has a legal move; the nearest-piece search returns the nearest own piece in the asked direction.
- **The game object** (`engine.dfy`): `class Game` keeps the board in an `array2<Piece>` together with a ghost `board` value that mirrors it. Its methods are the source's loops (`reset`, `moveToTarget`, `isInCheck`, `getState`, `checkPawnUpgrade`, `findNearestPiece`) and the move-generation loops of `piece.cpp`. Each is proved equal to the pure function above.
- **The computer opponent** (`ai.dfy`): `getMaterialValue`, `getEndangeredMaterial` and `aiMakeMove`.
  - The methods are the source's loops. They are proved to compute the candidate list `Candidates`, then to pick the move `Choose` from the shuffled list and play it.
  - Lemmas show what these mean. The candidates are exactly the legal moves, each scored. There are none exactly when the game is not in PLAY. The chosen move is legal, and no legal move has more material. Ties are broken towards a defensive move, else towards the earliest in the shuffled order.
- **The credits automaton** (`credits.dfy`): `class Credits` with its grid of cells, `getCellAt` and `step`. `step` is proved to replace the grid by its next generation, computed from the old grid alone. The rule it applies is stated in terms of neighbours.

The board is indexed `[y][x]` as in the source: row 0 is black's back rank and row 7 is white's. Every point has 0 <= x, y < 8. White pawns move toward row 0.

## Model

| member | source | states |
|---|---|---|
| Points.Equals | point.h:12 | two points are equal exactly when both coordinates are |
| Pieces.Opponent | ai.cpp:75 | the opponent of a colour is the other colour |
| Pieces.TypeEquals | piece.h:16 | piece types compare equal exactly when they are the same kind |
| Pieces.NewPiece | piece.h:34 | a new piece has the given kind and colour and has not moved |
| Pieces.PieceEquals | piece.h:35 | pieces compare equal on kind and colour, whatever their `firstMove` flags |
| Pieces.SetFirstMove | piece.h:41 | the flag takes the new value and nothing else about the piece changes |
| Boards.IsValidLocation | piece.cpp:17-25 | a location is valid exactly when 0 <= x < 8 and 0 <= y < 8 |
| Boards.EmptyBoard | game.h:22 | a default board holds the empty piece on every square |
| MoveGen.ValidOffset | piece.cpp:55-60 | the action runs on the offset point exactly when that point is on the board |
| MoveGen.Look | piece.cpp:27-53 | every square a ray yields is on the board and not held by the mover's colour |
| MoveGen.Rays | piece.cpp:138-155 | every square of the rays in a list of directions is on the board and not friendly |
| MoveGen.Jumps | piece.cpp:156-168 | every knight jump lands on the board on a square not held by the mover's colour |
| MoveGen.PawnMoves | piece.cpp:126-137 | every pawn move is on the board and not onto a piece of the pawn's colour |
| MoveGen.Castling | piece.cpp:106-125 | every castling square is on the board and empty |
| MoveGen.Moves | piece.cpp:82-177 | every generated move is on the board and not onto a piece of the mover's colour |
| MoveGenFacts.RayInOrder | piece.cpp:31-52 | the i-th square of a ray is i + 1 steps from the start |
| MoveGenFacts.RayPassesEmpty | piece.cpp:43-46 | every square of a ray but the last is empty |
| MoveGenFacts.RayCapped | piece.cpp:33-35 | with a positive `max` a ray has at most `max` squares |
| MoveGenFacts.RayStops | piece.cpp:32-52 | a ray ends at the count limit, after a capture, at the edge, or before a piece of the mover's colour |
| MoveGenFacts.RayIsSlide | piece.cpp:27-53 | an unbounded ray holds exactly the squares reached along a clear path and not held by a friend |
| MoveGenFacts.InRays | piece.cpp:140-142 | a square is in the rays exactly when it is in the ray of some listed direction |
| MoveGenFacts.LookOneStep | piece.cpp:172 | a ray limited to one step is the next square, if on the board and not friendly |
| MoveGenFacts.StepRays | piece.cpp:170-173 | one-step rays reach exactly the non-friendly squares whose offset is listed |
| MoveGenFacts.InJumps | piece.cpp:157-167 | the jumps reach exactly the on-board, non-friendly squares at a listed offset |
| MoveGenFacts.KnightMovesExactly | piece.cpp:156-168 | a knight moves exactly to the non-friendly squares a (1, 2) or (2, 1) leap away |
| MoveGenFacts.RaysAreSlides | piece.cpp:138-155 | unbounded rays are exactly the clear slides along some listed direction |
| MoveGenFacts.SlidingMovesExactly | piece.cpp:138-155 | rook, bishop and queen move exactly by clear slides along their directions |
| MoveGenFacts.CastlingExactly | piece.cpp:106-125 | an unmoved king castles two squares toward an unmoved piece 3 or 4 squares away, over empty squares |
| MoveGenFacts.KingMovesExactly | piece.cpp:169-175 | a king moves one square in any direction onto a non-friendly square, or castles |
| MoveGenFacts.KingStepsExactly | piece.cpp:170-173 | the one-square rays reach exactly the on-board, non-friendly squares next to the king |
| MoveGenFacts.NeighbourDirections | piece.cpp:170 | the eight directions are exactly the non-zero offsets with both parts in -1..1 |
| MoveGenFacts.PawnMovesExactly | piece.cpp:84-137 | a pawn steps forward onto an empty square, steps twice on its first move over an empty square, or captures diagonally forward |
| MoveGenFacts.PawnForwardMeans | piece.cpp:91-95 | the forward action yields exactly the square one step ahead, when it is on the board and empty |
| MoveGenFacts.PawnFirstMeans | piece.cpp:96-105 | the double step yields exactly the square two steps ahead, for an unmoved pawn, with both squares empty |
| MoveGenFacts.PawnCaptureMeans | piece.cpp:84-90 | the capture action yields exactly the diagonal square, when it holds a piece of the other colour |
| Rules.MoveOnBoard | game.cpp:450-476 | the target holds the moved piece with its flag cleared; a board with kings at home keeps them there |
| RulesFacts.MoveEffects | game.cpp:450-476 | the origin empties and the target gets the piece; an unmoved king reaching column 6 or 2 also moves an unmoved rook; no other square changes |
| Rules.KeepSafe | piece.cpp:66-72 | the filter keeps only targets from its input, never more of them |
| Rules.ValidMoves | piece.cpp:62-80 | every valid move is on the board |
| RulesFacts.KeepSafeMeans | piece.cpp:66-72 | a target is kept exactly when the move leaves the mover's king out of check |
| RulesFacts.ValidMovesMeans | piece.cpp:62-80 | the valid moves are exactly the generated moves after which the mover is not in check, in generation order: splitting the generated list at any point splits the answer the same way |
| RulesFacts.KeepSafeInOrder | piece.cpp:66-72 | the filter keeps the order of its input: filtering a concatenation is concatenating the filtered parts |
| RulesFacts.KeptAlone | piece.cpp:66-72 | a single destination is kept exactly when the move leaves the mover's king out of check |
| Rules.UpgradeKind | game.cpp:555-566 | the upgrade is Rook, Bishop or Knight exactly when that name is selected, and Queen otherwise |
| Rules.Promote | game.cpp:548-570 | own pawns on the far row become the selected piece; no other square changes; no own pawn is left on that row |
| Rules.InitialPiece | game.cpp:25-42 | `reset` fills exactly rows 0, 1, 6 and 7, black at the top and white at the bottom, puts a king only on column 4, and every piece is unmoved |
| Rules.InitialBoard | game.cpp:25-42 | after `reset` row 0 holds the black back rank in the order rook, knight, bishop, queen, king, bishop, knight, rook, and row 1 eight black pawns; rows 6 and 7 mirror them in white; the middle rows are empty and nothing has moved |
| Rules.CheckOffsets | game.cpp:300-315 | the target lies strictly on the asked side of the location on each axis whose offset is non-zero |
| RulesFacts.ScanFromFacts | game.cpp:481-496 | the row-major scan finds the first matching square, or none when no square matches |
| RulesFacts.AnyFromMeans | game.cpp:501-515 | the row-major search succeeds exactly when some square from the start point satisfies the test |
| RulesFacts.AttackedMeans | game.cpp:501-515 | the king is attacked exactly when some opposing piece's generated moves reach it |
| RulesFacts.InCheckMeans | game.cpp:478-517 | a side is in check exactly when it has no king, or its first king is reached by an opposing move |
| RulesFacts.MovableMeans | game.cpp:526-538 | the scan finds a movable piece exactly when some square holds one |
| RulesFacts.SafeMoveIsLegal | game.cpp:526-538 | a safe move of the side to move makes the scan succeed |
| RulesFacts.LegalMoveIsSafe | game.cpp:526-538 | when the scan succeeds there is a safe move |
| RulesFacts.PlayIffSafeMove | game.cpp:519-546 | the state is PLAY exactly when nobody resigned and the side to move has a safe move |
| RulesFacts.PlayIffLegal | game.cpp:526-538 | without resignations the state is PLAY exactly when the side to move has a legal move |
| RulesFacts.NoSafeMoveOutcome | game.cpp:539-545 | with no safe move the state is DRAW when not in check, else WHITE_WIN when white is to move, else BLACK_WIN |
| RulesFacts.NearestAmongFacts | game.cpp:398-414 | the nearest-target fold returns the start or an option; it prefers squares on the asked side and, among them, the nearest; an option displaces the start only when strictly nearer, and among equally near options the earliest in the list wins |
| RulesFacts.NearestTargetFacts | game.cpp:398-414 | `findNearestTarget` returns the location itself when nothing lies on the asked side, else the nearest option on that side, the earliest in the list when several are equally near |
| RulesFacts.InOwnSquaresBefore | game.cpp:338-343 | the squares visited before (y, x) that hold the colour's pieces are exactly those earlier in row-major order |
| RulesFacts.OwnSquaresFoldStep | game.cpp:341-355 | one square of the scan updates the running result exactly when it holds a piece of the colour |
| RulesFacts.NearestRowIsAmong | game.cpp:339-357 | the scan of the rest of a row is the fold over that row's own pieces |
| RulesFacts.NearestScanIsAmong | game.cpp:338-358 | the full scan is the fold over all squares holding the colour's pieces |
| RulesFacts.NearestPieceFacts | game.cpp:317-360 | `findNearestPiece` returns a piece of the colour when there is one, else the location; it returns the nearest such piece on the asked side when one exists |
| Engine.Game.constructor | game.h:22-29 | a new game has an empty board, white to move, DISPLAY mode, every point (0, 0), `firstMove` set and no resignation |
| Engine.Game.Copy | game.cpp:13-23 | the copy has the same board, turn, mode and selections; the last-move points and flags take their defaults |
| Engine.Game.HasPiece | game.h:31 | answers whether the square holds a piece |
| Engine.Game.GetPiece | game.h:32 | answers the piece on the square |
| Engine.Game.SetSelectedPiece | game.h:36 | sets the selected piece |
| Engine.Game.SetSelectedTarget | game.h:37 | sets the selected target |
| Engine.Game.SetCurrentTurn | game.h:38 | sets the side to move |
| Engine.Game.Fill | game.cpp:26 | every square holds the given piece |
| Engine.Game.SetBackRank | game.cpp:31-41 | the row holds rook, knight, bishop, queen, king, bishop, knight, rook of the colour; other rows are unchanged |
| Engine.Game.Reset | game.cpp:25-42 | the board becomes the initial layout |
| Engine.Game.MoveToTarget | game.cpp:450-476 | the board becomes the moved board; the last-move points are recorded and `firstMove` is cleared |
| Engine.Game.MatchInRow | game.cpp:485-495 | a row either yields the scan's first match or passes the scan on to the next row |
| Engine.Game.FirstMatch | game.cpp:481-496 | the king search finds the first matching square in row-major order |
| Engine.Game.AttacksFrom | game.cpp:504-512 | answers whether the piece on the square is an opponent whose generated moves reach the king |
| Engine.Reaches | game.cpp:507-511 | answers whether the king's square is among the generated moves |
| Engine.Game.AttackedInRow | game.cpp:502-514 | a row either finds an attacker or passes the search on to the next row |
| Engine.Game.AttackedSquare | game.cpp:501-515 | answers whether some opposing piece reaches the king |
| Engine.Game.IsInCheck | game.cpp:478-517 | answers the check predicate on the current board |
| Engine.Game.CanMove | game.cpp:528-535 | answers whether the square holds a piece of the side to move that has a valid move |
| Engine.Game.MovableInRow | game.cpp:527-537 | a row either finds a movable piece or passes the search on to the next row |
| Engine.Game.GetState | game.cpp:519-546 | answers the game state of the board, turn and resignation flags |
| Engine.Game.CheckPawnUpgrade | game.cpp:548-570 | the board becomes the promoted board for the side to move |
| Engine.Game.NearestInRow | game.cpp:339-357 | the scan of one row leads to the same final answer as the whole scan |
| Engine.Game.NearestSweep | game.cpp:338-358 | the nested loops compute the row-major scan |
| Engine.Game.FindNearestPiece | game.cpp:317-360 | answers the nearest-piece function |
| Engine.Weigh | game.cpp:344-354 | one square of the search replaces the result exactly as the fold step does |
| Engine.FindNearestTarget | game.cpp:398-414 | answers the nearest-target fold over the options |
| Engine.LookInDirection | piece.cpp:27-53 | appends the ray of the direction to the result |
| Engine.LookInDirections | piece.cpp:140-142 | appends the rays of every listed direction, in order |
| Engine.LookInOption | piece.cpp:140-142 | one pass of the direction loop appends the ray of the next direction |
| Engine.PawnLogicForward | piece.cpp:91-95 | appends the square ahead when it is empty |
| Engine.PawnLogicForwardFirst | piece.cpp:96-105 | appends the double step when it is allowed |
| Engine.PawnLogicCapture | piece.cpp:84-90 | appends the diagonal square when it holds an opponent |
| Engine.KnightJump | piece.cpp:159-166 | appends the leap's square unless it holds a friend |
| Engine.KnightLogic | piece.cpp:156-168 | appends all eight knight leaps in order |
| Engine.KnightOption | piece.cpp:158-167 | one pass of the knight loop appends the leap by the next offset |
| Engine.KingCastleLogic | piece.cpp:106-125 | appends the castling squares in order |
| Engine.CastleRightLogic | piece.cpp:108-115 | appends the king-side square when the piece three files right is unmoved and the two squares between are empty |
| Engine.CastleLeftLogic | piece.cpp:116-123 | appends the queen-side square when the piece four files left is unmoved and the three squares between are empty |
| Engine.PawnLogic | piece.cpp:126-137 | computes the pawn's moves for its colour |
| Engine.GetMoves | piece.cpp:82-177 | computes the piece's generated moves |
| Engine.KingLogic | piece.cpp:169-175 | computes the eight one-square rays followed by the castling squares |
| Engine.CheckAfter | piece.cpp:67-71 | answers whether the mover is in check after the move on a copy of the game |
| Engine.GetValidMoves | piece.cpp:62-80 | computes the valid moves |
| Engine.KeepIfSafe | piece.cpp:66-72 | keeps the next destination exactly when playing it leaves the mover out of check |
| Ai.MaterialValue | ai.cpp:27-46 | values lie in 0..9 and only the empty kind is worth 0 |
| Ai.TruncDiv3 | ai.cpp:95 | integer division by 3 truncates toward zero |
| Ai.TakenValue | ai.cpp:97-102 | the value of the taken piece lies in 0..9 and is non-zero exactly when an opponent's piece stands on the target |
| Ai.Score | ai.cpp:94-103 | the move is defensive exactly when it lowers the mover's endangered material; its material is the reduction plus the value taken plus a third of the growth in attacked material |
| Ai.EvaluateMeans | ai.cpp:88-103 | the score of a move, stated in terms of the material endangered on the board after it |
| Ai.CaptureValue | ai.cpp:56-63 | sums the value of the colour's pieces among the targets |
| Ai.ThreatAt | ai.cpp:53-65 | the material of the colour that the piece on the square can take |
| Ai.EndangeredInRow | ai.cpp:51-66 | a row adds its share of the endangered material |
| Ai.GetEndangeredMaterial | ai.cpp:48-69 | answers the endangered material of the colour |
| Ai.EndangeredAfter | ai.cpp:88-93 | the endangered material of both sides on a copy after the move |
| Ai.MovedCopy | ai.cpp:88-91 | the copy is a valid game whose board is the board after the move |
| Ai.EvaluateMove | ai.cpp:88-104 | answers the score of one move |
| Ai.EvaluateAll | ai.cpp:83-105 | scores the moves to the listed targets, in order |
| Ai.EvaluatePiece | ai.cpp:80-106 | scores every valid move of the piece on the square when it belongs to the side to move |
| Ai.CollectInRow | ai.cpp:78-108 | one row of the scan appends that row's scored moves |
| Ai.CollectAll | ai.cpp:77-109 | the nested loops collect the scan over the whole board |
| Ai.CollectMoves | ai.cpp:74-109 | computes the candidate list |
| Ai.SelectMove | ai.cpp:114-127 | computes the choice over the list |
| Ai.AiMakeMove | ai.cpp:71-130 | with no candidate the board, the selections, the last-move record and firstMove are all unchanged; otherwise the chosen move of the shuffled list is selected and played, recorded as the last move, and firstMove is cleared |
| Ai.PlayMove | ai.cpp:128-130 | selects the move's squares and plays it; the move becomes the last-move record and firstMove is cleared |
| Ai.ScoresMeans | ai.cpp:83-105 | one piece's scored moves correspond one to one, in order, to its targets |
| Ai.CollectFromMeans | ai.cpp:77-109 | the scan collects exactly the scores of moves from squares at or after its start |
| Ai.CollectedAmong | ai.cpp:77-109 | when a test picks out exactly the listed moves, the scan collects exactly their scores |
| Ai.CollectedMeans | ai.cpp:77-109 | the scan collects exactly the legal moves of the side to move, each scored |
| Ai.CandidatesMeans | ai.cpp:74-109 | the candidates are exactly the legal moves, scored against the material endangered before any move |
| Ai.CollectNonEmpty | ai.cpp:77-109 | the scan collects something exactly when some square has a move |
| Ai.CollectedIffLegal | ai.cpp:110-112 | the list is non-empty exactly when the side to move has a legal move |
| Ai.NoCandidatesIffNoPlay | ai.cpp:110-112 | `aiMakeMove` does nothing exactly when the state is not PLAY |
| Ai.BestOfPreferred | ai.cpp:114-127 | the choosing loop ends on the preferred move |
| Ai.ChoosePreferred | ai.cpp:114-127 | the choice has maximal material, is defensive when a move of that material is, and no earlier move is as good on both counts |
| Ai.ShuffledNonEmpty | ai.cpp:113 | a shuffle of a non-empty list is non-empty |
| Ai.ChoiceFacts | ai.cpp:113-127 | the choice from the shuffled list is a candidate with maximal material |
| Ai.ChosenMove | ai.cpp:113-130 | the chosen move is legal, carries its own score, and no legal move scores more material |
| Ai.ChosenAmong | ai.cpp:113-127 | the same, for the material of both sides given as parameters |
| Ai.ChosenOnBoard | ai.cpp:128-130 | the chosen move's squares are on the board |
| Ai.CaptureSumFacts | ai.cpp:56-63 | the sum over n targets lies in 0..9n and is 0 exactly when none holds a piece of the colour |
| Ai.SumFromFacts | ai.cpp:50-67 | a sum of non-negative terms over the board is non-negative, and 0 exactly when every term is |
| Ai.ThreatFacts | ai.cpp:53-65 | a square's threat is non-negative and 0 exactly when its piece threatens nothing of the colour |
| Ai.EndangeredFacts | ai.cpp:48-69 | endangered material is non-negative and 0 exactly when no legal opposing move takes a piece of the colour |
| Credits.NextGeneration | credits.cpp:62-89 | the next grid has 19 rows of 40 cells |
| Credits.Credits.constructor | credits.cpp:40-49 | the grid has 19 rows of 40 cells, filled row by row from the random bits |
| Credits.Credits.GetCellAt | credits.cpp:51-60 | a cell reads alive exactly when it is on the grid and alive |
| Credits.Credits.CountNear | credits.cpp:67-74 | counts the live cells of the 3 x 3 block |
| Credits.Credits.UpdatedCell | credits.cpp:75-83 | computes the cell's next value |
| Credits.Credits.Step | credits.cpp:62-89 | the grid becomes the next generation of the old grid |
| Credits.NearExpanded | credits.cpp:67-74 | `near` is the sum of the nine cells of the block |
| Credits.NearIsSelfPlusNeighbours | credits.cpp:67-74 | `near` is the cell plus its eight neighbours, so it lies in 0..9 |
| Credits.RuleByNeighbours | credits.cpp:75-83 | a dead cell comes alive with three live neighbours; a live one survives with one or two |
| Credits.DeadStaysDead | credits.cpp:62-89 | an empty grid stays empty |
| Credits.StepIsSimultaneous | credits.cpp:62-89 | the next grid depends only on the cells of the old grid |

## Left out

- Drawing and input are not modelled. This covers `Game::draw`, `Game::startGame`, `selectPiece`, `selectTarget`, `displayMenu`, `Credits::draw`, `displayCredits` and `sleep`. They are screen output and keyboard loops.
- The timing and debug output of `getValidMoves` is not modelled. It has no effect on the result.
- Engine.Game.CheckPawnUpgrade: the menu answer for the pawn on column x is the parameter `answer(x)`. The unused `ai` parameter is dropped.
- Ai.AiMakeMove: `std::random_shuffle` is the parameter `shuffle`. The only thing required of it is that it reorders the list without adding or dropping a move. The proofs hold for every such shuffle. The candidate list is a ghost result because the source keeps it local.
- Credits.Credits.constructor: `rand() % 2` is the parameter `coin`, one value per cell in row-major order.
- `PossibleMove::piece` is never set or read by the source, so it is not modelled.
- Points.Equals: the `Point` constructor's clamping assigns to its own parameters after the members are set, so it has no effect. Points are stored as given.
- MoveGen.Moves: castling looks at columns x + 3 and x - 4 without a bounds check. Moves is only defined for kings that have not moved and stand on column 4. Every board the game produces satisfies this, and `KingsHome` states it.
- Engine.Game.Copy: the copy constructor copies only the pieces, turn, mode and selections. The last-move points and the `firstMove` and resignation flags take their defaults, as written.
- Rules.ValidMoves: the function's own contract only places the moves on the board. What they mean is stated by `RulesFacts.ValidMovesMeans`.
- Rules.KeepSafe: the function's own contract only gives inclusion and length. What the filter keeps is stated by `RulesFacts.KeepSafeMeans`, and that it keeps the input's order by `RulesFacts.KeepSafeInOrder` and `RulesFacts.KeptAlone`.
- Integer widths are not modelled. Every count and sum here stays far below 32-bit limits.
- Some loops of the source are split into helper methods, one per loop level. Examples are the row methods and `EvaluateAll`/`EvaluatePiece`. Each runs the same steps in the same order.
