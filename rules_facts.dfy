/** What the rule functions mean: the squares a committed move changes, what
    the cursor searches find, and when the game goes on. */
module RulesFacts {
  import opened Options
  import opened Points
  import opened Pieces
  import opened Boards
  import opened MoveGen
  import opened Rules

  /** Committing from -> to empties the origin and puts the moved piece,
      unmoved flag cleared, on the target. Without a castling hop nothing
      else changes; with one, the piece on the rook's file is taken to the
      file beside the king with its flag cleared, and nothing else changes. */
  lemma MoveEffects(b: Board, from: Point, to: Point)
    requires KingsHome(b) && OnBoard(from) && OnBoard(to) && from != to
    ensures At(MoveOnBoard(b, from, to), from) == EmptyPiece
    ensures At(MoveOnBoard(b, from, to), to) == SetFirstMove(At(b, from), false)
    ensures CastleHop(b, from, to).None? ==>
      forall p :: OnBoard(p) && p != from && p != to ==> At(MoveOnBoard(b, from, to), p) == At(b, p)
    ensures CastleHop(b, from, to).Some? ==>
      var rook := Point(CastleHop(b, from, to).value.0, from.y);
      var beside := Point(CastleHop(b, from, to).value.1, from.y);
      && At(MoveOnBoard(b, from, to), rook) == EmptyPiece
      && At(MoveOnBoard(b, from, to), beside) == SetFirstMove(At(b, rook), false)
      && forall p :: OnBoard(p) && p != from && p != to && p != rook && p != beside ==>
           At(MoveOnBoard(b, from, to), p) == At(b, p)
  {
    var piece := At(b, from);
    assert CastleSafe(b[from.y][from.x], Point(from.x, from.y));
    assert piece.kind == King && piece.firstMove ==> from.x == 4;
  }

  /** The row-major scan finds the first matching square from (x, y) on, and
      finds nothing exactly when no square from there on matches. */
  lemma {:induction false} ScanFromFacts(b: Board, q: Quarry, y: int, x: int)
    requires 0 <= y <= BOARD_HEIGHT && 0 <= x <= BOARD_WIDTH
    ensures var r := ScanFrom(b, q, y, x);
      && (r.Some? ==> OnBoard(r.value) && AtOrAfter(r.value, y, x) && Matches(b, r.value, q))
      && (r.Some? ==> forall p :: OnBoard(p) && AtOrAfter(p, y, x) && !AtOrAfter(p, r.value.y, r.value.x)
                                  ==> !Matches(b, p, q))
      && (r.None? <==> forall p :: OnBoard(p) && AtOrAfter(p, y, x) ==> !Matches(b, p, q))
    decreases BOARD_HEIGHT - y, BOARD_WIDTH - x
  {
    var here := Point(x, y);
    if y == BOARD_HEIGHT {
      assert forall p :: OnBoard(p) ==> !AtOrAfter(p, y, x);
    } else if x == BOARD_WIDTH {
      ScanFromFacts(b, q, y + 1, 0);
      assert forall p :: OnBoard(p) ==> (AtOrAfter(p, y, x) <==> AtOrAfter(p, y + 1, 0));
    } else if !Matches(b, here, q) {
      ScanFromFacts(b, q, y, x + 1);
      assert forall p :: AtOrAfter(p, y, x) <==> p == here || AtOrAfter(p, y, x + 1);
    } else {
      assert OnBoard(here) && AtOrAfter(here, y, x);
    }
  }

  /** A row-major scan from (x, y) on succeeds exactly when some board
      square from there on satisfies the predicate. */
  lemma {:induction false} AnyFromMeans(f: Point -> bool, y: int, x: int)
    requires 0 <= y <= BOARD_HEIGHT && 0 <= x <= BOARD_WIDTH
    ensures AnyFrom(f, y, x) <==> exists p :: OnBoard(p) && AtOrAfter(p, y, x) && f(p)
    decreases BOARD_HEIGHT - y, BOARD_WIDTH - x
  {
    if y < BOARD_HEIGHT {
      if x == BOARD_WIDTH {
        AnyFromMeans(f, y + 1, 0);
      } else {
        AnyFromMeans(f, y, x + 1);
        var here := Point(x, y);
        if f(here) {
          assert AtOrAfter(here, y, x);
        } else if !AnyFrom(f, y, x + 1) {
          forall p | OnBoard(p) && AtOrAfter(p, y, x)
            ensures !f(p)
          {
            if p != here {
              assert AtOrAfter(p, y, x + 1);
            }
          }
        }
      }
    }
  }

  /** The attack scan holds exactly when some square attacks k. */
  lemma AttackedMeans(b: Board, c: Color, k: Point)
    requires KingsHome(b)
    ensures AttackedFrom(b, c, k, 0, 0) <==> exists p :: OnBoard(p) && Attacks(b, c, p, k)
  {
    AnyFromMeans(p => OnBoard(p) && Attacks(b, c, p, k), 0, 0);
  }

  /** The movable scan holds exactly when some square is movable. */
  lemma MovableMeans(b: Board, turn: Color)
    requires KingsHome(b)
    ensures MovableFrom(b, turn, 0, 0) <==> exists p :: OnBoard(p) && Movable(b, turn, p)
  {
    AnyFromMeans(p => OnBoard(p) && Movable(b, turn, p), 0, 0);
  }

  /** `isInCheck(c)` holds exactly when the board has no king of colour c,
      or when a piece of the other colour has the first such king (in
      row-major order) among its pseudo-legal moves. */
  lemma InCheckMeans(b: Board, c: Color)
    requires KingsHome(b)
    ensures FindKing(b, c).Some? ==>
      var k := FindKing(b, c).value;
      && OnBoard(k) && At(b, k).kind == King && At(b, k).color == c
      && (forall p :: OnBoard(p) && !AtOrAfter(p, k.y, k.x) ==> !(HasPiece(b, p) && At(b, p).kind == King && At(b, p).color == c))
    ensures InCheck(b, c) <==>
      || (forall p :: OnBoard(p) ==> !(At(b, p).kind == King && At(b, p).color == c))
      || (FindKing(b, c).Some? && exists p :: OnBoard(p) && Attacks(b, c, p, FindKing(b, c).value))
  {
    ScanFromFacts(b, KingOf(c), 0, 0);
    assert forall p :: OnBoard(p) ==> AtOrAfter(p, 0, 0);
    if FindKing(b, c).Some? {
      AttackedMeans(b, c, FindKing(b, c).value);
    }
  }

  /** Membership in the row-major list of a colour's squares. */
  lemma {:induction false} InOwnSquaresBefore(b: Board, color: Color, y: int, x: int)
    requires 0 <= y < BOARD_HEIGHT && 0 <= x <= BOARD_WIDTH
    ensures forall p :: p in OwnSquaresBefore(b, color, y, x) <==>
      OnBoard(p) && Matches(b, p, PieceOf(color)) && !AtOrAfter(p, y, x)
    decreases y, x
  {
    if x == 0 {
      if y > 0 {
        InOwnSquaresBefore(b, color, y - 1, BOARD_WIDTH);
      }
    } else {
      InOwnSquaresBefore(b, color, y, x - 1);
    }
  }

  /** What the search loop finds. The result is the start or one of the
      options. When the start or some option lies ahead, the result lies
      ahead; a result ahead is no farther than any option ahead, and no
      farther than a start ahead. When nothing lies ahead the start stays.
      An option replaces the start only when it is strictly nearer, and of
      equally near options the first in the list wins. */
  lemma {:induction false} NearestAmongFacts(location: Point, start: Point, options: seq<Point>, dx: int, dy: int)
    ensures var r := NearestAmong(location, start, options, dx, dy);
      && (r == start || r in options)
      && ((Ahead(location, start, dx, dy) || exists q :: q in options && Ahead(location, q, dx, dy)) ==>
            Ahead(location, r, dx, dy))
      && (Ahead(location, r, dx, dy) ==>
            forall q :: q in options && Ahead(location, q, dx, dy) ==> Distance(location, r) <= Distance(location, q))
      && (Ahead(location, start, dx, dy) ==> Distance(location, r) <= Distance(location, start))
      && ((!Ahead(location, start, dx, dy) && forall q :: q in options ==> !Ahead(location, q, dx, dy)) ==> r == start)
    ensures var r := NearestAmong(location, start, options, dx, dy);
      r == start || EarliestNearest(location, start, options, dx, dy, r)
  {
    if options != [] {
      var init := options[..|options| - 1];
      var last := options[|options| - 1];
      NearestAmongFacts(location, start, init, dx, dy);
      PointInButLast(options);
      var r := NearestAmong(location, start, init, dx, dy);
      var r' := NearestStep(location, r, last, dx, dy);
      if r' == start {
      } else if r' == r {
        var i :| 0 <= i < |init| && EarliestAt(location, start, init, dx, dy, r, i);
        assert EarliestAt(location, start, options, dx, dy, r, i);
      } else {
        assert r' == last;
        var i := |options| - 1;
        forall j | 0 <= j < i && Ahead(location, options[j], dx, dy)
          ensures Distance(location, last) < Distance(location, options[j])
        {
          assert options[j] in init;
        }
        assert EarliestAt(location, start, options, dx, dy, r', i);
      }
    }
  }

  /** The search lands on option i, which lies ahead, is strictly nearer
      than a start that lies ahead, and is strictly nearer than every earlier
      option ahead: among equally near squares the first one met wins. */
  predicate EarliestAt(location: Point, start: Point, options: seq<Point>, dx: int, dy: int, r: Point, i: int)
  {
    && 0 <= i < |options| && r == options[i] && Ahead(location, r, dx, dy)
    && (Ahead(location, start, dx, dy) ==> Distance(location, r) < Distance(location, start))
    && forall j :: 0 <= j < i && Ahead(location, options[j], dx, dy) ==> Distance(location, r) < Distance(location, options[j])
  }

  /** Some option is the earliest nearest one in the sense of `EarliestAt`. */
  predicate EarliestNearest(location: Point, start: Point, options: seq<Point>, dx: int, dy: int, r: Point)
  {
    exists i :: 0 <= i < |options| && EarliestAt(location, start, options, dx, dy, r, i)
  }

  /** Membership in a non-empty list of squares splits at its last entry. */
  lemma PointInButLast(options: seq<Point>)
    requires options != []
    ensures forall q :: q in options <==> q in options[..|options| - 1] || q == options[|options| - 1]
  {
    assert options == options[..|options| - 1] + [options[|options| - 1]];
  }

  /** `findNearestTarget` with no offset stays on `location`. With an offset,
      it stays on `location` when no option lies ahead; otherwise it is an
      option ahead, no option ahead is nearer, and no earlier option ahead
      is as near: ties go to the first such option in the list. */
  lemma NearestTargetFacts(location: Point, options: seq<Point>, dx: int, dy: int)
    ensures dx == 0 && dy == 0 ==> NearestTarget(location, options, dx, dy) == location
    ensures (dx != 0 || dy != 0) && (forall q :: q in options ==> !Ahead(location, q, dx, dy)) ==>
      NearestTarget(location, options, dx, dy) == location
    ensures (dx != 0 || dy != 0) && (exists q :: q in options && Ahead(location, q, dx, dy)) ==>
      var r := NearestTarget(location, options, dx, dy);
      && r in options && Ahead(location, r, dx, dy)
      && (forall q :: q in options && Ahead(location, q, dx, dy) ==> Distance(location, r) <= Distance(location, q))
      && exists i :: 0 <= i < |options| && r == options[i]
           && forall j :: 0 <= j < i && Ahead(location, options[j], dx, dy) ==> Distance(location, r) < Distance(location, options[j])
  {
    NearestAmongFacts(location, location, options, dx, dy);
    if dx == 0 && dy == 0 {
      var r := NearestTarget(location, options, dx, dy);
      assert Distance(location, r) <= Distance(location, location);
      assert r == location;
    }
  }

  /** Folding the squares before (x + 1, y) is folding those before (x, y)
      and then, when it holds a piece of `color`, the square (x, y). */
  lemma OwnSquaresFoldStep(b: Board, location: Point, color: Color, dx: int, dy: int, start: Point, y: int, x: int)
    requires 0 <= y < BOARD_HEIGHT && 0 <= x < BOARD_WIDTH
    ensures var r := NearestAmong(location, start, OwnSquaresBefore(b, color, y, x), dx, dy);
      NearestAmong(location, start, OwnSquaresBefore(b, color, y, x + 1), dx, dy) ==
        if Matches(b, Point(x, y), PieceOf(color)) then NearestStep(location, r, Point(x, y), dx, dy) else r
  {
    var before := OwnSquaresBefore(b, color, y, x);
    var p := Point(x, y);
    if Matches(b, p, PieceOf(color)) {
      assert OwnSquaresBefore(b, color, y, x + 1) == before + [p];
      NearestAmongSnoc(location, start, before, p, dx, dy);
    } else {
      assert OwnSquaresBefore(b, color, y, x + 1) == before;
    }
  }

  /** Along row y the scan of `findNearestPiece`, resumed at (x, y) with the
      fold of the squares before it, reaches the next row with the fold of
      the squares up to the row's end. */
  lemma {:induction false} NearestRowIsAmong(b: Board, location: Point, color: Color, dx: int, dy: int,
                                             start: Point, y: int, x: int)
    requires 0 <= y < BOARD_HEIGHT && 0 <= x <= BOARD_WIDTH
    ensures NearestScan(b, location, color, dx, dy, NearestAmong(location, start, OwnSquaresBefore(b, color, y, x), dx, dy), y, x)
         == NearestScan(b, location, color, dx, dy, NearestAmong(location, start, OwnSquaresBefore(b, color, y, BOARD_WIDTH), dx, dy), y + 1, 0)
    decreases BOARD_WIDTH - x
  {
    var r := NearestAmong(location, start, OwnSquaresBefore(b, color, y, x), dx, dy);
    NearestScanAt(b, location, color, dx, dy, r, y, x);
    if x < BOARD_WIDTH {
      OwnSquaresFoldStep(b, location, color, dx, dy, start, y, x);
      NearestRowIsAmong(b, location, color, dx, dy, start, y, x + 1);
    }
  }

  /** One step of the scan of `findNearestPiece` on row y. */
  lemma NearestScanAt(b: Board, location: Point, color: Color, dx: int, dy: int, r: Point, y: int, x: int)
    requires 0 <= y < BOARD_HEIGHT && 0 <= x <= BOARD_WIDTH
    ensures NearestScan(b, location, color, dx, dy, r, y, x) ==
      if x == BOARD_WIDTH then NearestScan(b, location, color, dx, dy, r, y + 1, 0)
      else
        var p := Point(x, y);
        NearestScan(b, location, color, dx, dy, if Matches(b, p, PieceOf(color)) then NearestStep(location, r, p, dx, dy) else r, y, x + 1)
  {
  }

  /** The scan of `findNearestPiece`, resumed at the start of row y with the
      fold of the squares before it, ends with the fold of all of a colour's
      squares. */
  lemma {:induction false} NearestScanIsAmong(b: Board, location: Point, color: Color, dx: int, dy: int,
                                              start: Point, y: int)
    requires 0 <= y < BOARD_HEIGHT
    ensures NearestScan(b, location, color, dx, dy, NearestAmong(location, start, OwnSquaresBefore(b, color, y, 0), dx, dy), y, 0)
         == NearestAmong(location, start, OwnSquares(b, color), dx, dy)
    decreases BOARD_HEIGHT - y
  {
    NearestRowIsAmong(b, location, color, dx, dy, start, y, 0);
    if y < BOARD_HEIGHT - 1 {
      NextRowStart(b, color, y);
      NearestScanIsAmong(b, location, color, dx, dy, start, y + 1);
    } else {
      NearestScanEnds(b, location, color, dx, dy, start);
    }
  }

  /** The squares before the start of a row are those before the end of the
      previous one. */
  lemma NextRowStart(b: Board, color: Color, y: int)
    requires 0 <= y < BOARD_HEIGHT - 1
    ensures OwnSquaresBefore(b, color, y + 1, 0) == OwnSquaresBefore(b, color, y, BOARD_WIDTH)
  {
  }

  /** After the last row the scan's result is the fold of all squares. */
  lemma NearestScanEnds(b: Board, location: Point, color: Color, dx: int, dy: int, start: Point)
    ensures var rowEnd := NearestAmong(location, start, OwnSquaresBefore(b, color, BOARD_HEIGHT - 1, BOARD_WIDTH), dx, dy);
      NearestScan(b, location, color, dx, dy, rowEnd, BOARD_HEIGHT, 0) == NearestAmong(location, start, OwnSquares(b, color), dx, dy)
  {
    assert |b| - 1 == BOARD_HEIGHT - 1 && |b[0]| == BOARD_WIDTH;
  }

  /** `findNearestPiece` lands on a piece of `color` whenever the board has
      one, and on `location` otherwise; when some piece of `color` lies ahead
      the result does too, and no piece of `color` ahead is nearer. */
  lemma NearestPieceFacts(b: Board, location: Point, color: Color, dx: int, dy: int)
    requires OnBoard(location)
    ensures (exists p :: OnBoard(p) && Matches(b, p, PieceOf(color))) ==>
      var r := NearestPiece(b, location, color, dx, dy);
      OnBoard(r) && Matches(b, r, PieceOf(color))
    ensures (forall p :: OnBoard(p) ==> !Matches(b, p, PieceOf(color))) ==>
      NearestPiece(b, location, color, dx, dy) == location
    ensures (exists p :: OnBoard(p) && Matches(b, p, PieceOf(color)) && Ahead(location, p, dx, dy)) ==>
      var r := NearestPiece(b, location, color, dx, dy);
      && Ahead(location, r, dx, dy)
      && forall p :: OnBoard(p) && Matches(b, p, PieceOf(color)) && Ahead(location, p, dx, dy) ==>
           Distance(location, r) <= Distance(location, p)
  {
    InOwnSquaresBefore(b, color, BOARD_HEIGHT - 1, BOARD_WIDTH);
    ScanFromFacts(b, PieceOf(color), 0, 0);
    var start :=
      if HasPiece(b, location) && At(b, location).color == color then Some(location)
      else ScanFrom(b, PieceOf(color), 0, 0);
    if start.Some? {
      NearestAmongFacts(location, start.value, OwnSquares(b, color), dx, dy);
    } else {
      assert forall p :: OnBoard(p) ==> AtOrAfter(p, 0, 0);
    }
  }

  /** The `copy_if` of `getValidMoves` keeps exactly the destinations after
      which colour c is not in check. */
  lemma {:induction false} KeepSafeMeans(b: Board, c: Color, from: Point, ts: seq<Point>)
    requires KingsHome(b) && OnBoard(from) && forall t :: t in ts ==> OnBoard(t)
    ensures forall t :: t in KeepSafe(b, c, from, ts) <==> t in ts && !InCheck(MoveOnBoard(b, from, t), c)
  {
    if ts != [] {
      var init := ts[..|ts| - 1];
      KeepSafeMeans(b, c, from, init);
      assert forall t :: t in ts <==> t in init || t == ts[|ts| - 1];
    }
  }

  /** The `copy_if` keeps the order of its input: filtering two lists one
      after the other gives the filtered lists one after the other. */
  lemma {:induction false} KeepSafeInOrder(b: Board, c: Color, from: Point, s: seq<Point>, ts: seq<Point>)
    requires KingsHome(b) && OnBoard(from)
    requires forall t :: t in s ==> OnBoard(t)
    requires forall t :: t in ts ==> OnBoard(t)
    ensures KeepSafe(b, c, from, s + ts) == KeepSafe(b, c, from, s) + KeepSafe(b, c, from, ts)
    decreases |ts|
  {
    if ts == [] {
      assert s + ts == s;
    } else {
      var init := ts[..|ts| - 1];
      var last := ts[|ts| - 1];
      assert ts == init + [last];
      assert s + ts == (s + init) + [last];
      KeepSafeInOrder(b, c, from, s, init);
      KeepSafeSnoc(b, c, from, s + init, last);
      KeepSafeSnoc(b, c, from, init, last);
      AppendAssoc(KeepSafe(b, c, from, s), KeepSafe(b, c, from, init), KeptAlone(b, c, from, last));
    }
  }

  /** What the filter keeps of a single destination: the destination itself
      when the move leaves colour c out of check, else nothing. */
  function KeptAlone(b: Board, c: Color, from: Point, t: Point): (r: seq<Point>)
    requires KingsHome(b) && OnBoard(from) && OnBoard(t)
    ensures r == KeepSafe(b, c, from, [t])
    ensures r == [t] <==> !InCheck(MoveOnBoard(b, from, t), c)
    ensures r == [] <==> InCheck(MoveOnBoard(b, from, t), c)
  {
    assert [t][..0] == [];
    if InCheck(MoveOnBoard(b, from, t), c) then [] else [t]
  }

  /** Filtering a list with one more destination at its end. */
  lemma KeepSafeSnoc(b: Board, c: Color, from: Point, ts: seq<Point>, t: Point)
    requires KingsHome(b) && OnBoard(from) && OnBoard(t)
    requires forall q :: q in ts ==> OnBoard(q)
    ensures KeepSafe(b, c, from, ts + [t]) == KeepSafe(b, c, from, ts) + KeptAlone(b, c, from, t)
  {
    assert (ts + [t])[..|ts|] == ts;
  }

  /** Concatenation regroups. */
  lemma AppendAssoc(a: seq<Point>, b: seq<Point>, c: seq<Point>)
    ensures (a + b) + c == a + (b + c)
  {
  }

  /** `getValidMoves` answers exactly the pseudo-legal destinations after
      which the mover's colour is not in check, in the order they were
      generated: splitting the generated list anywhere splits the answer. */
  lemma ValidMovesMeans(b: Board, piece: Piece, loc: Point)
    requires KingsHome(b) && OnBoard(loc) && CastleSafe(piece, loc)
    ensures forall t :: t in ValidMoves(b, piece, loc) <==>
      t in Moves(b, piece, loc) && !InCheck(MoveOnBoard(b, loc, t), piece.color)
    ensures var ms := Moves(b, piece, loc);
      forall k :: 0 <= k <= |ms| ==>
        ValidMoves(b, piece, loc) == KeepSafe(b, piece.color, loc, ms[..k]) + KeepSafe(b, piece.color, loc, ms[k..])
  {
    var ms := Moves(b, piece, loc);
    KeepSafeMeans(b, piece.color, loc, ms);
    forall k | 0 <= k <= |ms|
      ensures ValidMoves(b, piece, loc) == KeepSafe(b, piece.color, loc, ms[..k]) + KeepSafe(b, piece.color, loc, ms[k..])
    {
      assert ms == ms[..k] + ms[k..];
      KeepSafeInOrder(b, piece.color, loc, ms[..k], ms[k..]);
    }
  }

  /** A move of the side to move that does not leave it in check. */
  predicate SafeMove(b: Board, turn: Color, p: Point, t: Point)
    requires KingsHome(b)
  {
    OnBoard(p) && HasPiece(b, p) && At(b, p).color == turn
    && t in Moves(b, At(b, p), p) && !InCheck(MoveOnBoard(b, p, t), turn)
  }

  lemma SafeMoveIsLegal(b: Board, turn: Color, p: Point, t: Point)
    requires KingsHome(b) && SafeMove(b, turn, p, t)
    ensures MovableFrom(b, turn, 0, 0)
  {
    ValidMovesMeans(b, At(b, p), p);
    assert t in ValidMoves(b, At(b, p), p);
    assert Movable(b, turn, p);
    MovableMeans(b, turn);
  }

  lemma LegalMoveIsSafe(b: Board, turn: Color) returns (p: Point, t: Point)
    requires KingsHome(b) && MovableFrom(b, turn, 0, 0)
    ensures SafeMove(b, turn, p, t)
  {
    MovableMeans(b, turn);
    p :| OnBoard(p) && Movable(b, turn, p);
    t := ValidMoves(b, At(b, p), p)[0];
    ValidMovesMeans(b, At(b, p), p);
    assert t in ValidMoves(b, At(b, p), p);
  }

  /** `getState` answers PLAY exactly when neither side has resigned and some
      piece of the side to move has a pseudo-legal move after which its own
      side is not in check. */
  lemma PlayIffSafeMove(b: Board, turn: Color, blackResigned: bool, whiteResigned: bool)
    requires KingsHome(b)
    ensures StateOf(b, turn, blackResigned, whiteResigned) == Play <==>
      !blackResigned && !whiteResigned && exists p, t :: SafeMove(b, turn, p, t)
  {
    if exists p, t :: SafeMove(b, turn, p, t) {
      var p, t :| SafeMove(b, turn, p, t);
      SafeMoveIsLegal(b, turn, p, t);
    }
    if MovableFrom(b, turn, 0, 0) {
      var p, t := LegalMoveIsSafe(b, turn);
    }
  }

  /** With no resignation, `getState` answers PLAY exactly when the side to
      move has a legal move. */
  lemma PlayIffLegal(b: Board, turn: Color)
    requires KingsHome(b)
    ensures StateOf(b, turn, false, false) == Play <==> exists p, t :: Legal(b, turn, p, t)
  {
    MovableMeans(b, turn);
    if exists p, t :: Legal(b, turn, p, t) {
      var p, t :| Legal(b, turn, p, t);
      assert Movable(b, turn, p);
    }
    if MovableFrom(b, turn, 0, 0) {
      var p :| OnBoard(p) && Movable(b, turn, p);
      assert Legal(b, turn, p, ValidMoves(b, At(b, p), p)[0]);
    }
  }

  /** With no resignation and no safe move, `getState` reports a win named
      after the side to move when it is in check (checkmate) and a draw when
      it is not (stalemate). */
  lemma NoSafeMoveOutcome(b: Board, turn: Color)
    requires KingsHome(b)
    requires forall p, t :: !SafeMove(b, turn, p, t)
    ensures StateOf(b, turn, false, false) == if !InCheck(b, turn) then Draw else if turn == White then WhiteWin else BlackWin
  {
    if MovableFrom(b, turn, 0, 0) {
      var p, t := LegalMoveIsSafe(b, turn);
    }
  }
}
