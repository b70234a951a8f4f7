/** What `getMoves` generates, piece by piece, stated against independent
    descriptions of each piece's movement (piece.cpp:27-53, 84-175). */
module MoveGenFacts {
  import opened Options
  import opened Points
  import opened Pieces
  import opened Boards
  import opened MoveGen

  /** Every square strictly before the k-th step from `from` is on the board
      and empty. */
  ghost predicate PathClear(b: Board, from: Point, dx: int, dy: int, k: nat)
  {
    forall j: nat :: 1 <= j < k ==> OnBoard(Walk(from, dx, dy, j)) && !HasPiece(b, Walk(from, dx, dy, j))
  }

  /** A sliding piece of colour `mover` on `from` can reach `t` along (dx, dy):
      t is some k-th step, every square before it is empty, and t is not
      occupied by the mover's colour. */
  ghost predicate Slides(b: Board, mover: Color, from: Point, dx: int, dy: int, t: Point)
  {
    exists k: nat :: 1 <= k && t == Walk(from, dx, dy, k) && OnBoard(t)
      && PathClear(b, from, dx, dy, k) && NotFriendly(b, mover, t)
  }

  /** lookInDirection appends successive squares of the ray, in order. */
  lemma {:induction false} RayInOrder(b: Board, mover: Color, from: Point, dx: int, dy: int, max: int, count: int)
    requires OnBoard(from) && (dx != 0 || dy != 0)
    ensures forall i :: 0 <= i < |Ray(b, mover, from, dx, dy, max, count)| ==>
      Ray(b, mover, from, dx, dy, max, count)[i] == Walk(from, dx, dy, i + 1)
    decreases RayMeasure(from, dx, dy)
  {
    var r := Ray(b, mover, from, dx, dy, max, count);
    var next := Point(from.x + dx, from.y + dy);
    if !(max > 0 && count >= max) && OnBoard(next) && !HasPiece(b, next) {
      var rest := Ray(b, mover, next, dx, dy, max, count + 1);
      assert r == [next] + rest;
      RayInOrder(b, mover, next, dx, dy, max, count + 1);
      WalkCons(from, dx, dy, rest);
    }
  }

  /** Squares that walk on from the first step walk on from the start once
      that step is put in front. */
  lemma WalkCons(from: Point, dx: int, dy: int, rest: seq<Point>)
    requires forall i :: 0 <= i < |rest| ==> rest[i] == Walk(Point(from.x + dx, from.y + dy), dx, dy, i + 1)
    ensures var r := [Point(from.x + dx, from.y + dy)] + rest;
      forall i :: 0 <= i < |r| ==> r[i] == Walk(from, dx, dy, i + 1)
  {
    var next := Point(from.x + dx, from.y + dy);
    var r := [next] + rest;
    forall i | 0 <= i < |r|
      ensures r[i] == Walk(from, dx, dy, i + 1)
    {
      if i == 0 {
        assert Walk(from, dx, dy, 1) == next;
      } else {
        assert r[i] == rest[i - 1];
        assert Walk(from, dx, dy, i + 1) == Walk(next, dx, dy, i);
      }
    }
  }

  /** Every square of the ray but the last is empty. */
  lemma {:induction false} RayPassesEmpty(b: Board, mover: Color, from: Point, dx: int, dy: int, max: int, count: int)
    requires OnBoard(from) && (dx != 0 || dy != 0)
    ensures forall i :: 0 <= i < |Ray(b, mover, from, dx, dy, max, count)| - 1 ==>
      OnBoard(Ray(b, mover, from, dx, dy, max, count)[i]) && !HasPiece(b, Ray(b, mover, from, dx, dy, max, count)[i])
    decreases RayMeasure(from, dx, dy)
  {
    var r := Ray(b, mover, from, dx, dy, max, count);
    var next := Point(from.x + dx, from.y + dy);
    if !(max > 0 && count >= max) && OnBoard(next) && !HasPiece(b, next) {
      var rest := Ray(b, mover, next, dx, dy, max, count + 1);
      assert r == [next] + rest;
      RayPassesEmpty(b, mover, next, dx, dy, max, count + 1);
      forall i | 0 <= i < |r| - 1
        ensures OnBoard(r[i]) && !HasPiece(b, r[i])
      {
        if i == 0 {
          assert r[0] == next;
        } else {
          assert r[i] == rest[i - 1];
        }
      }
    }
  }

  /** With a positive cap, `count` steps already taken leave room for at most
      `max - count` squares. */
  lemma {:induction false} RayCapped(b: Board, mover: Color, from: Point, dx: int, dy: int, max: int, count: int)
    requires OnBoard(from) && (dx != 0 || dy != 0) && max > 0
    ensures var r := Ray(b, mover, from, dx, dy, max, count);
      r == [] || count + |r| <= max
    decreases RayMeasure(from, dx, dy)
  {
    var next := Point(from.x + dx, from.y + dy);
    if !(count >= max) && OnBoard(next) && !HasPiece(b, next) {
      RayCapped(b, mover, next, dx, dy, max, count + 1);
    }
  }

  /** Why a ray of `r` squares, counted from `count`, ends before the square
      w that would come next: the cap was reached, the last square is a
      capture, or w is off the board or holds a piece of the mover's colour. */
  predicate RayEnds(b: Board, mover: Color, r: seq<Point>, w: Point, max: int, count: int)
  {
    || (max > 0 && count + |r| >= max)
    || (r != [] && OnBoard(r[|r| - 1]) && HasPiece(b, r[|r| - 1]))
    || !OnBoard(w)
    || (HasPiece(b, w) && At(b, w).color == mover)
  }

  /** The ray stops for one of the source's reasons. */
  lemma {:induction false} RayStops(b: Board, mover: Color, from: Point, dx: int, dy: int, max: int, count: int)
    requires OnBoard(from) && (dx != 0 || dy != 0)
    ensures var r := Ray(b, mover, from, dx, dy, max, count);
      RayEnds(b, mover, r, Walk(from, dx, dy, |r| + 1), max, count)
    decreases RayMeasure(from, dx, dy)
  {
    var next := Point(from.x + dx, from.y + dy);
    if (max > 0 && count >= max) || !OnBoard(next) || HasPiece(b, next) {
      RayStopsAtOnce(b, mover, from, dx, dy, max, count);
    } else {
      var r := Ray(b, mover, from, dx, dy, max, count);
      var rest := Ray(b, mover, next, dx, dy, max, count + 1);
      assert r == [next] + rest;
      RayStops(b, mover, next, dx, dy, max, count + 1);
      assert Walk(from, dx, dy, |r| + 1) == Walk(next, dx, dy, |rest| + 1);
      RayEndsStep(b, mover, next, rest, Walk(next, dx, dy, |rest| + 1), max, count);
    }
  }

  /** `RayStops` when the ray ends at its first step. */
  lemma RayStopsAtOnce(b: Board, mover: Color, from: Point, dx: int, dy: int, max: int, count: int)
    requires OnBoard(from) && (dx != 0 || dy != 0)
    requires var next := Point(from.x + dx, from.y + dy);
      (max > 0 && count >= max) || !OnBoard(next) || HasPiece(b, next)
    ensures var r := Ray(b, mover, from, dx, dy, max, count);
      RayEnds(b, mover, r, Walk(from, dx, dy, |r| + 1), max, count)
  {
    var r := Ray(b, mover, from, dx, dy, max, count);
    var next := Point(from.x + dx, from.y + dy);
    if max > 0 && count >= max {
      assert r == [];
    } else if !OnBoard(next) {
      assert r == [];
      assert Walk(from, dx, dy, 1) == next;
    } else if At(b, next).color != mover {
      assert r == [next];
    } else {
      assert r == [];
      assert Walk(from, dx, dy, 1) == next;
    }
  }

  /** A reason for the rest of a ray to end is one for the whole ray. */
  lemma RayEndsStep(b: Board, mover: Color, next: Point, rest: seq<Point>, w: Point, max: int, count: int)
    requires RayEnds(b, mover, rest, w, max, count + 1)
    ensures RayEnds(b, mover, [next] + rest, w, max, count)
  {
    if rest != [] {
      assert ([next] + rest)[|rest|] == rest[|rest| - 1];
    }
  }

  lemma {:induction false} RayOnlySlides(b: Board, mover: Color, from: Point, dx: int, dy: int, max: int, count: int, t: Point)
    requires OnBoard(from) && (dx != 0 || dy != 0) && max <= 0
    requires t in Ray(b, mover, from, dx, dy, max, count)
    ensures Slides(b, mover, from, dx, dy, t)
    decreases RayMeasure(from, dx, dy)
  {
    var next := Point(from.x + dx, from.y + dy);
    assert Walk(from, dx, dy, 1) == next;
    if t == next {
      assert PathClear(b, from, dx, dy, 1);
    } else {
      RayOnlySlides(b, mover, next, dx, dy, max, count + 1, t);
      var k: nat :| 1 <= k && t == Walk(next, dx, dy, k) && OnBoard(t)
        && PathClear(b, next, dx, dy, k) && NotFriendly(b, mover, t);
      assert Walk(from, dx, dy, k + 1) == Walk(next, dx, dy, k);
      forall j: nat | 1 <= j < k + 1
        ensures OnBoard(Walk(from, dx, dy, j)) && !HasPiece(b, Walk(from, dx, dy, j))
      {
        if j > 1 {
          assert Walk(from, dx, dy, j) == Walk(next, dx, dy, j - 1);
        }
      }
      assert PathClear(b, from, dx, dy, k + 1);
    }
  }

  lemma {:induction false} SlidesInRay(b: Board, mover: Color, from: Point, dx: int, dy: int, max: int, count: int, t: Point, k: nat)
    requires OnBoard(from) && (dx != 0 || dy != 0) && max <= 0
    requires 1 <= k && t == Walk(from, dx, dy, k) && OnBoard(t)
    requires PathClear(b, from, dx, dy, k) && NotFriendly(b, mover, t)
    ensures t in Ray(b, mover, from, dx, dy, max, count)
    decreases k
  {
    var next := Point(from.x + dx, from.y + dy);
    assert Walk(from, dx, dy, 1) == next;
    if k > 1 {
      assert OnBoard(next) && !HasPiece(b, next);
      forall j: nat | 1 <= j < k - 1
        ensures OnBoard(Walk(next, dx, dy, j)) && !HasPiece(b, Walk(next, dx, dy, j))
      {
        assert Walk(from, dx, dy, j + 1) == Walk(next, dx, dy, j);
      }
      assert Walk(from, dx, dy, k) == Walk(next, dx, dy, k - 1);
      SlidesInRay(b, mover, next, dx, dy, max, count + 1, t, k - 1);
    }
  }

  /** An unbounded ray (rook, bishop, queen) contains exactly the squares a
      sliding piece reaches along that direction. */
  lemma RayIsSlide(b: Board, mover: Color, from: Point, dx: int, dy: int, max: int, t: Point)
    requires OnBoard(from) && (dx != 0 || dy != 0) && max <= 0
    ensures t in Look(b, mover, from, dx, dy, max) <==> Slides(b, mover, from, dx, dy, t)
  {
    if t in Look(b, mover, from, dx, dy, max) {
      RayOnlySlides(b, mover, from, dx, dy, max, 0, t);
    }
    if Slides(b, mover, from, dx, dy, t) {
      var k: nat :| 1 <= k && t == Walk(from, dx, dy, k) && OnBoard(t)
        && PathClear(b, from, dx, dy, k) && NotFriendly(b, mover, t);
      SlidesInRay(b, mover, from, dx, dy, max, 0, t, k);
    }
  }

  lemma {:induction false} InRays(b: Board, mover: Color, loc: Point, dirs: seq<(int, int)>, max: int, t: Point)
    requires OnBoard(loc)
    ensures t in Rays(b, mover, loc, dirs, max)
        <==> exists i :: 0 <= i < |dirs| && t in Look(b, mover, loc, dirs[i].0, dirs[i].1, max)
    decreases |dirs|
  {
    if dirs != [] {
      var init := dirs[..|dirs| - 1];
      var d := dirs[|dirs| - 1];
      InRays(b, mover, loc, init, max, t);
      if t in Rays(b, mover, loc, dirs, max) {
        if t in Rays(b, mover, loc, init, max) {
          var i :| 0 <= i < |init| && t in Look(b, mover, loc, init[i].0, init[i].1, max);
          assert dirs[i] == init[i];
        } else {
          assert t in Look(b, mover, loc, dirs[|dirs| - 1].0, dirs[|dirs| - 1].1, max);
        }
      }
      if exists i :: 0 <= i < |dirs| && t in Look(b, mover, loc, dirs[i].0, dirs[i].1, max) {
        var i :| 0 <= i < |dirs| && t in Look(b, mover, loc, dirs[i].0, dirs[i].1, max);
        if i < |dirs| - 1 {
          assert init[i] == dirs[i];
        }
      }
    }
  }

  /** A ray of length at most one is the neighbouring square, when it is on
      the board and holds no piece of the mover's colour. */
  lemma LookOneStep(b: Board, mover: Color, loc: Point, dx: int, dy: int)
    requires OnBoard(loc) && (dx, dy) != (0, 0)
    ensures var next := Point(loc.x + dx, loc.y + dy);
      Look(b, mover, loc, dx, dy, 1) == if OnBoard(next) && NotFriendly(b, mover, next) then [next] else []
  {
    var next := Point(loc.x + dx, loc.y + dy);
    if OnBoard(next) && !HasPiece(b, next) {
      assert Ray(b, mover, next, dx, dy, 1, 1) == [];
    }
  }

  /** With the cap at one square (the king), each direction yields its
      neighbouring square when it is on the board and not friendly. */
  lemma {:induction false} StepRays(b: Board, mover: Color, loc: Point, dirs: seq<(int, int)>, t: Point)
    requires OnBoard(loc)
    requires forall i :: 0 <= i < |dirs| ==> dirs[i] != (0, 0)
    ensures t in Rays(b, mover, loc, dirs, 1)
        <==> OnBoard(t) && NotFriendly(b, mover, t) && (t.x - loc.x, t.y - loc.y) in dirs
    decreases |dirs|
  {
    if dirs != [] {
      var init := dirs[..|dirs| - 1];
      var d := dirs[|dirs| - 1];
      StepRays(b, mover, loc, init, t);
      LookOneStep(b, mover, loc, d.0, d.1);
      InButLast(dirs, (t.x - loc.x, t.y - loc.y));
    }
  }

  /** Membership in a non-empty table splits at its last entry. */
  lemma InButLast(dirs: seq<(int, int)>, v: (int, int))
    requires dirs != []
    ensures v in dirs <==> v in dirs[..|dirs| - 1] || v == dirs[|dirs| - 1]
  {
    assert dirs == dirs[..|dirs| - 1] + [dirs[|dirs| - 1]];
  }

  lemma {:induction false} InJumps(b: Board, mover: Color, loc: Point, offsets: seq<(int, int)>, t: Point)
    ensures t in Jumps(b, mover, loc, offsets)
        <==> OnBoard(t) && NotFriendly(b, mover, t) && (t.x - loc.x, t.y - loc.y) in offsets
    decreases |offsets|
  {
    if offsets != [] {
      var init := offsets[..|offsets| - 1];
      var d := offsets[|offsets| - 1];
      InJumps(b, mover, loc, init, t);
      InButLast(offsets, (t.x - loc.x, t.y - loc.y));
    }
  }

  /** The L-shaped leaps of a knight. */
  predicate KnightLeap(dx: int, dy: int)
  {
    ((dx == 1 || dx == -1) && (dy == 2 || dy == -2)) || ((dx == 2 || dx == -2) && (dy == 1 || dy == -1))
  }

  /** A knight reaches exactly the on-board, non-friendly squares an L-leap away. */
  lemma KnightMovesExactly(b: Board, piece: Piece, loc: Point, t: Point)
    requires OnBoard(loc) && piece.kind == Knight
    ensures t in Moves(b, piece, loc)
        <==> OnBoard(t) && NotFriendly(b, piece.color, t) && KnightLeap(t.x - loc.x, t.y - loc.y)
  {
    InJumps(b, piece.color, loc, KnightOffsets, t);
  }

  /** A square is among the rays along `dirs` exactly when a slide along one
      of the directions reaches it. */
  lemma RaysAreSlides(b: Board, mover: Color, loc: Point, dirs: seq<(int, int)>, t: Point)
    requires OnBoard(loc)
    requires forall i :: 0 <= i < |dirs| ==> dirs[i] != (0, 0)
    ensures t in Rays(b, mover, loc, dirs, -1)
        <==> exists i :: 0 <= i < |dirs| && Slides(b, mover, loc, dirs[i].0, dirs[i].1, t)
  {
    InRays(b, mover, loc, dirs, -1, t);
    forall i | 0 <= i < |dirs|
      ensures t in Look(b, mover, loc, dirs[i].0, dirs[i].1, -1) <==> Slides(b, mover, loc, dirs[i].0, dirs[i].1, t)
    {
      RayIsSlide(b, mover, loc, dirs[i].0, dirs[i].1, -1, t);
    }
  }

  /** A sliding piece reaches exactly the squares it can slide to along one of
      its directions: four for the rook and the bishop, eight for the queen. */
  lemma SlidingMovesExactly(b: Board, piece: Piece, loc: Point, dirs: seq<(int, int)>, t: Point)
    requires OnBoard(loc)
    requires (piece.kind == Rook && dirs == RookDirections)
          || (piece.kind == Bishop && dirs == BishopDirections)
          || (piece.kind == Queen && dirs == EightDirections)
    ensures t in Moves(b, piece, loc)
        <==> exists i :: 0 <= i < |dirs| && Slides(b, piece.color, loc, dirs[i].0, dirs[i].1, t)
  {
    assert Moves(b, piece, loc) == Rays(b, piece.color, loc, dirs, -1);
    RaysAreSlides(b, piece.color, loc, dirs, t);
  }

  /** Castling candidates of an unmoved king: two files toward an unmoved piece
      three files right or four files left, with every square between empty.
      Attacked squares are never consulted. */
  lemma CastlingExactly(b: Board, piece: Piece, loc: Point, t: Point)
    requires OnBoard(loc) && piece.kind == King && CastleSafe(piece, loc)
    ensures t in Castling(b, piece, loc) <==>
      piece.firstMove && (
        || (t == Point(loc.x + 2, loc.y)
            && HasPiece(b, Point(loc.x + 3, loc.y)) && At(b, Point(loc.x + 3, loc.y)).firstMove
            && !HasPiece(b, Point(loc.x + 1, loc.y)) && !HasPiece(b, Point(loc.x + 2, loc.y)))
        || (t == Point(loc.x - 2, loc.y)
            && HasPiece(b, Point(loc.x - 4, loc.y)) && At(b, Point(loc.x - 4, loc.y)).firstMove
            && !HasPiece(b, Point(loc.x - 1, loc.y)) && !HasPiece(b, Point(loc.x - 2, loc.y))
            && !HasPiece(b, Point(loc.x - 3, loc.y))))
  {
  }

  /** A king reaches the on-board, non-friendly neighbouring squares, plus its
      castling candidates. */
  lemma KingMovesExactly(b: Board, piece: Piece, loc: Point, t: Point)
    requires OnBoard(loc) && piece.kind == King && CastleSafe(piece, loc)
    ensures t in Moves(b, piece, loc) <==>
      || (OnBoard(t) && NotFriendly(b, piece.color, t) && t != loc
          && -1 <= t.x - loc.x <= 1 && -1 <= t.y - loc.y <= 1)
      || t in Castling(b, piece, loc)
  {
    KingMovesAre(b, piece, loc);
    KingStepsExactly(b, piece.color, loc, t);
  }

  /** The one-square rays of a king reach exactly the on-board, non-friendly
      neighbouring squares. */
  lemma KingStepsExactly(b: Board, mover: Color, loc: Point, t: Point)
    requires OnBoard(loc)
    ensures t in Rays(b, mover, loc, EightDirections, 1) <==>
      OnBoard(t) && NotFriendly(b, mover, t) && t != loc && -1 <= t.x - loc.x <= 1 && -1 <= t.y - loc.y <= 1
  {
    var v := (t.x - loc.x, t.y - loc.y);
    NeighbourDirections(v.0, v.1);
    StepRays(b, mover, loc, EightDirections, t);
    assert t == loc <==> v == (0, 0);
  }

  /** A king's moves are its one-square rays followed by its castling
      candidates. */
  lemma KingMovesAre(b: Board, piece: Piece, loc: Point)
    requires OnBoard(loc) && piece.kind == King && CastleSafe(piece, loc)
    ensures Moves(b, piece, loc) == Rays(b, piece.color, loc, EightDirections, 1) + Castling(b, piece, loc)
  {
  }

  lemma NeighbourDirections(dx: int, dy: int)
    ensures (dx, dy) in EightDirections <==> -1 <= dx <= 1 && -1 <= dy <= 1 && (dx, dy) != (0, 0)
  {
  }

  /** Pawn moves: one step forward (toward row 0 for white, row 7 for black)
      onto an empty square; two steps for an unmoved pawn over an empty square
      onto an empty square; one step diagonally forward onto a piece of the
      other colour. There is no en passant. */
  lemma PawnMovesExactly(b: Board, piece: Piece, loc: Point, t: Point)
    requires OnBoard(loc) && piece.kind == Pawn
    ensures var d := if piece.color == White then -1 else 1;
      t in Moves(b, piece, loc) <==>
        OnBoard(t) && (
          || (t == Point(loc.x, loc.y + d) && !HasPiece(b, t))
          || (t == Point(loc.x, loc.y + 2 * d) && piece.firstMove
              && !HasPiece(b, Point(loc.x, loc.y + d)) && !HasPiece(b, t))
          || ((t == Point(loc.x + 1, loc.y + d) || t == Point(loc.x - 1, loc.y + d))
              && HasPiece(b, t) && At(b, t).color != piece.color))
  {
    var d := PawnDirection(piece.color);
    PawnMovesAre(b, piece, loc, t);
    PawnForwardMeans(b, loc, d, t);
    PawnFirstMeans(b, piece, loc, t);
    PawnCaptureMeans(b, piece.color, loc, 1, d, t);
    PawnCaptureMeans(b, piece.color, loc, -1, d, t);
  }

  /** A pawn's moves are its four actions' squares, in order. */
  lemma PawnMovesAre(b: Board, piece: Piece, loc: Point, t: Point)
    requires OnBoard(loc) && piece.kind == Pawn
    ensures var d := PawnDirection(piece.color);
      t in Moves(b, piece, loc) <==>
        || t in PawnForward(b, loc, d) || t in PawnForwardFirst(b, piece, loc)
        || t in PawnCapture(b, piece.color, loc, 1, d) || t in PawnCapture(b, piece.color, loc, -1, d)
  {
  }

  lemma PawnForwardMeans(b: Board, loc: Point, d: int, t: Point)
    ensures t in PawnForward(b, loc, d) <==> t == Point(loc.x, loc.y + d) && OnBoard(t) && !HasPiece(b, t)
  {
  }

  lemma PawnFirstMeans(b: Board, piece: Piece, loc: Point, t: Point)
    requires OnBoard(loc)
    ensures var d := PawnDirection(piece.color);
      t in PawnForwardFirst(b, piece, loc) <==>
        (t == Point(loc.x, loc.y + 2 * d) && OnBoard(t) && piece.firstMove
         && !HasPiece(b, Point(loc.x, loc.y + d)) && !HasPiece(b, t))
  {
  }

  lemma PawnCaptureMeans(b: Board, mover: Color, loc: Point, dx: int, d: int, t: Point)
    ensures t in PawnCapture(b, mover, loc, dx, d) <==>
      t == Point(loc.x + dx, loc.y + d) && OnBoard(t) && HasPiece(b, t) && At(b, t).color != mover
  {
  }
}
