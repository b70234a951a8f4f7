/** An optional value, for searches that may find nothing. */
module Options {
  datatype Option<T> = None | Some(value: T)
}

/** The 8x8 board held by value in `Game` (game.h), indexed `[y][x]`
    (row y, column x), and the location test of piece.cpp. */
module Boards {
  import opened Points
  import opened Pieces

  /** BOARD_WIDTH and BOARD_HEIGHT of constants.h. */
  const BOARD_WIDTH: int := 8
  const BOARD_HEIGHT: int := 8

  /** `isValidLocation(x, y)`: the square lies on the board. */
  function IsValidLocation(x: int, y: int): (valid: bool)
    ensures valid <==> 0 <= x < BOARD_WIDTH && 0 <= y < BOARD_HEIGHT
  {
    if x < 0 || x >= BOARD_WIDTH then false
    else if y < 0 || y >= BOARD_HEIGHT then false
    else true
  }

  predicate OnBoard(p: Point)
  {
    0 <= p.x < BOARD_WIDTH && 0 <= p.y < BOARD_HEIGHT
  }

  predicate IsBoard(b: seq<seq<Piece>>)
  {
    |b| == BOARD_HEIGHT && forall y :: 0 <= y < |b| ==> |b[y]| == BOARD_WIDTH
  }

  /** A snapshot of the `pieces` array: BOARD_HEIGHT rows of BOARD_WIDTH pieces. */
  type Board = b: seq<seq<Piece>> | IsBoard(b)
    witness seq(8, _ => seq(8, _ => EmptyPiece))

  /** `getPiece(p)`: row p.y, column p.x. */
  function At(b: Board, p: Point): Piece
    requires OnBoard(p)
  {
    b[p.y][p.x]
  }

  /** `hasPiece(p)`: the square holds a piece whose type is not EMPTY. Types
      compare by display character, which `TypeEquals` shows is the same as
      comparing kinds. */
  predicate HasPiece(b: Board, p: Point)
    requires OnBoard(p)
  {
    At(b, p).kind != Empty
  }

  /** The square is empty or holds a piece of the other colour. */
  predicate NotFriendly(b: Board, mover: Color, p: Point)
    requires OnBoard(p)
  {
    !HasPiece(b, p) || At(b, p).color != mover
  }

  /** One array write `pieces[p.y][p.x] = v`. */
  function Put(b: Board, p: Point, v: Piece): (r: Board)
    requires OnBoard(p)
    ensures At(r, p) == v
    ensures forall q :: OnBoard(q) && q != p ==> At(r, q) == At(b, q)
  {
    b[p.y := b[p.y][p.x := v]]
  }

  /** A board of `Piece()` on every square: what `Game()` holds. */
  function EmptyBoard(): (b: Board)
    ensures forall p :: OnBoard(p) ==> At(b, p) == EmptyPiece
  {
    seq(BOARD_HEIGHT, _ => seq(BOARD_WIDTH, _ => EmptyPiece))
  }

  /** Two boards that agree on every square are the same board. */
  lemma SameBoard(a: Board, b: Board)
    requires forall y, x :: 0 <= y < BOARD_HEIGHT && 0 <= x < BOARD_WIDTH ==> a[y][x] == b[y][x]
    ensures a == b
  {
    assert forall y :: 0 <= y < BOARD_HEIGHT ==> a[y] == b[y];
  }
}
