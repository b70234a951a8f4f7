/** Piece kinds, colours and piece values (piece.h, piece.cpp:9-15). */
module Pieces {

  /** The seven `PieceType` constants; EMPTY marks an unoccupied square. */
  datatype Kind = Pawn | Rook | Knight | Bishop | Queen | King | Empty

  datatype Color = White | Black

  /** A piece is a value: its kind, its colour and the `firstMove` flag, which is
      true until the piece has been relocated once. */
  datatype Piece = Piece(kind: Kind, color: Color, firstMove: bool)

  function Opponent(c: Color): (o: Color)
    ensures o != c
  {
    if c == White then Black else White
  }

  /** The display character each `PieceType` constant is built with. */
  function DisplayCharacter(k: Kind): string
  {
    match k
    case Pawn => "P"
    case Rook => "R"
    case Knight => "N"
    case Bishop => "B"
    case Queen => "Q"
    case King => "K"
    case Empty => " "
  }

  /** The name each `PieceType` constant is built with. */
  function Name(k: Kind): string
  {
    match k
    case Pawn => "Pawn"
    case Rook => "Rook"
    case Knight => "Knight"
    case Bishop => "Bishop"
    case Queen => "Queen"
    case King => "King"
    case Empty => ""
  }

  /** `PieceType::operator==` compares display characters. The seven characters
      are distinct, so the comparison is exactly identity of kinds. */
  function TypeEquals(a: Kind, b: Kind): (same: bool)
    ensures same <==> a == b
  {
    DisplayCharacter(a) == DisplayCharacter(b)
  }

  /** `Piece()`: an empty square, coloured WHITE, with the flag set. */
  const EmptyPiece: Piece := Piece(Empty, White, true)

  /** `Piece(type, color)`: every newly built piece, a promoted one included,
      counts as not yet moved. */
  function NewPiece(k: Kind, c: Color): (p: Piece)
    ensures p.kind == k && p.color == c && p.firstMove
  {
    Piece(k, c, true)
  }

  /** `Piece::operator==` compares type and colour and ignores the flag:
      two pieces are equal iff they agree once their flags are made equal. */
  function PieceEquals(p: Piece, q: Piece): (same: bool)
    ensures same <==> p.(firstMove := q.firstMove) == q
  {
    TypeEquals(p.kind, q.kind) && p.color == q.color
  }

  /** `setFirstMove`: the flag becomes `first`; kind and colour are kept, so the
      result is `==` to the original piece, and `isFirstMove` reads it back. */
  function SetFirstMove(p: Piece, first: bool): (r: Piece)
    ensures r.firstMove == first && PieceEquals(r, p)
  {
    p.(firstMove := first)
  }
}
