/** The pieces of the game as values: a kind and a colour. The original program has one
    class per (kind, colour) pair (WhiteKnight, BlackBishop, ...); here the class test
    `x is BlackBishop` becomes the comparison `x == Some(Piece(Bishop, Black))`. */
module Pieces {

  datatype Color = White | Black

  datatype Kind = King | Queen | Rook | Bishop | Knight | Pawn

  datatype Piece = Piece(kind: Kind, color: Color)

  function Opponent(c: Color): (r: Color)
    ensures r != c
  {
    if c == White then Black else White
  }

  /** The kinds a pawn may promote to (the interfaces IQueen, IRook, IKnight, IBishop). */
  predicate IsPromotionKind(k: Kind) {
    k == Queen || k == Rook || k == Knight || k == Bishop
  }
}
