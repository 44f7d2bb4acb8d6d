/** The rules of movement (FIDE Laws of Chess, Article 3) as predicates on board values.
    WhitePiece.MightMove, WhiteKnight.MightMove and BlackBishop.MightMove are modelled from
    their code; the other piece classes (BlackPiece, King, Queen, Rook, Pawn and the base
    Piece.GenerateMove, including castling and promotion) are not modelled from their
    code: their rules are written after Article 3.
    This module also defines the candidate move a piece generates, its effect on a
    position, and the resulting notion of a legal move. */
module Rules {
  import opened Wrappers
  import opened Pieces
  import opened Positions

  predicate HoldsColor(occupant: Option<Piece>, c: Color) {
    occupant.Some? && occupant.value.color == c
  }

  /** Board.IsSideToMovePiece, on values. */
  predicate SideToMovePiece(st: BoardState, p: Square) {
    HoldsColor(st.squares[p], st.status.Mover())
  }

  // ---------------------------------------------------------------------------
  // Pseudo-legal moves: MightMove

  /** WhitePiece.MightMove (and its Black mirror): the squares differ and the target is
      empty or holds an opposing piece. */
  predicate BaseMightMove(st: BoardState, c: Color, from: Square, to: Square) {
    from != to && !HoldsColor(st.squares[to], c)
  }

  /** The geometric part of WhiteKnight.MightMove. */
  predicate KnightJump(from: Square, to: Square) {
    File(from) != File(to) && Rank(from) != Rank(to) &&
    Abs(File(from) - File(to)) + Abs(Rank(from) - Rank(to)) == 3
  }

  predicate KnightMightMove(st: BoardState, c: Color, from: Square, to: Square) {
    BaseMightMove(st, c, from, to) && KnightJump(from, to)
  }

  /** BlackBishop.MightMove (and its White mirror). Thanks to the short-circuit &&, the
      path is only inspected once the squares are known to share a diagonal. */
  predicate BishopMightMove(st: BoardState, c: Color, from: Square, to: Square) {
    BaseMightMove(st, c, from, to) &&
    Abs(File(from) - File(to)) == Abs(Rank(from) - Rank(to)) &&
    PathClear(st.squares, from, to)
  }

  predicate RookMightMove(st: BoardState, c: Color, from: Square, to: Square) {
    BaseMightMove(st, c, from, to) &&
    (Rank(from) == Rank(to) || File(from) == File(to)) &&
    PathClear(st.squares, from, to)
  }

  predicate QueenMightMove(st: BoardState, c: Color, from: Square, to: Square) {
    BaseMightMove(st, c, from, to) && Aligned(from, to) && PathClear(st.squares, from, to)
  }

  /** One step in any direction; castling is generated separately. */
  predicate KingMightMove(st: BoardState, c: Color, from: Square, to: Square) {
    BaseMightMove(st, c, from, to) &&
    Abs(Rank(to) - Rank(from)) <= 1 && Abs(File(to) - File(from)) <= 1
  }

  /** White advances towards rank 0, Black towards rank 7. */
  function Forward(c: Color): int {
    if c == White then -1 else 1
  }

  function PawnStartRank(c: Color): int {
    if c == White then 6 else 1
  }

  function PromotionRank(c: Color): int {
    if c == White then 0 else 7
  }

  /** One square forward onto an empty square, two from the starting rank through two empty
      squares, or one square diagonally forward onto an opposing piece. */
  predicate PawnMightMove(st: BoardState, c: Color, from: Square, to: Square) {
    BaseMightMove(st, c, from, to) &&
    var dr, df := Rank(to) - Rank(from), File(to) - File(from);
    ((dr == Forward(c) && df == 0 && st.squares[to].None?) ||
     (dr == 2 * Forward(c) && df == 0 && Rank(from) == PawnStartRank(c) &&
      st.squares[to].None? && st.squares[Step(from, to, 1)].None?) ||
     (dr == Forward(c) && Abs(df) == 1 && HoldsColor(st.squares[to], Opponent(c))))
  }

  /** Piece.MightMove, dispatched on the kind of the piece. */
  predicate MightMove(st: BoardState, p: Piece, from: Square, to: Square) {
    match p.kind
    case King => KingMightMove(st, p.color, from, to)
    case Queen => QueenMightMove(st, p.color, from, to)
    case Rook => RookMightMove(st, p.color, from, to)
    case Bishop => BishopMightMove(st, p.color, from, to)
    case Knight => KnightMightMove(st, p.color, from, to)
    case Pawn => PawnMightMove(st, p.color, from, to)
  }

  /** A pawn attacks its two diagonal-forward squares whatever stands on them. */
  predicate PawnAttacks(c: Color, from: Square, to: Square) {
    Rank(to) - Rank(from) == Forward(c) && Abs(File(to) - File(from)) == 1
  }

  /** Piece.Attacks: MightMove for every kind but the pawn. */
  predicate Attacks(st: BoardState, p: Piece, from: Square, to: Square) {
    if p.kind == Pawn then PawnAttacks(p.color, from, to) else MightMove(st, p, from, to)
  }

  /** Board.IsAttackedByWhite / IsAttackedByBlack, on values. */
  ghost predicate AttackedBy(st: BoardState, attacker: Color, target: Square) {
    exists s: Square :: HoldsColor(st.squares[s], attacker) && Attacks(st, st.squares[s].value, s, target)
  }

  /** k is the first square, in square order, that holds a king of colour c. */
  ghost predicate IsFirstKing(squares: Squares, c: Color, k: Square) {
    squares[k] == Some(Piece(King, c)) &&
    forall j: Square :: j < k ==> squares[j] != Some(Piece(King, c))
  }

  /** Board.WhiteKingInCheck / BlackKingInCheck: the first king of that colour is attacked
      by the other side; false when there is no such king. */
  ghost predicate KingInCheck(st: BoardState, c: Color) {
    exists k: Square :: IsFirstKing(st.squares, c, k) && AttackedBy(st, Opponent(c), k)
  }

  // ---------------------------------------------------------------------------
  // Properties of the movement predicates

  /** WhiteKnight.MightMove: the base condition, and the (1, 2) jump in either order. */
  lemma KnightGeometry(st: BoardState, c: Color, from: Square, to: Square)
    requires KnightMightMove(st, c, from, to)
    ensures BaseMightMove(st, c, from, to)
    ensures var df, dr := Abs(File(from) - File(to)), Abs(Rank(from) - Rank(to));
      (df == 1 && dr == 2) || (df == 2 && dr == 1)
  {
  }

  /** The knight looks at no square but its target. */
  lemma KnightOnlyReadsTarget(st1: BoardState, st2: BoardState, c: Color, from: Square, to: Square)
    requires st1.squares[to] == st2.squares[to]
    ensures KnightMightMove(st1, c, from, to) == KnightMightMove(st2, c, from, to)
  {
  }

  lemma KnightJumpSymmetric(from: Square, to: Square)
    ensures KnightJump(from, to) <==> KnightJump(to, from)
  {
  }

  /** BlackBishop.MightMove: the base condition, a diagonal, and a clear path. */
  lemma BishopGeometry(st: BoardState, c: Color, from: Square, to: Square)
    requires BishopMightMove(st, c, from, to)
    ensures BaseMightMove(st, c, from, to)
    ensures Abs(File(from) - File(to)) == Abs(Rank(from) - Rank(to))
    ensures Aligned(from, to) && PathClear(st.squares, from, to)
  {
  }

  /** Any piece strictly between the two squares of a diagonal blocks the bishop. */
  lemma BishopBlocked(st: BoardState, c: Color, from: Square, to: Square, k: int)
    requires Abs(File(from) - File(to)) == Abs(Rank(from) - Rank(to))
    requires 0 < k < Distance(from, to) && st.squares[Step(from, to, k)].Some?
    ensures !BishopMightMove(st, c, from, to)
  {
  }

  /** Without a king of its colour, a side is never in check. */
  lemma NoKingNoCheck(st: BoardState, c: Color)
    requires forall s: Square :: st.squares[s] != Some(Piece(King, c))
    ensures !KingInCheck(st, c)
  {
  }

  /** The first king decides: whichever square holds it, check is exactly an attack on it. */
  lemma FirstKingUnique(squares: Squares, c: Color, k: Square, k': Square)
    requires IsFirstKing(squares, c, k) && IsFirstKing(squares, c, k')
    ensures k == k'
  {
  }

  lemma KingInCheckAtFirstKing(st: BoardState, c: Color, k: Square)
    requires IsFirstKing(st.squares, c, k)
    ensures KingInCheck(st, c) <==> AttackedBy(st, Opponent(c), k)
  {
    if KingInCheck(st, c) {
      var k' :| IsFirstKing(st.squares, c, k') && AttackedBy(st, Opponent(c), k');
      FirstKingUnique(st.squares, c, k, k');
    }
  }

  // ---------------------------------------------------------------------------
  // The move a piece generates, and its effect

  /** The status after a king, rook, or pawn move from from to to made by p (the after-status
      of a Move; it is not modelled from the code that derives it, but after
      FIDE Article 3): the turn
      passes, a king move clears both of its side's castling rights, a move from or to a
      rook's home square clears that right, a two-square pawn advance sets the en-passant
      target, the ply counter restarts on a pawn move or a capture, and the move number
      advances after Black's move. */
  function NextStatus(st: BoardState, p: Piece, from: Square, to: Square): (r: BoardStatus)
    ensures r.whiteTurn == !st.status.whiteTurn
    ensures r.ply == if p.kind == Pawn || st.squares[to].Some? then 0 else st.status.ply + 1
    ensures p == Piece(King, White) ==> !r.whiteCouldCastleShort && !r.whiteCouldCastleLong
    ensures p == Piece(King, Black) ==> !r.blackCouldCastleShort && !r.blackCouldCastleLong
    ensures r.whiteCouldCastleShort ==> st.status.whiteCouldCastleShort
    ensures r.whiteCouldCastleLong ==> st.status.whiteCouldCastleLong
    ensures r.blackCouldCastleShort ==> st.status.blackCouldCastleShort
    ensures r.blackCouldCastleLong ==> st.status.blackCouldCastleLong
  {
    var s := st.status;
    var whiteKing, blackKing := p == Piece(King, White), p == Piece(King, Black);
    BoardStatus(
      !s.whiteTurn,
      s.whiteCouldCastleShort && !whiteKing && from != H1 && to != H1,
      s.whiteCouldCastleLong && !whiteKing && from != A1 && to != A1,
      s.blackCouldCastleShort && !blackKing && from != H8 && to != H8,
      s.blackCouldCastleLong && !blackKing && from != A8 && to != A8,
      if p.kind == Pawn && Abs(Rank(to) - Rank(from)) == 2 then Some((from + to) / 2) else None,
      if p.kind == Pawn || st.squares[to].Some? then 0 else s.ply + 1,
      if p.color == Black then s.moves + 1 else s.moves)
  }

  function HomeSquare(c: Color): Square {
    if c == White then E1 else E8
  }

  predicate ShortRight(s: BoardStatus, c: Color) {
    if c == White then s.whiteCouldCastleShort else s.blackCouldCastleShort
  }

  predicate LongRight(s: BoardStatus, c: Color) {
    if c == White then s.whiteCouldCastleLong else s.blackCouldCastleLong
  }

  /** King.CanCastleShort / CanCastleLong (FIDE 3.8.2): the right is still recorded, the
      squares between king and rook are empty, and no square the king starts on, crosses
      or lands on is attacked. */
  ghost predicate CanCastle(st: BoardState, c: Color, from: Square, to: Square) {
    var h := HomeSquare(c);
    var them := Opponent(c);
    from == h &&
    ((to == h + 2 && ShortRight(st.status, c) &&
      st.squares[h + 1].None? && st.squares[h + 2].None? &&
      !AttackedBy(st, them, h) && !AttackedBy(st, them, h + 1) && !AttackedBy(st, them, h + 2)) ||
     (to == h - 2 && LongRight(st.status, c) &&
      st.squares[h - 1].None? && st.squares[h - 2].None? && st.squares[h - 3].None? &&
      !AttackedBy(st, them, h) && !AttackedBy(st, them, h - 1) && !AttackedBy(st, them, h - 2)))
  }

  /** The rook's from and to squares for a castling king move from its home square. */
  function CastlingRook(kingFrom: Square, kingTo: Square): (r: (Square, Square))
    requires kingFrom == E1 || kingFrom == E8
  {
    if kingTo > kingFrom then (kingFrom + 3, kingFrom + 1) else (kingFrom - 4, kingFrom - 1)
  }

  /** The variants of Move: a plain move, a promotion (with its promotion piece, if one is
      set), and castling (with the squares of its rook move). */
  datatype Shape = Simple | Promote(piece: Option<Piece>) | Castle(rookFrom: Square, rookTo: Square)

  /** What a Move object describes, as a value. */
  datatype MoveSpec = MoveSpec(shape: Shape, from: Square, to: Square, before: BoardStatus, after: BoardStatus)

  /** The move the piece on from generates towards to before the king-safety test (the base
      Piece.GenerateMove with its King and Pawn overrides): castling, a promotion (its piece
      preset to a queen of the side to move, as the PromotionType setter resolves a queen),
      a plain move, or nothing. */
  ghost function Candidate(st: BoardState, from: Square, to: Square): (r: Option<MoveSpec>)
    ensures r.Some? ==> r.value.from == from && r.value.to == to && r.value.before == st.status
    ensures r.Some? ==> st.squares[from].Some?
  {
    match st.squares[from]
    case None => None
    case Some(p) =>
      if p.kind == King && CanCastle(st, p.color, from, to) then
        var (rf, rt) := CastlingRook(from, to);
        Some(MoveSpec(Castle(rf, rt), from, to, st.status, NextStatus(st, p, from, to)))
      else if !MightMove(st, p, from, to) then None
      else if p.kind == Pawn && Rank(to) == PromotionRank(p.color) then
        Some(MoveSpec(Promote(Some(Piece(Queen, st.status.Mover()))), from, to, st.status, NextStatus(st, p, from, to)))
      else
        Some(MoveSpec(Simple, from, to, st.status, NextStatus(st, p, from, to)))
  }

  /** The base Move.Make on the squares: the piece on from goes to to, from is emptied. */
  function MoveSquares(squares: Squares, from: Square, to: Square): Squares {
    squares[to := squares[from]][from := None]
  }

  /** The base Move.TakeBack on the squares: the piece on to goes back to from, and to gets
      the recorded capture back. */
  function TakeBackSquares(squares: Squares, from: Square, to: Square, capture: Option<Piece>): Squares {
    squares[from := squares[to]][to := capture]
  }

  /** The position after making a move. A promotion without a promotion piece cannot be made
      (PromotionMove.Make throws before writing anything), so it leaves the position as it is. */
  ghost function ApplySpec(st: BoardState, m: MoveSpec): BoardState {
    match m.shape
    case Simple => BoardState(MoveSquares(st.squares, m.from, m.to), m.after)
    case Promote(None) => st
    case Promote(Some(p)) => BoardState(st.squares[m.to := Some(p)][m.from := None], m.after)
    case Castle(rf, rt) => BoardState(MoveSquares(MoveSquares(st.squares, rf, rt), m.from, m.to), m.after)
  }

  /** A legal move: the piece on from generates a candidate towards to, and after making it
      the mover's own king is not in check. */
  ghost predicate Legal(st: BoardState, from: Square, to: Square) {
    st.squares[from].Some? && Candidate(st, from, to).Some? &&
    !KingInCheck(ApplySpec(st, Candidate(st, from, to).value), st.squares[from].value.color)
  }

  /** For each to square, whether the move from f to it is legal. */
  ghost function LegalFlags(st: BoardState, f: Square): (r: seq<bool>)
    ensures |r| == 64 && forall t :: 0 <= t < 64 ==> r[t] == Legal(st, f, t)
  {
    seq(64, t requires 0 <= t < 64 => Legal(st, f, t))
  }

  /** The moves from f to the squares 0 .. t-1 whose flag is set, in square order. */
  function FlaggedRow(f: Square, flags: seq<bool>, t: nat): seq<(Square, Square)>
    requires t <= |flags| <= 64
  {
    if t == 0 then [] else FlaggedRow(f, flags, t - 1) + (if flags[t - 1] then [(f, t - 1)] else [])
  }

  lemma {:induction false} FlaggedRowMembers(f: Square, flags: seq<bool>, t: nat, pair: (Square, Square))
    requires t <= |flags| <= 64
    ensures pair in FlaggedRow(f, flags, t) <==> pair.0 == f && 0 <= pair.1 < t && flags[pair.1]
  {
    if t > 0 {
      FlaggedRowMembers(f, flags, t - 1, pair);
    }
  }

  /** The legal moves of the piece on f towards squares 0 .. t-1, in square order. */
  ghost function LegalRow(st: BoardState, f: Square, t: nat): seq<(Square, Square)>
    requires t <= 64
  {
    FlaggedRow(f, LegalFlags(st, f), t)
  }

  /** One to square more of a row. */
  lemma LegalRowStep(st: BoardState, f: Square, t: Square)
    ensures LegalRow(st, f, t + 1) == LegalRow(st, f, t) + (if Legal(st, f, t) then [(f, t)] else [])
  {
    assert LegalFlags(st, f)[t] == Legal(st, f, t);
  }

  /** The legal moves of the side to move from squares 0 .. n-1, in scan order. */
  ghost function LegalUpTo(st: BoardState, n: nat): seq<(Square, Square)>
    requires n <= 64
  {
    if n == 0 then [] else LegalUpTo(st, n - 1) + (if SideToMovePiece(st, n - 1) then LegalRow(st, n - 1, 64) else [])
  }

  /** All legal moves of the side to move, in the order Game.GenerateMoves finds them. */
  ghost function LegalMoves(st: BoardState): seq<(Square, Square)> {
    LegalUpTo(st, 64)
  }

  lemma LegalRowMembers(st: BoardState, f: Square, t: nat, pair: (Square, Square))
    requires t <= 64
    ensures pair in LegalRow(st, f, t) <==> pair.0 == f && pair.1 < t && Legal(st, f, pair.1)
  {
    FlaggedRowMembers(f, LegalFlags(st, f), t, pair);
  }

  lemma {:induction false} LegalUpToMembers(st: BoardState, n: nat, pair: (Square, Square))
    requires n <= 64
    ensures pair in LegalUpTo(st, n) <==> pair.0 < n && SideToMovePiece(st, pair.0) && Legal(st, pair.0, pair.1)
  {
    if n > 0 {
      LegalUpToMembers(st, n - 1, pair);
      LegalRowMembers(st, n - 1, 64, pair);
    }
  }

  /** The legal-move list holds exactly the legal moves of pieces of the side to move. */
  lemma LegalMovesMembers(st: BoardState, from: Square, to: Square)
    ensures (from, to) in LegalMoves(st) <==> SideToMovePiece(st, from) && Legal(st, from, to)
  {
    LegalUpToMembers(st, 64, (from, to));
  }

  /** Every listed move starts on a square holding a piece of the side to move. */
  lemma LegalMovesFromSideToMove(st: BoardState, i: int)
    requires 0 <= i < |LegalMoves(st)|
    ensures SideToMovePiece(st, LegalMoves(st)[i].0)
    ensures Legal(st, LegalMoves(st)[i].0, LegalMoves(st)[i].1)
  {
    var pair := LegalMoves(st)[i];
    LegalUpToMembers(st, 64, pair);
  }

  /** A legal move is pseudo-legal: castling, or a move its piece might make. */
  lemma LegalIsPseudoLegal(st: BoardState, from: Square, to: Square)
    requires Legal(st, from, to)
    ensures var p := st.squares[from].value;
      MightMove(st, p, from, to) || (p.kind == King && CanCastle(st, p.color, from, to))
  {
  }

  /** Castling clears both rights of the side that castles. */
  lemma CastlingClearsRights(st: BoardState, from: Square, to: Square)
    requires Candidate(st, from, to).Some? && Candidate(st, from, to).value.shape.Castle?
    ensures var a := Candidate(st, from, to).value.after;
      st.squares[from] == Some(Piece(King, White)) ==> !a.whiteCouldCastleShort && !a.whiteCouldCastleLong
    ensures var a := Candidate(st, from, to).value.after;
      st.squares[from] == Some(Piece(King, Black)) ==> !a.blackCouldCastleShort && !a.blackCouldCastleLong
  {
  }
}
