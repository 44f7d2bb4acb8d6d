/** Move generation: the base generation of a candidate move (Piece.GenerateMove with the
    King and Pawn overrides, not modelled from their code: their rules are written after
    FIDE Article 3) and the king-safety
    filter of ChessEngine/Models/Pieces/White/WhitePiece.cs and its Black mirror. */
module Legality {
  import opened Wrappers
  import opened Pieces
  import opened Positions
  import opened Rules
  import opened Boards
  import opened Moves

  /** King.CanCastleShort / CanCastleLong on the board, through Board.IsAttackedBy. */
  method CanCastleOn(board: Board, c: Color, from: Square, to: Square) returns (r: bool)
    requires board.Valid()
    ensures r == CanCastle(board.State(), c, from, to)
  {
    var h := HomeSquare(c);
    var them := Opponent(c);
    if from != h {
      return false;
    }
    if to == h + 2 && ShortRight(board.status, c) && board.squares[h + 1] == None && board.squares[h + 2] == None {
      var a0 := board.IsAttackedBy(them, h);
      var a1 := board.IsAttackedBy(them, h + 1);
      var a2 := board.IsAttackedBy(them, h + 2);
      return !a0 && !a1 && !a2;
    }
    if to == h - 2 && LongRight(board.status, c) &&
       board.squares[h - 1] == None && board.squares[h - 2] == None && board.squares[h - 3] == None
    {
      var a0 := board.IsAttackedBy(them, h);
      var a1 := board.IsAttackedBy(them, h - 1);
      var a2 := board.IsAttackedBy(them, h - 2);
      return !a0 && !a1 && !a2;
    }
    return false;
  }

  /** Piece.GenerateMove before the king-safety test: a new move object for the candidate
      of Rules.Candidate, or none. A promotion gets its capture and a queen preset. */
  method BaseGenerateMove(board: Board, from: Square, to: Square) returns (move: Option<MoveRef>)
    requires board.Valid()
    ensures move.None? <==> Candidate(board.State(), from, to).None?
    ensures move.Some? ==> move.value.Spec() == Candidate(board.State(), from, to).value
    ensures move.Some? ==> move.value.Valid() && move.value.Makeable() && move.value.CaptureSet(board.State())
    ensures move.Some? ==> fresh(move.value.Objects())
  {
    var occupant := board.squares[from];
    if occupant == None {
      return None;
    }
    var p := occupant.value;
    var st := board.State();
    if p.kind == King {
      var castle := CanCastleOn(board, p.color, from, to);
      if castle {
        var (rf, rt) := CastlingRook(from, to);
        var after := NextStatus(st, p, from, to);
        var rook := new Move(st.status, after, rf, rt);
        var c := new CastlingMove(st.status, after, from, to, rook);
        return Some(Castling(c));
      }
    }
    if !MightMove(st, p, from, to) {
      return None;
    }
    var after := NextStatus(st, p, from, to);
    if p.kind == Pawn && Rank(to) == PromotionRank(p.color) {
      var pm := new PromotionMove(st.status, after, from, to);
      pm.SetCapture(board.squares[to]);
      pm.SetPromotionType(Some(Piece(Queen, st.status.Mover())));
      return Some(Promotion(pm));
    }
    var m := new Move(st.status, after, from, to);
    return Some(Plain(m));
  }

  /** WhitePiece.GenerateMove (and its Black mirror): the candidate is made, the mover's
      king is tested for check, and the move is taken back. The board ends as it began,
      and a move is returned exactly when it is legal. */
  method GenerateMove(board: Board, from: Square, to: Square) returns (move: Option<MoveRef>)
    requires board.Valid()
    modifies board, board.squares
    ensures board.State() == old(board.State())
    ensures move.Some? <==> Legal(old(board.State()), from, to)
    ensures move.Some? ==> move.value.Spec() == Candidate(old(board.State()), from, to).value
    ensures move.Some? ==> move.value.Valid() && move.value.From() == from && move.value.To() == to
    ensures move.Some? ==> move.value.Makeable() && move.value.CaptureSet(old(board.State()))
    ensures move.Some? ==> fresh(move.value.Objects())
  {
    ghost var st := board.State();
    var candidate := BaseGenerateMove(board, from, to);
    if candidate == None {
      return None;
    }
    var m := candidate.value;
    var color := board.squares[from].value.color;
    var made := MakeMove(m, board);
    MakeTakeBackInverse(st, m);
    var inCheck := board.KingInCheck(color);
    ghost var restored := m.Undone(board.State());
    assert restored == st;
    TakeBackMove(m, board);
    assert board.State() == restored;
    if inCheck {
      return None;
    }
    return candidate;
  }
}
