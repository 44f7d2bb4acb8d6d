/** The reversible move objects: the base Move (not modelled from its code; it is
    written here after the way PromotionMove and CastlingMove use it), PromotionMove
    (ChessEngine/Models/Pieces/Moves/PromotionMove.cs) and CastlingMove
    (ChessEngine/Models/Pieces/Moves/CastlingMove.cs). Make and TakeBack update the board
    in place. */
module Moves {
  import opened Wrappers
  import opened Pieces
  import opened Positions
  import opened Rules
  import opened Boards

  /** A plain move. Make records what stood on the target square, TakeBack puts it back. */
  class Move {
    const before: BoardStatus
    const after: BoardStatus
    const from: Square
    const to: Square
    var capture: Option<Piece>

    constructor (before: BoardStatus, after: BoardStatus, from: Square, to: Square)
      ensures this.before == before && this.after == after && this.from == from && this.to == to
      ensures capture == None
    {
      this.before := before;
      this.after := after;
      this.from := from;
      this.to := to;
      capture := None;
    }

    method Make(board: Board)
      requires board.Valid()
      modifies this, board, board.squares
      ensures capture == old(board.State()).squares[to]
      ensures board.State() == BoardState(MoveSquares(old(board.State()).squares, from, to), after)
    {
      capture := board.Get(to);
      board.Set(to, board.Get(from));
      board.Set(from, None);
      board.status := after;
    }

    method TakeBack(board: Board)
      requires board.Valid()
      modifies board, board.squares
      ensures board.State() == BoardState(TakeBackSquares(old(board.State()).squares, from, to, capture), before)
    {
      board.Set(from, board.Get(to));
      board.Set(to, capture);
      board.status := before;
    }
  }

  /** The squares after a promotion: the promotion piece on to, from emptied. */
  function PromoteSquares(squares: Squares, from: Square, to: Square, piece: Piece): Squares {
    squares[to := Some(piece)][from := None]
  }

  /** The squares after PromotionMove.TakeBack: the remembered pawn on from, the capture on to. */
  function RestoreSquares(squares: Squares, from: Square, to: Square, promoted: Option<Piece>, capture: Option<Piece>): Squares {
    squares[from := promoted][to := capture]
  }

  /** The PromotionType setter with its reflection replaced by an enumerated (kind, colour):
      no type clears the promotion piece; a queen, rook, knight or bishop of the colour to
      move in before is kept; anything else becomes a queen of that colour. */
  function ResolvePromotion(before: BoardStatus, t: Option<Piece>): (r: Option<Piece>)
    ensures r.None? <==> t.None?
    ensures r.Some? ==> IsPromotionKind(r.value.kind) && r.value.color == before.Mover()
    ensures t.Some? && IsPromotionKind(t.value.kind) && t.value.color == before.Mover() ==> r == t
    ensures t.Some? && !(IsPromotionKind(t.value.kind) && t.value.color == before.Mover()) ==>
      r == Some(Piece(Queen, before.Mover()))
  {
    match t
    case None => None
    case Some(p) =>
      if IsPromotionKind(p.kind) &&
         ((before.whiteTurn && p.color == White) || (before.BlackTurn() && p.color == Black))
      then Some(p)
      else Some(Piece(Queen, if before.whiteTurn then White else Black))
  }

  /** Setting the type a second time with what the first setting stored changes nothing. */
  lemma ResolvePromotionIdempotent(before: BoardStatus, t: Option<Piece>)
    ensures ResolvePromotion(before, ResolvePromotion(before, t)) == ResolvePromotion(before, t)
  {
  }

  /** A pawn move to the last rank. Its capture is set from outside (SetCapture) and its
      promotion piece may be chosen after it was generated. */
  class PromotionMove {
    const before: BoardStatus
    const after: BoardStatus
    const from: Square
    const to: Square
    var capture: Option<Piece>
    /** The piece the pawn promotes to. */
    var promotionPiece: Option<Piece>
    /** The pawn which is promoted, remembered by Make. */
    var promotedPiece: Option<Piece>

    constructor (before: BoardStatus, after: BoardStatus, from: Square, to: Square)
      ensures this.before == before && this.after == after && this.from == from && this.to == to
      ensures capture == None && promotionPiece == None && promotedPiece == None
    {
      this.before := before;
      this.after := after;
      this.from := from;
      this.to := to;
      capture := None;
      promotionPiece := None;
      promotedPiece := None;
    }

    /** The PromotionType getter: the promotion piece's kind and colour, none while unset. */
    function PromotionType(): (r: Option<Piece>)
      reads this
      ensures r.None? <==> promotionPiece.None?
      ensures r.Some? ==> r == promotionPiece
    {
      if promotionPiece.None? then None else Some(promotionPiece.value)
    }

    /** The PromotionType setter. */
    method SetPromotionType(t: Option<Piece>)
      modifies this
      ensures promotionPiece == ResolvePromotion(before, t)
      ensures capture == old(capture) && promotedPiece == old(promotedPiece)
    {
      promotionPiece := ResolvePromotion(before, t);
    }

    method SetCapture(piece: Option<Piece>)
      modifies this
      ensures capture == piece
      ensures promotionPiece == old(promotionPiece) && promotedPiece == old(promotedPiece)
    {
      capture := piece;
    }

    /** PromotionMove.Make: fails (the source throws InvalidOperationException) before
        writing anything while no promotion piece is set. Otherwise it writes the
        promotion piece on to, then remembers what stands on from, empties from and sets
        the after status. */
    method Make(board: Board) returns (ok: bool)
      requires board.Valid()
      modifies this, board, board.squares
      ensures ok <==> old(promotionPiece).Some?
      ensures promotionPiece == old(promotionPiece) && capture == old(capture)
      ensures !ok ==> board.State() == old(board.State()) && unchanged(this)
      ensures ok ==> promotedPiece == old(board.State()).squares[to := promotionPiece][from]
      ensures ok ==> board.State() == BoardState(PromoteSquares(old(board.State()).squares, from, to, promotionPiece.value), after)
    {
      if promotionPiece == None {
        return false;
      }
      board.Set(to, promotionPiece);
      promotedPiece := board.Get(from);
      board.Set(from, None);
      board.status := after;
      return true;
    }

    /** PromotionMove.TakeBack: the before status, the remembered pawn on from, the
        capture on to. */
    method TakeBack(board: Board)
      requires board.Valid()
      modifies board, board.squares
      ensures board.State() == BoardState(RestoreSquares(old(board.State()).squares, from, to, promotedPiece, capture), before)
    {
      board.status := before;
      board.Set(from, promotedPiece);
      board.Set(to, capture);
    }
  }

  /** A castling move: the king's move, which is the Move part CastlingMove inherits in
      the source, and the rook's move, fixed at construction. */
  class CastlingMove {
    const kingMove: Move
    const rookMove: Move

    constructor (before: BoardStatus, after: BoardStatus, from: Square, to: Square, rookMove: Move)
      ensures this.rookMove == rookMove && fresh(kingMove) && kingMove != rookMove
      ensures kingMove.before == before && kingMove.after == after
      ensures kingMove.from == from && kingMove.to == to && kingMove.capture == None
    {
      kingMove := new Move(before, after, from, to);
      this.rookMove := rookMove;
    }

    /** The rook moves first, then the king, whose after status is the final one. */
    method Make(board: Board)
      requires board.Valid() && kingMove != rookMove
      modifies board, board.squares, kingMove, rookMove
      ensures rookMove.capture == old(board.State()).squares[rookMove.to]
      ensures kingMove.capture == MoveSquares(old(board.State()).squares, rookMove.from, rookMove.to)[kingMove.to]
      ensures board.State() == BoardState(
        MoveSquares(MoveSquares(old(board.State()).squares, rookMove.from, rookMove.to), kingMove.from, kingMove.to),
        kingMove.after)
    {
      rookMove.Make(board);
      kingMove.Make(board);
    }

    /** The rook is taken back first, then the king, whose before status is the final one. */
    method TakeBack(board: Board)
      requires board.Valid()
      modifies board, board.squares
      ensures board.State() == BoardState(
        TakeBackSquares(TakeBackSquares(old(board.State()).squares, rookMove.from, rookMove.to, rookMove.capture),
                        kingMove.from, kingMove.to, kingMove.capture),
        kingMove.before)
    {
      rookMove.TakeBack(board);
      kingMove.TakeBack(board);
    }
  }

  /** A reference to a move object of one of the three classes. */
  datatype MoveRef = Plain(m: Move) | Promotion(p: PromotionMove) | Castling(c: CastlingMove)
  {
    function From(): Square {
      match this
      case Plain(m) => m.from
      case Promotion(p) => p.from
      case Castling(c) => c.kingMove.from
    }

    function To(): Square {
      match this
      case Plain(m) => m.to
      case Promotion(p) => p.to
      case Castling(c) => c.kingMove.to
    }

    function Before(): BoardStatus {
      match this
      case Plain(m) => m.before
      case Promotion(p) => p.before
      case Castling(c) => c.kingMove.before
    }

    /** The objects Make writes to. */
    ghost function Objects(): set<object> {
      match this
      case Plain(m) => {m}
      case Promotion(p) => {p}
      case Castling(c) => {c.kingMove, c.rookMove}
    }

    /** The shape every generated move has: from and to differ, and castling's king and
        rook moves are two objects on four different squares. */
    ghost predicate Valid() {
      match this
      case Plain(m) => m.from != m.to
      case Promotion(p) => p.from != p.to
      case Castling(c) =>
        var k, r := c.kingMove, c.rookMove;
        k != r && k.from != k.to && r.from != r.to &&
        k.from != r.from && k.from != r.to && k.to != r.from && k.to != r.to
    }

    /** Move.Capture. For castling it is the king move's, the Move part of the object. */
    function Capture(): Option<Piece>
      reads Objects()
    {
      match this
      case Plain(m) => m.capture
      case Promotion(p) => p.capture
      case Castling(c) => c.kingMove.capture
    }

    /** What the move describes, as a value. */
    ghost function Spec(): MoveSpec
      reads Objects()
    {
      match this
      case Plain(m) => MoveSpec(Simple, m.from, m.to, m.before, m.after)
      case Promotion(p) => MoveSpec(Promote(p.promotionPiece), p.from, p.to, p.before, p.after)
      case Castling(c) =>
        MoveSpec(Castle(c.rookMove.from, c.rookMove.to), c.kingMove.from, c.kingMove.to, c.kingMove.before, c.kingMove.after)
    }

    /** Make can be carried out: a promotion needs its promotion piece. */
    ghost predicate Makeable()
      reads Objects()
    {
      !(Promotion? && p.promotionPiece.None?)
    }

    /** The capture of a promotion, which Make does not record itself, was set from st. */
    ghost predicate CaptureSet(st: BoardState)
      reads Objects()
    {
      Promotion? ==> p.capture == st.squares[p.to]
    }

    /** What the move remembers is what stood on the board st before it was made. */
    ghost predicate Recorded(st: BoardState)
      reads Objects()
    {
      match this
      case Plain(m) => m.capture == st.squares[m.to]
      case Promotion(p) => p.promotedPiece == st.squares[p.from] && p.capture == st.squares[p.to]
      case Castling(c) =>
        c.rookMove.capture == st.squares[c.rookMove.to] &&
        c.kingMove.capture == MoveSquares(st.squares, c.rookMove.from, c.rookMove.to)[c.kingMove.to]
    }

    /** The position TakeBack leaves from st. */
    ghost function Undone(st: BoardState): BoardState
      reads Objects()
    {
      match this
      case Plain(m) => BoardState(TakeBackSquares(st.squares, m.from, m.to, m.capture), m.before)
      case Promotion(p) => BoardState(RestoreSquares(st.squares, p.from, p.to, p.promotedPiece, p.capture), p.before)
      case Castling(c) =>
        var k, r := c.kingMove, c.rookMove;
        BoardState(TakeBackSquares(TakeBackSquares(st.squares, r.from, r.to, r.capture), k.from, k.to, k.capture), k.before)
    }
  }

  /** Move.Make, dispatched on the class of the move. */
  method MakeMove(move: MoveRef, board: Board) returns (ok: bool)
    requires board.Valid() && move.Valid()
    modifies board, board.squares, move.Objects()
    ensures ok <==> old(move.Makeable())
    ensures move.Spec() == old(move.Spec()) && move.Makeable() == old(move.Makeable())
    ensures board.State() == ApplySpec(old(board.State()), move.Spec())
    ensures ok && old(move.CaptureSet(board.State())) ==> move.Recorded(old(board.State()))
    ensures !ok ==> unchanged(move.Objects()) && board.State() == old(board.State())
  {
    match move
    case Plain(m) =>
      m.Make(board);
      ok := true;
    case Promotion(p) =>
      ok := p.Make(board);
    case Castling(c) =>
      c.Make(board);
      ok := true;
  }

  /** Move.TakeBack, dispatched on the class of the move. */
  method TakeBackMove(move: MoveRef, board: Board)
    requires board.Valid()
    modifies board, board.squares
    ensures board.State() == old(move.Undone(board.State()))
  {
    match move
    case Plain(m) => m.TakeBack(board);
    case Promotion(p) => p.TakeBack(board);
    case Castling(c) => c.TakeBack(board);
  }

  // ---------------------------------------------------------------------------
  // Make and TakeBack are inverses

  /** A plain move taken back with the piece it captured restores every square. */
  lemma {:induction false} PlainInverse(squares: Squares, from: Square, to: Square)
    requires from != to
    ensures TakeBackSquares(MoveSquares(squares, from, to), from, to, squares[to]) == squares
  {
    var r := TakeBackSquares(MoveSquares(squares, from, to), from, to, squares[to]);
    assert forall i :: 0 <= i < 64 ==> r[i] == squares[i];
  }

  /** A promotion taken back with the remembered pawn and the capture restores every square. */
  lemma {:induction false} PromotionInverse(squares: Squares, from: Square, to: Square, piece: Piece)
    requires from != to
    ensures RestoreSquares(PromoteSquares(squares, from, to, piece), from, to, squares[from], squares[to]) == squares
  {
    var r := RestoreSquares(PromoteSquares(squares, from, to, piece), from, to, squares[from], squares[to]);
    assert forall i :: 0 <= i < 64 ==> r[i] == squares[i];
  }

  /** Castling taken back rook first (the order of CastlingMove.TakeBack, not the reverse
      of Make) still restores every square, because king and rook use four different
      squares. */
  lemma {:induction false} CastlingInverse(squares: Squares, kf: Square, kt: Square, rf: Square, rt: Square)
    requires kf != kt && rf != rt && kf != rf && kf != rt && kt != rf && kt != rt
    ensures var mid := MoveSquares(squares, rf, rt);
      TakeBackSquares(TakeBackSquares(MoveSquares(mid, kf, kt), rf, rt, squares[rt]), kf, kt, mid[kt]) == squares
  {
    var mid := MoveSquares(squares, rf, rt);
    var r := TakeBackSquares(TakeBackSquares(MoveSquares(mid, kf, kt), rf, rt, squares[rt]), kf, kt, mid[kt]);
    assert forall i :: 0 <= i < 64 ==> r[i] == squares[i];
  }

  /** What a move recorded when it was made from st is the piece that stood on its target
      square, and making it puts the moving piece (the promotion piece, for a promotion)
      there in its place: the capture left the board. */
  lemma RecordedCapture(st: BoardState, move: MoveRef)
    requires move.Valid() && move.Recorded(st)
    ensures move.Capture() == st.squares[move.To()]
    ensures move.Makeable() ==>
      (ApplySpec(st, move.Spec()).squares[move.To()] ==
       if move.Promotion? then move.p.promotionPiece else st.squares[move.From()])
  {
    match move
    case Plain(m) =>
    case Promotion(p) =>
    case Castling(c) =>
      var mid := MoveSquares(st.squares, c.rookMove.from, c.rookMove.to);
      assert mid[c.kingMove.to] == st.squares[c.kingMove.to];
      assert mid[c.kingMove.from] == st.squares[c.kingMove.from];
  }

  /** Taking back a move made from st, with its record of st, gives st back, provided the
      move's before status is st's status. */
  lemma MakeTakeBackInverse(st: BoardState, move: MoveRef)
    requires move.Valid() && move.Makeable() && move.Recorded(st) && move.Before() == st.status
    ensures move.Undone(ApplySpec(st, move.Spec())) == st
  {
    match move
    case Plain(m) =>
      PlainInverse(st.squares, m.from, m.to);
    case Promotion(p) =>
      PromotionInverse(st.squares, p.from, p.to, p.promotionPiece.value);
    case Castling(c) =>
      CastlingInverse(st.squares, c.kingMove.from, c.kingMove.to, c.rookMove.from, c.rookMove.to);
  }
}
