/** The Board class of ChessEngine/Models/Pieces/Board.cs: a fixed array of 64 squares that
    moves update in place, and the board status. Every scan of the source is a loop here,
    proved against the value definitions of modules Positions and Rules. */
module Boards {
  import opened Wrappers
  import opened Pieces
  import opened Positions
  import opened Rules

  class Board {
    /** The 64 squares, a8 first and h1 last; the array itself is never replaced. */
    const squares: array<Option<Piece>>
    var status: BoardStatus

    ghost predicate Valid()
      reads this
    {
      squares.Length == 64
    }

    /** The position this board holds, as a value. */
    function State(): BoardState
      reads this, squares
      requires Valid()
    {
      BoardState(squares[..], status)
    }

    /** The constructor keeps the caller's array: the board aliases it. */
    constructor (squares: array<Option<Piece>>, status: BoardStatus)
      requires squares.Length == 64
      ensures this.squares == squares && this.status == status && Valid()
    {
      this.squares := squares;
      this.status := status;
    }

    /** The indexer's getter. */
    function Get(index: Square): (r: Option<Piece>)
      reads this, squares
      requires Valid()
      ensures r == State().squares[index]
    {
      squares[index]
    }

    /** The indexer's setter: one square changes, nothing else. */
    method Set(index: Square, value: Option<Piece>)
      requires Valid()
      modifies squares
      ensures State() == old(State()).(squares := old(State()).squares[index := value])
    {
      squares[index] := value;
    }

    /** Board.IsPathClear: walks from the square after from towards to, one king step at a
        time, and fails on the first occupied square. */
    method IsPathClear(from: Square, to: Square) returns (r: bool)
      requires Valid() && Aligned(from, to)
      ensures r == PathClear(State().squares, from, to)
    {
      var dr, df := Rank(to) - Rank(from), File(to) - File(from);
      var rdiff := Sign(dr);
      var fdiff := Sign(df);
      var rank := Rank(from) + rdiff;
      var file := File(from) + fdiff;
      ghost var k := 1;
      ghost var d: int := Distance(from, to);
      while rank != Rank(to) || file != File(to)
        invariant from == to || 1 <= k <= d
        invariant rank == Rank(from) + Offset(k, dr) && file == File(from) + Offset(k, df)
        invariant from != to ==> forall j :: 0 < j < k ==> squares[Step(from, to, j)] == None
        decreases d - k
      {
        assert from != to && k < d;
        if squares[Position(rank, file)] != None {
          assert Position(rank, file) == Step(from, to, k);
          return false;
        }
        assert Position(rank, file) == Step(from, to, k);
        rank := rank + rdiff;
        file := file + fdiff;
        k := k + 1;
      }
      return true;
    }

    /** Board.IsAttackedByWhite and Board.IsAttackedByBlack, one method for both colours:
        some square holds a piece of that colour which attacks position. */
    method IsAttackedBy(attacker: Color, position: Square) returns (r: bool)
      requires Valid()
      ensures r == AttackedBy(State(), attacker, position)
    {
      for sq := 0 to 64
        invariant forall s: Square :: s < sq ==>
          !(HoldsColor(squares[s], attacker) && Attacks(State(), squares[s].value, s, position))
      {
        if HoldsColor(squares[sq], attacker) && Attacks(State(), squares[sq].value, sq, position) {
          assert HoldsColor(State().squares[sq], attacker);
          return true;
        }
      }
      return false;
    }

    /** Board.WhiteKingInCheck and Board.BlackKingInCheck, one method for both colours: the
        first king of that colour found in square order decides; no king, no check. */
    method KingInCheck(c: Color) returns (r: bool)
      requires Valid()
      ensures r == Rules.KingInCheck(State(), c)
    {
      for sq := 0 to 64
        invariant forall s: Square :: s < sq ==> squares[s] != Some(Piece(King, c))
      {
        if squares[sq] == Some(Piece(King, c)) {
          assert IsFirstKing(State().squares, c, sq);
          KingInCheckAtFirstKing(State(), c, sq);
          r := IsAttackedBy(Opponent(c), sq);
          return;
        }
      }
      NoKingNoCheck(State(), c);
      return false;
    }

    /** Board.IsSideToMovePiece: the square holds a piece whose colour is the colour to move. */
    predicate IsSideToMovePiece(position: Square)
      reads this, squares
      requires Valid()
      ensures IsSideToMovePiece(position) <==>
        squares[position].Some? && (squares[position].value.color == White <==> status.whiteTurn)
    {
      (status.whiteTurn && HoldsColor(squares[position], White)) ||
      (status.BlackTurn() && HoldsColor(squares[position], Black))
    }

    /** Board.GetHashCode: the XOR over occupied squares of the piece key plus the index. */
    method GetHashCode() returns (hash: bv32)
      requires Valid()
      ensures hash == BoardHash(State().squares)
    {
      ghost var s := State().squares;
      hash := 0;
      for sq := 0 to 64
        invariant hash == HashUpTo(s, sq)
      {
        // an empty square's key is 0: XOR-ing it in leaves the hash as it is
        assert s[sq] == squares[sq];
        hash := hash ^ SquareKey(squares[sq], sq);
      }
    }

    /** Board.GetStartingBoard: a new board in the starting position. */
    static method GetStartingBoard() returns (b: Board)
      ensures fresh(b) && fresh(b.squares) && b.Valid()
      ensures IsStartingPosition(b.State())
    {
      var a := new Option<Piece>[64](_ => None);
      PlaceBackRank(a, A8, Black);
      PlacePawns(a, 8, Black);
      PlacePawns(a, 48, White);
      PlaceBackRank(a, A1, White);
      StartingSquaresByRank(a[..]);
      b := new Board(a, StartingStatus());
      assert b.State().squares == StartingSquares();
    }

    /** The eight piece assignments of one back rank in Board.GetStartingBoard: rook,
        knight, bishop, queen, king, bishop, knight, rook from the a-file to the h-file. */
    static method PlaceBackRank(a: array<Option<Piece>>, start: int, c: Color)
      requires a.Length == 64 && (start == A8 || start == A1)
      modifies a
      ensures forall j :: 0 <= j < 8 ==> a[start + j] == Some(Piece(BackRankKind(j), c))
      ensures forall j :: 0 <= j < 64 && !(start <= j < start + 8) ==> a[j] == old(a[j])
    {
      a[start] := Some(Piece(Rook, c));
      a[start + 1] := Some(Piece(Knight, c));
      a[start + 2] := Some(Piece(Bishop, c));
      a[start + 3] := Some(Piece(Queen, c));
      a[start + 4] := Some(Piece(King, c));
      a[start + 5] := Some(Piece(Bishop, c));
      a[start + 6] := Some(Piece(Knight, c));
      a[start + 7] := Some(Piece(Rook, c));
    }

    /** One of the pawn loops of Board.GetStartingBoard: a pawn of colour c on each of the
        eight squares from start on. */
    static method PlacePawns(a: array<Option<Piece>>, start: int, c: Color)
      requires a.Length == 64 && (start == 8 || start == 48)
      modifies a
      ensures forall j :: start <= j < start + 8 ==> a[j] == Some(Piece(Pawn, c))
      ensures forall j :: 0 <= j < 64 && !(start <= j < start + 8) ==> a[j] == old(a[j])
    {
      for sq := start to start + 8
        invariant forall j :: start <= j < sq ==> a[j] == Some(Piece(Pawn, c))
        invariant forall j :: 0 <= j < 64 && !(start <= j < sq) ==> a[j] == old(a[j])
      {
        a[sq] := Some(Piece(Pawn, c));
      }
    }

    /** Board.IsInStartingPosition exactly as written: the loop over the empty middle of
        the board starts at square 17. */
    method IsInStartingPositionAsWritten() returns (r: bool)
      requires Valid()
      ensures r == IsStartingPositionAsWritten(State())
    {
      r := CheckStartingPosition(17);
    }

    /** Board.IsInStartingPosition with the middle loop starting at square 16, the first
        square of rank 2 (a6). */
    method IsInStartingPosition() returns (r: bool)
      requires Valid()
      ensures r == IsStartingPosition(State())
    {
      r := CheckStartingPosition(16);
      assert r == IsStartingPosition(State()) by {
        if r {
          assert forall s: Square :: State().squares[s] == StartingSquares()[s];
        }
      }
    }

    /** The body of Board.IsInStartingPosition, with the first square of its empty-middle
        loop as a parameter. */
    method CheckStartingPosition(middleStart: int) returns (r: bool)
      requires Valid() && 16 <= middleStart <= 17
      ensures r <==> (forall s: Square :: (s != 16 || middleStart == 16) ==> squares[s] == StartingOccupant(s)) &&
                     status == StartingStatus()
    {
      if squares[A8] != Some(Piece(Rook, Black)) || squares[B8] != Some(Piece(Knight, Black)) ||
         squares[C8] != Some(Piece(Bishop, Black)) || squares[D8] != Some(Piece(Queen, Black)) ||
         squares[E8] != Some(Piece(King, Black)) || squares[F8] != Some(Piece(Bishop, Black)) ||
         squares[G8] != Some(Piece(Knight, Black)) || squares[H8] != Some(Piece(Rook, Black))
      {
        return false;
      }
      for sq := 8 to 16
        invariant forall j :: 8 <= j < sq ==> squares[j] == Some(Piece(Pawn, Black))
      {
        if squares[sq] != Some(Piece(Pawn, Black)) {
          return false;
        }
      }
      for sq := middleStart to 48
        invariant forall j :: middleStart <= j < sq ==> squares[j] == None
      {
        if squares[sq] != None {
          return false;
        }
      }
      for sq := 48 to 56
        invariant forall j :: 48 <= j < sq ==> squares[j] == Some(Piece(Pawn, White))
      {
        if squares[sq] != Some(Piece(Pawn, White)) {
          return false;
        }
      }
      if squares[A1] != Some(Piece(Rook, White)) || squares[B1] != Some(Piece(Knight, White)) ||
         squares[C1] != Some(Piece(Bishop, White)) || squares[D1] != Some(Piece(Queen, White)) ||
         squares[E1] != Some(Piece(King, White)) || squares[F1] != Some(Piece(Bishop, White)) ||
         squares[G1] != Some(Piece(Knight, White)) || squares[H1] != Some(Piece(Rook, White))
      {
        return false;
      }
      if status.BlackTurn() ||
         !status.whiteCouldCastleLong || !status.whiteCouldCastleShort ||
         !status.blackCouldCastleLong || !status.blackCouldCastleShort ||
         status.enPassantTarget != None || status.ply != 0 || status.moves != 1
      {
        return false;
      }
      return true;
    }
  }
}
