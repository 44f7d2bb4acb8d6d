/** The value side of the board (ChessEngine/Models/Pieces/Board.cs): square arithmetic,
    the status record, a board position as a value, the path test, the position hash and
    the starting position. The mutable Board class (module Boards) is specified in terms
    of these definitions. */
module Positions {
  import opened Wrappers
  import opened Pieces

  /** Squares are numbered 0..63 from a8 (0) to h1 (63): rank 0 is Black's back rank. */
  type Square = x: int | 0 <= x < 64

  /** The 64 squares of a board, in square order. */
  type Squares = s: seq<Option<Piece>> | |s| == 64 witness EmptySquares()

  function EmptySquares(): (s: seq<Option<Piece>>)
    ensures |s| == 64 && forall i :: 0 <= i < 64 ==> s[i] == None
  {
    seq(64, _ => None)
  }

  const A8: Square := 0
  const B8: Square := 1
  const C8: Square := 2
  const D8: Square := 3
  const E8: Square := 4
  const F8: Square := 5
  const G8: Square := 6
  const H8: Square := 7
  const A1: Square := 56
  const B1: Square := 57
  const C1: Square := 58
  const D1: Square := 59
  const E1: Square := 60
  const F1: Square := 61
  const G1: Square := 62
  const H1: Square := 63

  /** The BoardStatus struct. BlackTurn is not stored: it is the negation of whiteTurn. */
  datatype BoardStatus = BoardStatus(
    whiteTurn: bool,
    whiteCouldCastleShort: bool,
    whiteCouldCastleLong: bool,
    blackCouldCastleShort: bool,
    blackCouldCastleLong: bool,
    enPassantTarget: Option<int>,
    ply: int,
    moves: int)
  {
    predicate BlackTurn() {
      !whiteTurn
    }

    /** The BlackTurn setter. */
    function WithBlackTurn(value: bool): (r: BoardStatus)
      ensures r.BlackTurn() == value && r.whiteTurn != value
      ensures r.(whiteTurn := whiteTurn) == this
    {
      this.(whiteTurn := !value)
    }

    function Mover(): (c: Color)
      ensures (c == White) == whiteTurn && (c == Black) == BlackTurn()
    {
      if whiteTurn then White else Black
    }
  }

  /** A board position as a value: the squares and the status. */
  datatype BoardState = BoardState(squares: Squares, status: BoardStatus)

  // ---------------------------------------------------------------------------
  // Square arithmetic (Board.Rank, Board.File, Board.Position, Board.IsWhiteSquare)

  function Rank(position: Square): int {
    position / 8
  }

  function File(position: Square): int {
    position % 8
  }

  function Position(rank: int, file: int): int {
    rank * 8 + file
  }

  /** Rank, file and position are mutually inverse on the 8x8 board. */
  lemma RankFileRoundTrip(p: Square)
    ensures 0 <= Rank(p) < 8 && 0 <= File(p) < 8
    ensures Position(Rank(p), File(p)) == p
  {
  }

  lemma PositionRoundTrip(rank: int, file: int)
    requires 0 <= rank < 8 && 0 <= file < 8
    ensures 0 <= Position(rank, file) < 64
    ensures Rank(Position(rank, file)) == rank && File(Position(rank, file)) == file
  {
  }

  /** The source tests the low bit of rank + file with a bitwise and. */
  predicate IsWhiteSquare(position: Square) {
    ((File(position) + Rank(position)) as bv8 & 1) == 0
  }

  lemma {:induction false} IsWhiteSquareParity(p: Square)
    ensures IsWhiteSquare(p) <==> (Rank(p) + File(p)) % 2 == 0
  {
    var n := File(p) + Rank(p);
    assert 0 <= n <= 14;
    LowBitParity(n);
  }

  lemma LowBitParity(n: int)
    requires 0 <= n <= 14
    ensures (n as bv8 & 1) == 0 <==> n % 2 == 0
  {
    if n == 0 { } else if n == 1 { } else if n == 2 { } else if n == 3 { }
    else if n == 4 { } else if n == 5 { } else if n == 6 { } else if n == 7 { }
    else if n == 8 { } else if n == 9 { } else if n == 10 { } else if n == 11 { }
    else if n == 12 { } else if n == 13 { } else { assert n == 14; }
  }

  function Abs(x: int): nat {
    if x < 0 then -x else x
  }

  /** Math.Sign */
  function Sign(x: int): int {
    if x > 0 then 1 else if x < 0 then -1 else 0
  }

  // ---------------------------------------------------------------------------
  // Lines and the path test (Board.IsPathClear)

  /** from and to share a rank, a file or a diagonal: the precondition of IsPathClear. */
  predicate Aligned(from: Square, to: Square) {
    Rank(from) == Rank(to) || File(from) == File(to) ||
    Abs(Rank(to) - Rank(from)) == Abs(File(to) - File(from))
  }

  /** The number of king steps from from to to along their common line. */
  function Distance(from: Square, to: Square): nat {
    var dr, df := Abs(Rank(to) - Rank(from)), Abs(File(to) - File(from));
    if dr < df then df else dr
  }

  /** k steps of size sign(d): k * Math.Sign(d), written without multiplication. */
  function Offset(k: int, d: int): int {
    if d > 0 then k else if d < 0 then -k else 0
  }

  /** The square k steps from from towards to, for 0 <= k <= Distance(from, to). */
  function Step(from: Square, to: Square, k: int): (s: Square)
    requires Aligned(from, to) && 0 <= k <= Distance(from, to)
    ensures Rank(s) == Rank(from) + Offset(k, Rank(to) - Rank(from))
    ensures File(s) == File(from) + Offset(k, File(to) - File(from))
  {
    var r := Rank(from) + Offset(k, Rank(to) - Rank(from));
    var f := File(from) + Offset(k, File(to) - File(from));
    PositionRoundTrip(r, f);
    Position(r, f)
  }

  /** Every square strictly between from and to on their line is empty. */
  predicate PathClear(squares: Squares, from: Square, to: Square)
    requires Aligned(from, to)
  {
    forall k :: 0 < k < Distance(from, to) ==> squares[Step(from, to, k)] == None
  }

  lemma StepEnds(from: Square, to: Square)
    requires Aligned(from, to)
    ensures Step(from, to, 0) == from && Step(from, to, Distance(from, to)) == to
  {
    RankFileRoundTrip(from);
    RankFileRoundTrip(to);
  }

  /** On equal or adjacent squares there is nothing in between. */
  lemma PathClearShort(squares: Squares, from: Square, to: Square)
    requires Aligned(from, to) && Distance(from, to) <= 1
    ensures PathClear(squares, from, to)
  {
  }

  /** The path test does not depend on the direction of travel. */
  lemma {:induction false} PathClearSymmetric(squares: Squares, from: Square, to: Square)
    requires Aligned(from, to)
    ensures Aligned(to, from)
    ensures PathClear(squares, from, to) <==> PathClear(squares, to, from)
  {
    var d := Distance(from, to);
    assert Distance(to, from) == d;
    forall k | 0 < k < d
      ensures Step(from, to, k) == Step(to, from, d - k)
    {
      var a, b := Step(from, to, k), Step(to, from, d - k);
      RankFileRoundTrip(a);
      RankFileRoundTrip(b);
    }
    if PathClear(squares, from, to) {
      forall k | 0 < k < d ensures squares[Step(to, from, k)] == None {
        assert Step(to, from, k) == Step(from, to, d - k);
      }
    }
    if PathClear(squares, to, from) {
      forall k | 0 < k < d ensures squares[Step(from, to, k)] == None {
        assert Step(from, to, k) == Step(to, from, d - k);
      }
    }
  }

  // ---------------------------------------------------------------------------
  // The position hash (Board.GetHashCode)

  /** Piece.GetHashCode is not modelled from its code: these per-piece salts stand in for it.
      No property proved below depends on their values. */
  function PieceCode(p: Piece): bv32 {
    match p
    case Piece(King, White) => 0x0100_0000 case Piece(King, Black) => 0x0200_0000
    case Piece(Queen, White) => 0x0300_0000 case Piece(Queen, Black) => 0x0400_0000
    case Piece(Rook, White) => 0x0500_0000 case Piece(Rook, Black) => 0x0600_0000
    case Piece(Bishop, White) => 0x0700_0000 case Piece(Bishop, Black) => 0x0800_0000
    case Piece(Knight, White) => 0x0900_0000 case Piece(Knight, Black) => 0x0A00_0000
    case Piece(Pawn, White) => 0x0B00_0000 case Piece(Pawn, Black) => 0x0C00_0000
  }

  /** The key of one occupied square: the piece salt plus the square index, with the
      32-bit wrap-around of C#'s unchecked int addition. */
  function SquareKey(occupant: Option<Piece>, index: Square): bv32 {
    match occupant
    case None => 0
    case Some(p) => PieceCode(p) + index as bv32
  }

  /** XOR of the keys of squares 0 .. n-1. */
  function HashUpTo(squares: Squares, n: nat): bv32
    requires n <= 64
  {
    if n == 0 then 0 else HashUpTo(squares, n - 1) ^ SquareKey(squares[n - 1], n - 1)
  }

  /** The hash of a position: it reads the squares only, never the status. */
  function BoardHash(squares: Squares): bv32 {
    HashUpTo(squares, 64)
  }

  lemma {:induction false} EmptyPrefixHash(squares: Squares, n: nat)
    requires n <= 64 && forall i :: 0 <= i < n ==> squares[i] == None
    ensures HashUpTo(squares, n) == 0
  {
    if n > 0 {
      EmptyPrefixHash(squares, n - 1);
    }
  }

  /** An empty board hashes to 0. */
  lemma EmptyBoardHash()
    ensures BoardHash(EmptySquares()) == 0
  {
    EmptyPrefixHash(EmptySquares(), 64);
  }

  lemma {:induction false} HashUpToUpdate(squares: Squares, i: Square, v: Option<Piece>, n: nat)
    requires n <= 64
    ensures HashUpTo(squares[i := v], n) ==
      if i < n then HashUpTo(squares, n) ^ SquareKey(squares[i], i) ^ SquareKey(v, i)
      else HashUpTo(squares, n)
  {
    if n > 0 {
      HashUpToUpdate(squares, i, v, n - 1);
      if i < n - 1 {
        HashStepBefore(squares, i, v, n);
      } else if i == n - 1 {
        HashStepAt(squares, i, v, n);
      } else {
        HashStepAfter(squares, i, v, n);
      }
    }
  }

  lemma HashStepBefore(squares: Squares, i: Square, v: Option<Piece>, n: nat)
    requires 0 < n <= 64 && i < n - 1
    requires HashUpTo(squares[i := v], n - 1) == HashUpTo(squares, n - 1) ^ SquareKey(squares[i], i) ^ SquareKey(v, i)
    ensures HashUpTo(squares[i := v], n) == HashUpTo(squares, n) ^ SquareKey(squares[i], i) ^ SquareKey(v, i)
  {
    var u: Squares := squares[i := v];
    assert u[n - 1] == squares[n - 1];
    XorShuffle(HashUpTo(squares, n - 1), SquareKey(squares[i], i), SquareKey(v, i), SquareKey(squares[n - 1], n - 1));
  }

  lemma HashStepAt(squares: Squares, i: Square, v: Option<Piece>, n: nat)
    requires 0 < n <= 64 && i == n - 1
    requires HashUpTo(squares[i := v], n - 1) == HashUpTo(squares, n - 1)
    ensures HashUpTo(squares[i := v], n) == HashUpTo(squares, n) ^ SquareKey(squares[i], i) ^ SquareKey(v, i)
  {
    var u: Squares := squares[i := v];
    assert u[n - 1] == v;
    XorCancel(HashUpTo(squares, n - 1), SquareKey(squares[i], i), SquareKey(v, i));
  }

  lemma HashStepAfter(squares: Squares, i: Square, v: Option<Piece>, n: nat)
    requires 0 < n <= 64 && n <= i
    requires HashUpTo(squares[i := v], n - 1) == HashUpTo(squares, n - 1)
    ensures HashUpTo(squares[i := v], n) == HashUpTo(squares, n)
  {
    var u: Squares := squares[i := v];
    assert u[n - 1] == squares[n - 1];
  }

  lemma XorShuffle(a: bv32, b: bv32, c: bv32, e: bv32)
    ensures a ^ b ^ c ^ e == a ^ e ^ b ^ c
  {
  }

  lemma XorCancel(a: bv32, b: bv32, c: bv32)
    ensures a ^ c == a ^ b ^ b ^ c
  {
  }

  /** The hash is incremental: changing one square XORs out the old key and XORs in the
      new one. */
  lemma HashUpdate(squares: Squares, i: Square, v: Option<Piece>)
    ensures BoardHash(squares[i := v]) == BoardHash(squares) ^ SquareKey(squares[i], i) ^ SquareKey(v, i)
  {
    HashUpToUpdate(squares, i, v, 64);
  }

  // ---------------------------------------------------------------------------
  // The starting position (Board.GetStartingBoard, Board.IsInStartingPosition)

  /** The pieces of a back rank, file by file from a to h. */
  function BackRankKind(file: int): Kind
    requires 0 <= file < 8
  {
    if file == 0 || file == 7 then Rook
    else if file == 1 || file == 6 then Knight
    else if file == 2 || file == 5 then Bishop
    else if file == 3 then Queen
    else King
  }

  function StartingOccupant(s: Square): Option<Piece> {
    var r, f := Rank(s), File(s);
    if r == 0 then Some(Piece(BackRankKind(f), Black))
    else if r == 1 then Some(Piece(Pawn, Black))
    else if r == 6 then Some(Piece(Pawn, White))
    else if r == 7 then Some(Piece(BackRankKind(f), White))
    else None
  }

  function StartingSquares(): Squares {
    seq(64, s requires 0 <= s < 64 => StartingOccupant(s))
  }

  /** White to move, all four castling rights, no en-passant target, ply 0, move 1. */
  function StartingStatus(): BoardStatus {
    BoardStatus(true, true, true, true, true, None, 0, 1)
  }

  predicate IsStartingPosition(st: BoardState) {
    st.squares == StartingSquares() && st.status == StartingStatus()
  }

  /** What Board.IsInStartingPosition actually tests: the loop over the empty middle
      of the board starts at square 17, so square 16 (a6) is never looked at. */
  predicate IsStartingPositionAsWritten(st: BoardState) {
    (forall s: Square :: s != 16 ==> st.squares[s] == StartingSquares()[s]) &&
    st.status == StartingStatus()
  }

  /** A square sequence laid out rank by rank as Board.GetStartingBoard fills its array is
      the starting position. */
  lemma StartingSquaresByRank(s: seq<Option<Piece>>)
    requires |s| == 64
    requires forall j :: 0 <= j < 8 ==> s[j] == Some(Piece(BackRankKind(j), Black))
    requires forall j :: 8 <= j < 16 ==> s[j] == Some(Piece(Pawn, Black))
    requires forall j :: 16 <= j < 48 ==> s[j] == None
    requires forall j :: 48 <= j < 56 ==> s[j] == Some(Piece(Pawn, White))
    requires forall j :: 56 <= j < 64 ==> s[j] == Some(Piece(BackRankKind(j - 56), White))
    ensures s == StartingSquares()
  {
    forall j | 0 <= j < 64
      ensures s[j] == StartingSquares()[j]
    {
      if j < 8 {
        assert Rank(j) == 0 && File(j) == j;
      } else if j < 16 {
        assert Rank(j) == 1;
      } else if j < 48 {
        assert 2 <= Rank(j) < 6;
      } else if j < 56 {
        assert Rank(j) == 6;
      } else {
        assert Rank(j) == 7 && File(j) == j - 56;
      }
    }
  }

  /** The starting position has every piece where FIDE Article 2 puts it. */
  lemma StartingSquaresContents()
    ensures StartingSquares()[E1] == Some(Piece(King, White)) && StartingSquares()[E8] == Some(Piece(King, Black))
    ensures StartingSquares()[D1] == Some(Piece(Queen, White)) && StartingSquares()[D8] == Some(Piece(Queen, Black))
    ensures StartingSquares()[A1] == Some(Piece(Rook, White)) && StartingSquares()[H1] == Some(Piece(Rook, White))
    ensures StartingSquares()[A8] == Some(Piece(Rook, Black)) && StartingSquares()[H8] == Some(Piece(Rook, Black))
    ensures StartingSquares()[B1] == Some(Piece(Knight, White)) && StartingSquares()[G1] == Some(Piece(Knight, White))
    ensures StartingSquares()[B8] == Some(Piece(Knight, Black)) && StartingSquares()[G8] == Some(Piece(Knight, Black))
    ensures StartingSquares()[C1] == Some(Piece(Bishop, White)) && StartingSquares()[F1] == Some(Piece(Bishop, White))
    ensures StartingSquares()[C8] == Some(Piece(Bishop, Black)) && StartingSquares()[F8] == Some(Piece(Bishop, Black))
    ensures forall s: Square :: 16 <= s < 48 ==> StartingSquares()[s] == None
    ensures forall s: Square :: 48 <= s < 56 ==> StartingSquares()[s] == Some(Piece(Pawn, White))
    ensures forall s: Square :: 8 <= s < 16 ==> StartingSquares()[s] == Some(Piece(Pawn, Black))
  {
  }

  /** The recognition test as written accepts a position that is not the starting one:
      the starting position with a White knight added on a6. */
  lemma StartingCheckMissesA6()
    ensures var st := BoardState(StartingSquares()[16 := Some(Piece(Knight, White))], StartingStatus());
      IsStartingPositionAsWritten(st) && !IsStartingPosition(st)
  {
    var st := BoardState(StartingSquares()[16 := Some(Piece(Knight, White))], StartingStatus());
    assert st.squares[16] != StartingSquares()[16];
  }
}
