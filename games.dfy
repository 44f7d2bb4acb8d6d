/** The game state machine of ChessEngine/Logic/Game.cs: the current board, the history
    of moves with a cursor into it, the legal moves of the current position, the
    repetition table and the game status. The events the source raises around each
    change are left out; a handler's veto is the cancelled input of the operation. */
module Games {
  import opened Wrappers
  import opened Pieces
  import opened Positions
  import opened Rules
  import opened Boards
  import opened Moves
  import opened Legality

  datatype GameStatus = Normal | Check | Checkmate | Stalemate | Draw50Move | DrawInsufficientMaterial | DrawRepetition

  /** Game.IsEnded: every status but Normal and Check ends the game. */
  predicate Ended(s: GameStatus) {
    s != Normal && s != Check
  }

  // ---------------------------------------------------------------------------
  // The repetition table (Game.AddHistoryHash, Game.RemoveHistoryHash)

  /** Board hash to the number of times that position occurred. The key is the hash read
      as a number, as in the source's Dictionary<int, int>. */
  type HashTable = map<int, int>

  /** The table key of a board hash. */
  function Key(hash: bv32): int {
    hash as int
  }

  /** How often hash h occurred: 0 when it is not in the table. */
  function Freq(t: HashTable, h: int): int {
    if h in t then t[h] else 0
  }

  /** Every stored frequency is at least 1. */
  ghost predicate Positive(t: HashTable) {
    forall h :: h in t ==> t[h] >= 1
  }

  /** One more occurrence of h: incremented if present, added with 1 otherwise. */
  function AddHash(t: HashTable, h: int): (r: HashTable)
    ensures Freq(r, h) == Freq(t, h) + 1
    ensures forall g :: g != h ==> Freq(r, g) == Freq(t, g)
    ensures Positive(t) ==> Positive(r)
  {
    t[h := if h in t then t[h] + 1 else 1]
  }

  /** One occurrence of h fewer: decremented while above 1, removed otherwise. None when h
      is not in the table, where the source's lookup throws KeyNotFoundException. */
  function RemoveHash(t: HashTable, h: int): (r: Option<HashTable>)
    ensures r.None? <==> h !in t
    ensures r.Some? && Positive(t) ==> Freq(r.value, h) == Freq(t, h) - 1 && Positive(r.value)
    ensures r.Some? ==> forall g :: g != h ==> Freq(r.value, g) == Freq(t, g)
  {
    if h !in t then None
    else if t[h] > 1 then Some(t[h := t[h] - 1])
    else Some(t - {h})
  }

  /** Adding a hash and removing it again restores the table exactly. */
  lemma AddThenRemove(t: HashTable, h: int)
    requires Positive(t)
    ensures RemoveHash(AddHash(t, h), h) == Some(t)
  {
    if h in t {
      assert AddHash(t, h)[h := t[h]] == t;
    } else {
      assert AddHash(t, h) - {h} == t;
    }
  }

  /** Removing a hash and adding it again restores the table exactly. */
  lemma RemoveThenAdd(t: HashTable, h: int)
    requires Positive(t) && h in t
    ensures AddHash(RemoveHash(t, h).value, h) == t
  {
    var r := RemoveHash(t, h).value;
    assert AddHash(r, h) == t;
  }

  // ---------------------------------------------------------------------------
  // Insufficient material (Game.IsDrawInsufficientMaterial)

  predicate KingOrMinor(k: Kind) {
    k == King || k == Knight || k == Bishop
  }

  /** Some square below n holds p. */
  ghost predicate HasBelow(squares: Squares, n: int, p: Piece) {
    exists s: Square :: s < n && squares[s] == Some(p)
  }

  /** At most one square below n holds p. */
  ghost predicate AtMostOneBelow(squares: Squares, n: int, p: Piece) {
    forall s1: Square, s2: Square :: s1 < n && s2 < n && squares[s1] == Some(p) && squares[s2] == Some(p) ==> s1 == s2
  }

  /** Every piece below n is a king, a knight or a bishop. */
  ghost predicate KingsAndMinorsBelow(squares: Squares, n: int) {
    forall s: Square :: s < n && squares[s].Some? ==> KingOrMinor(squares[s].value.kind)
  }

  function Ind(b: bool): int {
    if b then 1 else 0
  }

  /** The material on the board cannot mate: besides the kings there is no piece, one
      knight or one bishop, or one bishop on each side, both on squares of one colour.
      A second knight or bishop of one side, or any pawn, rook or queen, is enough. */
  ghost predicate InsufficientMaterial(squares: Squares) {
    var wn, wb := Piece(Knight, White), Piece(Bishop, White);
    var bn, bb := Piece(Knight, Black), Piece(Bishop, Black);
    KingsAndMinorsBelow(squares, 64) &&
    AtMostOneBelow(squares, 64, wn) && AtMostOneBelow(squares, 64, wb) &&
    AtMostOneBelow(squares, 64, bn) && AtMostOneBelow(squares, 64, bb) &&
    (Ind(HasBelow(squares, 64, wn)) + Ind(HasBelow(squares, 64, wb)) +
     Ind(HasBelow(squares, 64, bn)) + Ind(HasBelow(squares, 64, bb)) <= 1 ||
     (!HasBelow(squares, 64, wn) && !HasBelow(squares, 64, bn) &&
      exists s1: Square, s2: Square :: squares[s1] == Some(wb) && squares[s2] == Some(bb) &&
        IsWhiteSquare(s1) == IsWhiteSquare(s2)))
  }

  /** Kings alone cannot mate. */
  lemma KingsOnlyInsufficient(squares: Squares)
    requires forall s: Square :: squares[s].Some? ==> squares[s].value.kind == King
    ensures InsufficientMaterial(squares)
  {
  }

  /** A pawn, rook or queen anywhere is sufficient material. */
  lemma HeavyPieceSufficient(squares: Squares, s: Square)
    requires squares[s].Some? && !KingOrMinor(squares[s].value.kind)
    ensures !InsufficientMaterial(squares)
  {
  }

  /** Two knights or two bishops of one side are sufficient material. */
  lemma TwoMinorsSufficient(squares: Squares, s1: Square, s2: Square, p: Piece)
    requires p.kind == Knight || p.kind == Bishop
    requires s1 != s2 && squares[s1] == Some(p) && squares[s2] == Some(p)
    ensures !InsufficientMaterial(squares)
  {
    assert !AtMostOneBelow(squares, 64, p);
    assert p == Piece(p.kind, p.color);
    if p.color == White {
      assert p == Piece(Knight, White) || p == Piece(Bishop, White);
    } else {
      assert p == Piece(Knight, Black) || p == Piece(Bishop, Black);
    }
  }

  // ---------------------------------------------------------------------------
  // The status of a game (Game.SetStatus)

  /** The status of the position st with its repetition table t, checked in this order:
      no legal move (checkmate or stalemate), insufficient material, the 50-move rule,
      a position that occurred exactly three times, check. */
  ghost function StatusOf(st: BoardState, noMoves: bool, t: HashTable): GameStatus {
    if noMoves then (if KingInCheck(st, st.status.Mover()) then Checkmate else Stalemate)
    else if InsufficientMaterial(st.squares) then DrawInsufficientMaterial
    else if st.status.ply >= 100 then Draw50Move
    else if 3 in t.Values then DrawRepetition
    else if KingInCheck(st, st.status.Mover()) then Check
    else Normal
  }

  /** The game has ended exactly when there is no legal move, the material is
      insufficient, the ply counter has reached 100, or a position occurred three times. */
  lemma EndedIff(st: BoardState, noMoves: bool, t: HashTable)
    ensures Ended(StatusOf(st, noMoves, t)) <==>
      noMoves || InsufficientMaterial(st.squares) || st.status.ply >= 100 || 3 in t.Values
  {
  }

  /** Checkmate and stalemate are exactly the positions without a legal move, told apart by
      check; Check and Normal are told apart by check too. */
  lemma StatusOfCheck(st: BoardState, noMoves: bool, t: HashTable)
    ensures var s := StatusOf(st, noMoves, t);
      (s == Checkmate || s == Stalemate) <==> noMoves
    ensures var s := StatusOf(st, noMoves, t);
      (s == Checkmate || s == Check) ==> KingInCheck(st, st.status.Mover())
    ensures var s := StatusOf(st, noMoves, t);
      (s == Stalemate || s == Normal) ==> !KingInCheck(st, st.status.Mover())
  {
  }

  // ---------------------------------------------------------------------------
  // Move lists

  /** The (from, to) squares of a list of moves. */
  function Pairs(moves: seq<MoveRef>): (r: seq<(Square, Square)>)
    ensures |r| == |moves|
    ensures forall i :: 0 <= i < |moves| ==> r[i] == (moves[i].From(), moves[i].To())
  {
    if moves == [] then [] else Pairs(moves[..|moves| - 1]) + [(moves[|moves| - 1].From(), moves[|moves| - 1].To())]
  }

  lemma PairsAppend(moves: seq<MoveRef>, m: MoveRef)
    ensures Pairs(moves + [m]) == Pairs(moves) + [(m.From(), m.To())]
  {
    assert (moves + [m])[..|moves|] == moves;
  }

  lemma PairsConcat(moves: seq<MoveRef>, more: seq<MoveRef>)
    ensures Pairs(moves + more) == Pairs(moves) + Pairs(more)
  {
    var r, l := Pairs(moves + more), Pairs(moves) + Pairs(more);
    forall i | 0 <= i < |r|
      ensures r[i] == l[i]
    {
      if i < |moves| {
        assert (moves + more)[i] == moves[i];
      } else {
        assert (moves + more)[i] == more[i - |moves|];
      }
    }
  }

  /** Every object of every move in the list. */
  ghost function ObjectsOf(moves: seq<MoveRef>): set<object> {
    set i, o | 0 <= i < |moves| && o in moves[i].Objects() :: o
  }

  /** A move as the generator leaves it for position st: well formed, able to be made,
      carrying the capture st has on its target square (for a promotion), and describing
      the candidate of its squares in st. */
  ghost predicate GeneratedMove(st: BoardState, m: MoveRef)
    reads m.Objects()
  {
    m.Valid() && m.Makeable() && m.CaptureSet(st) &&
    Candidate(st, m.From(), m.To()).Some? && m.Spec() == Candidate(st, m.From(), m.To()).value
  }

  /** Every move of the list is as the generator leaves it for position st. */
  ghost predicate Generated(st: BoardState, moves: seq<MoveRef>)
    reads ObjectsOf(moves)
  {
    forall i :: 0 <= i < |moves| ==> GeneratedMove(st, moves[i])
  }

  /** Appending a generated move keeps a list generated and adds the move's objects. */
  lemma GeneratedAppend(st: BoardState, moves: seq<MoveRef>, m: MoveRef)
    requires Generated(st, moves) && GeneratedMove(st, m)
    ensures Generated(st, moves + [m])
    ensures ObjectsOf(moves + [m]) == ObjectsOf(moves) + m.Objects()
  {
    GeneratedConcat(st, moves, [m]);
    assert ObjectsOf([m]) == m.Objects() by {
      assert forall o :: o in m.Objects() ==> o in ObjectsOf([m]) by {
        assert [m][0] == m;
      }
    }
  }

  /** Two generated lists make a generated list holding the objects of both. */
  lemma GeneratedConcat(st: BoardState, a: seq<MoveRef>, b: seq<MoveRef>)
    requires Generated(st, a) && Generated(st, b)
    ensures Generated(st, a + b)
    ensures ObjectsOf(a + b) == ObjectsOf(a) + ObjectsOf(b)
  {
    var c := a + b;
    forall i | 0 <= i < |c|
      ensures GeneratedMove(st, c[i])
    {
      if i < |a| {
        assert c[i] == a[i];
      } else {
        assert c[i] == b[i - |a|];
      }
    }
    forall o | o in ObjectsOf(c)
      ensures o in ObjectsOf(a) + ObjectsOf(b)
    {
      var i :| 0 <= i < |c| && o in c[i].Objects();
      if i < |a| {
        assert c[i] == a[i];
      } else {
        assert c[i] == b[i - |a|];
      }
    }
    forall o | o in ObjectsOf(a) + ObjectsOf(b)
      ensures o in ObjectsOf(c)
    {
      if o in ObjectsOf(a) {
        var i :| 0 <= i < |a| && o in a[i].Objects();
        assert c[i] == a[i];
      } else {
        var i :| 0 <= i < |b| && o in b[i].Objects();
        assert c[|a| + i] == b[i];
      }
    }
  }

  /** A board and its squares are never among the objects of moves. */
  lemma BoardNotMoveObject(moves: seq<MoveRef>, b: Board)
    ensures b !in ObjectsOf(moves) && b.squares !in ObjectsOf(moves)
  {
  }

  /** A game, a board and its squares are never among the objects of moves. */
  lemma NoMoveObjects(moves: seq<MoveRef>, g: object, b: Board)
    requires g is Game
    ensures g !in ObjectsOf(moves) && b !in ObjectsOf(moves) && b.squares !in ObjectsOf(moves)
  {
  }

  /** The objects of a suffix of a list are among the objects of the list. */
  lemma ObjectsOfSlice(moves: seq<MoveRef>, lo: nat)
    requires lo <= |moves|
    ensures ObjectsOf(moves[lo..]) <= ObjectsOf(moves)
  {
    forall o | o in ObjectsOf(moves[lo..])
      ensures o in ObjectsOf(moves)
    {
      var i :| 0 <= i < |moves[lo..]| && o in moves[lo..][i].Objects();
      assert moves[lo..][i] == moves[lo + i];
    }
  }

  /** The objects of a move at or after lo are among the objects of the suffix from lo. */
  lemma ObjectsOfLater(moves: seq<MoveRef>, lo: nat, i: nat)
    requires lo <= i < |moves|
    ensures moves[i].Objects() <= ObjectsOf(moves[lo..])
  {
    assert moves[lo..][i - lo] == moves[i];
  }

  /** The promotion moves of a list: the objects GetMove may update. */
  ghost function PromotionsOf(moves: seq<MoveRef>): set<object> {
    set i | 0 <= i < |moves| && moves[i].Promotion? :: moves[i].p
  }

  /** The pieces captured by the first n moves of a list. */
  ghost function CapturesOf(moves: seq<MoveRef>, n: nat): multiset<Piece>
    requires n <= |moves|
    reads ObjectsOf(moves)
  {
    if n == 0 then multiset{}
    else
      assert forall o :: o in moves[n - 1].Objects() ==> o in ObjectsOf(moves);
      CapturesOf(moves, n - 1) + (match moves[n - 1].Capture() case None => multiset{} case Some(p) => multiset{p})
  }

  /** Each move captures at most one piece. */
  lemma {:induction false} CapturesBound(moves: seq<MoveRef>, n: nat)
    requires n <= |moves|
    ensures |CapturesOf(moves, n)| <= n
  {
    if n > 0 {
      CapturesBound(moves, n - 1);
    }
  }

  /** The pieces that stood on the target squares of the first n moves, each in the
      position origins[i] it was made from. */
  ghost function CapturedAt(moves: seq<MoveRef>, origins: seq<BoardState>, n: nat): multiset<Piece>
    requires n <= |moves| && n <= |origins|
  {
    if n == 0 then multiset{}
    else
      CapturedAt(moves, origins, n - 1) +
      (match origins[n - 1].squares[moves[n - 1].To()] case None => multiset{} case Some(p) => multiset{p})
  }

  /** When each move recorded the position it was made from, the captures of the moves
      are exactly the pieces that stood on their target squares. */
  lemma {:induction false} CapturesOfRecorded(moves: seq<MoveRef>, origins: seq<BoardState>, n: nat)
    requires n <= |moves| && n <= |origins|
    requires forall i :: 0 <= i < n ==> moves[i].Valid() && moves[i].Recorded(origins[i])
    ensures CapturesOf(moves, n) == CapturedAt(moves, origins, n)
  {
    if n > 0 {
      CapturesOfRecorded(moves, origins, n - 1);
      RecordedCapture(origins[n - 1], moves[n - 1]);
    }
  }

  /** The moves, repetition table and status kept for board b agree with it: the moves
      are the legal moves of the position, in the order they are generated, and the
      status is the one StatusOf gives. */
  ghost predicate PositionValid(b: Board, moves: seq<MoveRef>, t: HashTable, s: GameStatus)
    reads b, b.squares
  {
    b.Valid() && Positive(t) &&
    (forall i :: 0 <= i < |moves| ==> moves[i].Valid()) &&
    Pairs(moves) == LegalMoves(b.State()) &&
    s == StatusOf(b.State(), |moves| == 0, t)
  }

  /** One to square more of a row of legal moves. */
  lemma RowStep(st: BoardState, from: Square, to: Square, row: seq<MoveRef>, move: Option<MoveRef>)
    requires Pairs(row) == LegalRow(st, from, to)
    requires move.Some? <==> Legal(st, from, to)
    requires move.Some? ==> move.value.From() == from && move.value.To() == to
    ensures Pairs(if move.Some? then row + [move.value] else row) == LegalRow(st, from, to + 1)
  {
    LegalRowStep(st, from, to);
    if move.Some? {
      PairsAppend(row, move.value);
    }
  }

  /** One from square more of the legal-move list: a square of the side to move adds
      its row. */
  lemma UpToStep(st: BoardState, from: Square, moves: seq<MoveRef>, row: seq<MoveRef>)
    requires Pairs(moves) == LegalUpTo(st, from) && SideToMovePiece(st, from)
    requires Pairs(row) == LegalRow(st, from, 64)
    ensures Pairs(moves + row) == LegalUpTo(st, from + 1)
  {
    PairsConcat(moves, row);
  }

  /** One from square more of the legal-move list: any other square adds nothing. */
  lemma UpToSkip(st: BoardState, from: Square, moves: seq<MoveRef>)
    requires Pairs(moves) == LegalUpTo(st, from) && !SideToMovePiece(st, from)
    ensures Pairs(moves) == LegalUpTo(st, from + 1)
  {
    assert LegalUpTo(st, from + 1) == LegalUpTo(st, from) + [];
  }

  /** The loops of Game.GenerateMoves: the legal moves of the position on b, from square
      by from square, each a fresh object as the generator leaves it. */
  method GenerateAll(b: Board) returns (moves: seq<MoveRef>)
    requires b.Valid()
    modifies b, b.squares
    ensures b.Valid() && b.State() == old(b.State())
    ensures Pairs(moves) == LegalMoves(old(b.State()))
    ensures forall i :: 0 <= i < |moves| ==> moves[i].Valid()
    ensures Generated(old(b.State()), moves) && fresh(ObjectsOf(moves))
  {
    ghost var st := b.State();
    moves := [];
    for from := 0 to 64
      invariant b.Valid() && b.State() == st
      invariant Pairs(moves) == LegalUpTo(st, from)
      invariant forall i :: 0 <= i < |moves| ==> moves[i].Valid()
      invariant Generated(st, moves) && fresh(ObjectsOf(moves))
    {
      moves := UpToNext(b, from, st, moves);
    }
  }

  /** One step of the outer loop of Game.GenerateMoves: the moves from square from are
      added when it holds a piece of the side to move. */
  method UpToNext(b: Board, from: Square, ghost st: BoardState, moves: seq<MoveRef>) returns (moves': seq<MoveRef>)
    requires b.Valid() && b.State() == st
    requires Pairs(moves) == LegalUpTo(st, from)
    requires forall i :: 0 <= i < |moves| ==> moves[i].Valid()
    requires Generated(st, moves)
    modifies b, b.squares
    ensures b.Valid() && b.State() == st
    ensures Pairs(moves') == LegalUpTo(st, from + 1)
    ensures forall i :: 0 <= i < |moves'| ==> moves'[i].Valid()
    ensures Generated(st, moves') && fresh(ObjectsOf(moves') - ObjectsOf(moves))
  {
    if b.IsSideToMovePiece(from) {
      assert SideToMovePiece(st, from);
      BoardNotMoveObject(moves, b);
      var row := GenerateRow(b, from);
      UpToStep(st, from, moves, row);
      GeneratedConcat(st, moves, row);
      moves' := moves + row;
    } else {
      assert !SideToMovePiece(st, from);
      UpToSkip(st, from, moves);
      moves' := moves;
    }
  }

  /** The inner loop of Game.GenerateMoves: the legal moves from one square of the side
      to move, to square by to square. The board is made and taken back on and ends as it
      was. */
  method GenerateRow(b: Board, from: Square) returns (row: seq<MoveRef>)
    requires b.Valid() && SideToMovePiece(b.State(), from)
    modifies b, b.squares
    ensures b.Valid() && b.State() == old(b.State())
    ensures Pairs(row) == LegalRow(old(b.State()), from, 64)
    ensures forall i :: 0 <= i < |row| ==> row[i].Valid()
    ensures Generated(old(b.State()), row) && fresh(ObjectsOf(row))
  {
    ghost var st := b.State();
    row := [];
    for to := 0 to 64
      invariant b.Valid() && b.State() == st
      invariant Pairs(row) == LegalRow(st, from, to)
      invariant forall i :: 0 <= i < |row| ==> row[i].Valid()
      invariant Generated(st, row) && fresh(ObjectsOf(row))
    {
      row := RowNext(b, from, to, st, row);
    }
  }

  /** One step of the inner loop of Game.GenerateMoves: the move from from to to is
      generated and, if there is one, added to the row. */
  method RowNext(b: Board, from: Square, to: Square, ghost st: BoardState, row: seq<MoveRef>) returns (row': seq<MoveRef>)
    requires b.Valid() && b.State() == st
    requires Pairs(row) == LegalRow(st, from, to)
    requires Generated(st, row)
    modifies b, b.squares
    ensures b.Valid() && b.State() == st
    ensures Pairs(row') == LegalRow(st, from, to + 1)
    ensures forall i :: 0 <= i < |row'| ==> row'[i].Valid()
    ensures Generated(st, row') && fresh(ObjectsOf(row') - ObjectsOf(row))
  {
    BoardNotMoveObject(row, b);
    var move := GenerateMove(b, from, to);
    RowStep(st, from, to, row, move);
    if move.Some? {
      assert GeneratedMove(st, move.value);
      GeneratedAppend(st, row, move.value);
      row' := row + [move.value];
    } else {
      row' := row;
    }
  }

  /** The Promote handler of Game.Make: a promotion whose type is not set gets the type
      the handler answers, if there is a handler. Any other move is left as it is. */
  method AskPromotionType(mv: MoveRef, handler: Option<Option<Piece>>)
    modifies mv.Objects()
    ensures mv.Promotion? && old(mv.p.promotionPiece).None? && handler.Some? ==>
      mv.p.promotionPiece == ResolvePromotion(mv.p.before, handler.value) &&
      mv.p.capture == old(mv.p.capture) && mv.p.promotedPiece == old(mv.p.promotedPiece)
    ensures !(mv.Promotion? && old(mv.p.promotionPiece).None? && handler.Some?) ==> unchanged(mv.Objects())
  {
    if mv.Promotion? && mv.p.PromotionType() == None && handler.Some? {
      mv.p.SetPromotionType(handler.value);
    }
  }

  datatype MakeOutcome = NullMove | IllegalMove | MakeCancelled | Unresolved | Made

  datatype NavOutcome = AtEnd | Cancelled | Failed | Done

  class Game {
    var board: Board
    var history: seq<MoveRef>
    /** Game._currentBoardIndex: the number of history moves made on the board. */
    var cursor: nat
    var possibleMoves: seq<MoveRef>
    var hashes: HashTable
    var status: GameStatus

    /** The position is current (its moves, repetition table and status agree with the
        board) and the history is in order. */
    ghost predicate Valid()
      reads this, board, board.squares
    {
      PositionValid(board, possibleMoves, hashes, status) && HistoryValid()
    }

    /** The moves in the history are well formed and the cursor is within it. */
    ghost predicate HistoryValid()
      reads this
    {
      cursor <= |history| && forall i :: 0 <= i < |history| ==> history[i].Valid()
    }

    predicate IsLast()
      reads this
    {
      cursor == |history|
    }

    predicate IsFirst()
      reads this
    {
      cursor == 0
    }

    predicate IsEnded()
      reads this
    {
      Ended(status)
    }

    /** The game has ended exactly when the position has no legal move, insufficient
        material, a ply counter of 100 or more, or a hash that occurred three times. */
    lemma IsEndedIff()
      requires Valid()
      ensures IsEnded() <==>
        LegalMoves(board.State()) == [] || InsufficientMaterial(board.State().squares) ||
        board.status.ply >= 100 || 3 in hashes.Values
    {
      EndedIff(board.State(), |possibleMoves| == 0, hashes);
    }

    /** What is left unchanged when an operation does nothing. */
    ghost function Snapshot(): (BoardState, seq<MoveRef>, nat, seq<MoveRef>, HashTable, GameStatus)
      reads this, board, board.squares
      requires board.Valid()
    {
      (board.State(), history, cursor, possibleMoves, hashes, status)
    }

    constructor (b: Board)
      requires b.Valid()
      modifies b, b.squares
      ensures Valid() && board == b && history == [] && cursor == 0
      ensures b.State() == old(b.State())
      ensures hashes == map[Key(BoardHash(b.State().squares)) := 1]
    {
      board := b;
      history := [];
      cursor := 0;
      possibleMoves := [];
      hashes := map[];
      status := Normal;
      new;
      SetCurrentBoard(b);
    }

    /** The CurrentBoard setter: a new game from b. */
    method SetCurrentBoard(b: Board)
      requires b.Valid()
      modifies this, b, b.squares
      ensures Valid() && board == b && history == [] && cursor == 0
      ensures b.State() == old(b.State())
      ensures hashes == map[Key(BoardHash(b.State().squares)) := 1]
    {
      history := [];
      hashes := map[];
      board := b;
      cursor := 0;
      GenerateMoves();
      AddHistoryHash();
      SetStatus();
    }

    /** Game.GenerateMoves: the legal moves of the current position, from square by from
        square and to square by to square, built afresh. */
    method GenerateMoves()
      requires board.Valid()
      modifies this, board, board.squares
      ensures board == old(board) && history == old(history) && cursor == old(cursor)
      ensures hashes == old(hashes) && status == old(status)
      ensures board.State() == old(board.State())
      ensures Pairs(possibleMoves) == LegalMoves(board.State())
      ensures forall i :: 0 <= i < |possibleMoves| ==> possibleMoves[i].Valid()
      ensures Generated(board.State(), possibleMoves) && fresh(ObjectsOf(possibleMoves))
    {
      var moves := GenerateAll(board);
      NoMoveObjects(moves, this, board);
      possibleMoves := moves;
    }

    /** Game.IsCheck: the king of the side to move is in check. */
    method IsCheck() returns (r: bool)
      requires board.Valid()
      ensures r == KingInCheck(board.State(), board.status.Mover())
    {
      if board.status.whiteTurn {
        r := board.KingInCheck(White);
      } else {
        r := board.KingInCheck(Black);
      }
    }

    /** Game.IsDrawInsufficientMaterial: one pass over the squares remembering whether a
        knight or bishop of each side was seen, and the colour of each bishop's square. */
    method IsDrawInsufficientMaterial() returns (r: bool)
      requires board.Valid()
      ensures r == InsufficientMaterial(board.State().squares)
    {
      var wn, wb := Piece(Knight, White), Piece(Bishop, White);
      var bn, bb := Piece(Knight, Black), Piece(Bishop, Black);
      ghost var sq := board.State().squares;
      var N, B, BW, n, b, bw := false, false, false, false, false, false;
      for i := 0 to 64
        invariant Scanned(sq, i, N, B, BW, n, b, bw)
      {
        ghost var N0, B0, BW0, n0, b0, bw0 := N, B, BW, n, b, bw;
        var occupant := board.squares[i];
        assert occupant == sq[i];
        if occupant != None {
          if occupant == Some(wn) {
            if N {
              SecondPiece(sq, i, wn);
              return false;
            }
            N := true;
          } else if occupant == Some(wb) {
            if B {
              SecondPiece(sq, i, wb);
              return false;
            }
            B := true;
            BW := IsWhiteSquare(i);
          } else if occupant == Some(bn) {
            if n {
              SecondPiece(sq, i, bn);
              return false;
            }
            n := true;
          } else if occupant == Some(bb) {
            if b {
              SecondPiece(sq, i, bb);
              return false;
            }
            b := true;
            bw := IsWhiteSquare(i);
          } else if occupant.value.kind != King {
            assert !KingOrMinor(occupant.value.kind) by {
              var c := occupant.value.color;
              assert occupant == Some(Piece(occupant.value.kind, c));
              if c == White {
                assert occupant != Some(Piece(Knight, White)) && occupant != Some(Piece(Bishop, White));
              } else {
                assert occupant != Some(Piece(Knight, Black)) && occupant != Some(Piece(Bishop, Black));
              }
            }
            HeavyPieceSufficient(sq, i);
            return false;
          }
        }
        ScanNext(sq, i, N0, B0, BW0, n0, b0, bw0, N, B, BW, n, b, bw);
      }
      FinalFlags(sq, N, B, BW, n, b, bw);
      if !B && !b && !N && !n {
        return true;
      }
      if (b && !B && !N && !n) || (B && !b && !n && !N) {
        return true;
      }
      if (n && !N && !B && !b) || (N && !n && !b && !B) {
        return true;
      }
      if B && b && !N && !n && bw == BW {
        return true;
      }
      return false;
    }

    /** Game.SetStatus, in the order of StatusOf. */
    method SetStatus()
      requires board.Valid()
      modifies this
      ensures board == old(board) && history == old(history) && cursor == old(cursor)
      ensures possibleMoves == old(possibleMoves) && hashes == old(hashes)
      ensures status == StatusOf(board.State(), |possibleMoves| == 0, hashes)
    {
      if |possibleMoves| == 0 {
        var check := IsCheck();
        status := if check then Checkmate else Stalemate;
        return;
      }
      var insufficient := IsDrawInsufficientMaterial();
      if insufficient {
        status := DrawInsufficientMaterial;
        return;
      }
      if board.status.ply >= 100 {
        status := Draw50Move;
        return;
      }
      if 3 in hashes.Values {
        status := DrawRepetition;
        return;
      }
      var check := IsCheck();
      status := if check then Check else Normal;
    }

    /** Game.GenerateMoves followed by Game.SetStatus, as every step through the game does:
        the moves and status of the current position, which restores Valid. */
    method Refresh()
      requires board.Valid() && Positive(hashes) && HistoryValid()
      modifies this, board, board.squares
      ensures Valid() && board == old(board) && history == old(history) && cursor == old(cursor)
      ensures hashes == old(hashes) && board.State() == old(board.State())
      ensures Generated(board.State(), possibleMoves) && fresh(ObjectsOf(possibleMoves))
    {
      GenerateMoves();
      NoMoveObjects(possibleMoves, this, board);
      SetStatus();
    }

    /** Game.AddHistoryHash: one more occurrence of the current board's hash. */
    method AddHistoryHash()
      requires board.Valid()
      modifies this
      ensures board == old(board) && history == old(history) && cursor == old(cursor)
      ensures possibleMoves == old(possibleMoves) && status == old(status)
      ensures hashes == AddHash(old(hashes), Key(BoardHash(board.State().squares)))
    {
      var code := board.GetHashCode();
      var hash := code as int;
      hashes := hashes[hash := if hash in hashes then hashes[hash] + 1 else 1];
    }

    /** Game.RemoveHistoryHash: one occurrence fewer of the current board's hash; fails,
        changing nothing, when the hash is not in the table. */
    method RemoveHistoryHash() returns (ok: bool)
      requires board.Valid()
      modifies this
      ensures board == old(board) && history == old(history) && cursor == old(cursor)
      ensures possibleMoves == old(possibleMoves) && status == old(status)
      ensures ok <==> Key(BoardHash(board.State().squares)) in old(hashes)
      ensures ok ==> hashes == RemoveHash(old(hashes), Key(BoardHash(board.State().squares))).value
      ensures !ok ==> hashes == old(hashes)
    {
      var code := board.GetHashCode();
      var hash := code as int;
      if hash !in hashes {
        return false;
      }
      var freq := hashes[hash];
      if freq > 1 {
        hashes := hashes[hash := freq - 1];
      } else {
        hashes := hashes - {hash};
      }
      return true;
    }

    /** Game.GetMove: the first legal move from from to to, its promotion type set to t if
        it is a promotion; none if no legal move goes from from to to. */
    method GetMove(from: int, to: int, t: Option<Piece>) returns (m: Option<MoveRef>)
      requires Valid()
      modifies PromotionsOf(possibleMoves)
      ensures Valid()
      ensures m.None? <==> forall i :: 0 <= i < |possibleMoves| ==> Pairs(possibleMoves)[i] != (from, to)
      ensures m.Some? ==>
        (exists i :: 0 <= i < |possibleMoves| && possibleMoves[i] == m.value &&
          Pairs(possibleMoves)[i] == (from, to) && (forall j :: 0 <= j < i ==> Pairs(possibleMoves)[j] != (from, to)))
      ensures m.Some? && m.value.Promotion? ==> m.value.p.promotionPiece == ResolvePromotion(m.value.p.before, t)
      ensures forall i :: 0 <= i < |possibleMoves| && possibleMoves[i].Promotion? ==>
        possibleMoves[i].p.capture == old(possibleMoves[i].p.capture) &&
        possibleMoves[i].p.promotedPiece == old(possibleMoves[i].p.promotedPiece) &&
        (Pairs(possibleMoves)[i] != (from, to) ==> possibleMoves[i].p.promotionPiece == old(possibleMoves[i].p.promotionPiece))
    {
      for i := 0 to |possibleMoves|
        invariant forall j :: 0 <= j < i ==> Pairs(possibleMoves)[j] != (from, to)
        invariant unchanged(PromotionsOf(possibleMoves))
      {
        var move := possibleMoves[i];
        if move.From() == from && move.To() == to {
          assert Pairs(possibleMoves)[i] == (from, to);
          if move.Promotion? {
            assert move.p in PromotionsOf(possibleMoves);
            move.p.SetPromotionType(t);
          }
          return Some(move);
        }
      }
      return None;
    }

    /** The source's test of RepetitiveMoveCandidate: the last three moves repeat, square
        for square, the three moves four plies earlier. */
    predicate RepeatsLastThree()
      reads this
      requires cursor <= |history|
    {
      cursor >= 7 &&
      history[cursor - 1].From() == history[cursor - 5].From() && history[cursor - 1].To() == history[cursor - 5].To() &&
      history[cursor - 2].From() == history[cursor - 6].From() && history[cursor - 2].To() == history[cursor - 6].To() &&
      history[cursor - 3].From() == history[cursor - 7].From() && history[cursor - 3].To() == history[cursor - 7].To()
    }

    /** The squares of the move four plies before the cursor. */
    function FourBack(): (Square, Square)
      reads this
      requires 4 <= cursor <= |history|
    {
      (history[cursor - 4].From(), history[cursor - 4].To())
    }

    /** Game.RepetitiveMoveCandidate: when the last three moves repeat the three moves four
        plies earlier, the legal move that repeats the move four plies back (from which the
        position recurs), with its promotion type cleared. */
    method RepetitiveMoveCandidate() returns (m: Option<MoveRef>)
      requires Valid()
      modifies PromotionsOf(possibleMoves)
      ensures Valid()
      ensures !RepeatsLastThree() ==> m.None?
      ensures RepeatsLastThree() && m.Some? ==>
        (m.value.From(), m.value.To()) == FourBack() &&
        (exists i :: 0 <= i < |possibleMoves| && possibleMoves[i] == m.value &&
          Pairs(possibleMoves)[i] == FourBack() &&
          (forall j :: 0 <= j < i ==> Pairs(possibleMoves)[j] != FourBack()))
      ensures m.Some? && m.value.Promotion? ==> m.value.p.promotionPiece == None
      ensures RepeatsLastThree() && m.None? ==>
        forall i :: 0 <= i < |possibleMoves| ==> Pairs(possibleMoves)[i] != FourBack()
      ensures !RepeatsLastThree() ==> unchanged(PromotionsOf(possibleMoves))
      ensures forall i :: 0 <= i < |possibleMoves| && possibleMoves[i].Promotion? ==>
        possibleMoves[i].p.capture == old(possibleMoves[i].p.capture) &&
        possibleMoves[i].p.promotedPiece == old(possibleMoves[i].p.promotedPiece) &&
        (RepeatsLastThree() && Pairs(possibleMoves)[i] != FourBack() ==>
         possibleMoves[i].p.promotionPiece == old(possibleMoves[i].p.promotionPiece))
    {
      if RepeatsLastThree() {
        var (from, to) := FourBack();
        m := GetMove(from, to, None);
      } else {
        m := None;
      }
    }

    /** Game.Make. A missing move (ArgumentNullException) or one whose squares match no
        legal move (ArgumentException) is refused, and so is a vetoed one: nothing changes.
        Otherwise the history after the cursor is dropped; a promotion without a type asks
        the handler, if there is one; a promotion still without a piece fails
        (InvalidOperationException) with the history already cut; any other move is made,
        its position counted, the moves and status brought up to date, and it is appended
        to the history. */
    method Make(move: Option<MoveRef>, cancelled: bool, handler: Option<Option<Piece>>) returns (outcome: MakeOutcome)
      requires Valid() && (move.Some? ==> move.value.Valid())
      modifies this, board, board.squares, if move.Some? then move.value.Objects() else {}
      ensures Valid() && board == old(board)
      ensures outcome == NullMove <==> move.None?
      ensures outcome == IllegalMove <==>
        (move.Some? &&
         forall i :: 0 <= i < |old(possibleMoves)| ==> old(Pairs(possibleMoves))[i] != (move.value.From(), move.value.To()))
      ensures outcome == MakeCancelled <==> move.Some? && outcome != IllegalMove && cancelled
      ensures outcome in {NullMove, IllegalMove, MakeCancelled} ==> Snapshot() == old(Snapshot())
      ensures move.Some? && outcome in {IllegalMove, MakeCancelled} ==> unchanged(move.value.Objects())
      ensures outcome == Unresolved ==>
        history == old(history[..cursor]) && cursor == old(cursor) && board.State() == old(board.State()) &&
        hashes == old(hashes) && possibleMoves == old(possibleMoves) && status == old(status)
      ensures outcome == Unresolved ==>
        move.value.Promotion? && move.value.p.promotionPiece.None? &&
        move.value.p.capture == old(move.value.p.capture) && move.value.p.promotedPiece == old(move.value.p.promotedPiece)
      ensures outcome == Made ==>
        history == old(history[..cursor]) + [move.value] && IsLast() &&
        board.State() == ApplySpec(old(board.State()), move.value.Spec()) &&
        hashes == AddHash(old(hashes), Key(BoardHash(board.State().squares)))
      ensures (outcome == Made || outcome == Unresolved) ==> (outcome == Made <==> move.value.Makeable())
      ensures outcome == Made && old(move.value.CaptureSet(board.State())) ==> move.value.Recorded(old(board.State()))
      ensures (outcome == Made || outcome == Unresolved) ==>
        (move.value.Promotion? && old(move.value.p.promotionPiece).None? && handler.Some? ==>
         move.value.p.promotionPiece == ResolvePromotion(move.value.p.before, handler.value))
      ensures (outcome == Made || outcome == Unresolved) ==>
        (!(move.value.Promotion? && old(move.value.p.promotionPiece).None? && handler.Some?) ==>
         move.value.Spec() == old(move.value.Spec()))
    {
      if move == None {
        return NullMove;
      }
      var mv := move.value;
      var found := exists i :: 0 <= i < |possibleMoves| && mv.From() == possibleMoves[i].From() && mv.To() == possibleMoves[i].To();
      if !found {
        return IllegalMove;
      }
      ghost var i :| 0 <= i < |possibleMoves| && mv.From() == possibleMoves[i].From() && mv.To() == possibleMoves[i].To();
      assert Pairs(possibleMoves)[i] == (mv.From(), mv.To());
      if cancelled {
        return MakeCancelled;
      }
      var ok := Commit(mv, handler);
      return if ok then Made else Unresolved;
    }

    /** The second half of Game.Make, once the move is found legal and not vetoed: drops
        the history after the cursor, asks the handler for a missing promotion type, and
        makes and records the move. */
    method Commit(mv: MoveRef, handler: Option<Option<Piece>>) returns (ok: bool)
      requires Valid() && mv.Valid()
      modifies this, board, board.squares, mv.Objects()
      ensures Valid() && board == old(board)
      ensures ok <==> mv.Makeable()
      ensures mv.Promotion? && old(mv.p.promotionPiece).None? && handler.Some? ==>
        mv.p.promotionPiece == ResolvePromotion(mv.p.before, handler.value)
      ensures !(mv.Promotion? && old(mv.p.promotionPiece).None? && handler.Some?) ==> mv.Spec() == old(mv.Spec())
      ensures !ok ==>
        history == old(history[..cursor]) && cursor == old(cursor) && board.State() == old(board.State()) &&
        hashes == old(hashes) && possibleMoves == old(possibleMoves) && status == old(status)
      ensures !ok ==>
        mv.Promotion? && mv.p.promotionPiece.None? &&
        mv.p.capture == old(mv.p.capture) && mv.p.promotedPiece == old(mv.p.promotedPiece)
      ensures ok ==>
        history == old(history[..cursor]) + [mv] && IsLast() &&
        board.State() == ApplySpec(old(board.State()), mv.Spec()) &&
        hashes == AddHash(old(hashes), Key(BoardHash(board.State().squares)))
      ensures ok && old(mv.CaptureSet(board.State())) ==> mv.Recorded(old(board.State()))
    {
      DropFuture();
      ghost var snap := Snapshot();
      ghost var captureSet := mv.CaptureSet(board.State());
      AskPromotionType(mv, handler);
      assert Snapshot() == snap;
      assert mv.CaptureSet(board.State()) == captureSet;
      label Asked:
      ok := Record(mv);
      assert old@Asked(mv.Capture()) == old(mv.Capture());
      assert mv.Promotion? ==> old@Asked(mv.p.promotedPiece) == old(mv.p.promotedPiece);
    }

    /** The history's RemoveRange in Game.Make: the moves after the cursor are dropped. */
    method DropFuture()
      requires Valid()
      modifies this
      ensures Valid() && board == old(board) && history == old(history[..cursor]) && IsLast()
      ensures cursor == old(cursor) && possibleMoves == old(possibleMoves)
      ensures hashes == old(hashes) && status == old(status)
    {
      if !IsLast() {
        history := history[..cursor];
      }
    }

    /** The last part of Game.Make: makes the move and, if it could be made, appends it to
        the history, which ends at the cursor. */
    method Record(mv: MoveRef) returns (ok: bool)
      requires Valid() && mv.Valid() && IsLast()
      modifies this, board, board.squares, mv.Objects()
      ensures Valid() && board == old(board)
      ensures ok <==> mv.Makeable()
      ensures mv.Spec() == old(mv.Spec())
      ensures !ok ==> Snapshot() == old(Snapshot()) && unchanged(mv.Objects())
      ensures ok ==>
        history == old(history) + [mv] && IsLast() &&
        board.State() == ApplySpec(old(board.State()), mv.Spec()) &&
        hashes == AddHash(old(hashes), Key(BoardHash(board.State().squares)))
      ensures ok && old(mv.CaptureSet(board.State())) ==> mv.Recorded(old(board.State()))
    {
      ok := Advance(mv);
      if !ok {
        return;
      }
      cursor := cursor + 1;
      history := history + [mv];
    }

    /** The step Game.Make, Game.Next and Game.GoToLast share: makes the move on the board
        and, if it could be made, counts the new position and brings the legal moves and
        the status up to date (GenerateMoves, then SetStatus). A move that cannot be made
        changes nothing. */
    method Advance(move: MoveRef) returns (ok: bool)
      requires Valid() && move.Valid()
      modifies this, board, board.squares, move.Objects()
      ensures Valid() && board == old(board) && history == old(history) && cursor == old(cursor)
      ensures ok <==> old(move.Makeable())
      ensures move.Spec() == old(move.Spec()) && move.Makeable() == old(move.Makeable())
      ensures !ok ==> Snapshot() == old(Snapshot()) && unchanged(move.Objects())
      ensures ok ==>
        board.State() == ApplySpec(old(board.State()), move.Spec()) &&
        hashes == AddHash(old(hashes), Key(BoardHash(board.State().squares)))
      ensures ok && old(move.CaptureSet(board.State())) ==> move.Recorded(old(board.State()))
    {
      ok := MakeMove(move, board);
      if !ok {
        return;
      }
      AddHistoryHash();
      Refresh();
    }

    /** The objects of the moves in the history, which making them again updates. */
    ghost function HistoryObjects(): set<object>
      reads this
    {
      ObjectsOf(history)
    }

    /** Game.Next: unless at the end or vetoed, makes the move at the cursor again. */
    method Next(cancelled: bool) returns (outcome: NavOutcome)
      requires Valid()
      modifies this, board, board.squares, HistoryObjects()
      ensures Valid() && board == old(board) && history == old(history)
      ensures outcome == AtEnd <==> old(IsLast())
      ensures outcome == Cancelled <==> !old(IsLast()) && cancelled
      ensures outcome == Failed <==> !old(IsLast()) && !cancelled && !old(history[cursor].Makeable())
      ensures outcome != Done ==> Snapshot() == old(Snapshot()) && unchanged(old(HistoryObjects()))
      ensures outcome == Done ==> unchanged(old(HistoryObjects() - history[cursor].Objects()))
      ensures outcome == Done ==>
        cursor == old(cursor) + 1 &&
        board.State() == old(ApplySpec(board.State(), history[cursor].Spec())) &&
        hashes == AddHash(old(hashes), Key(BoardHash(board.State().squares)))
      ensures outcome == Done && old(history[cursor].CaptureSet(board.State())) ==>
        history[cursor - 1].Recorded(old(board.State()))
    {
      if IsLast() {
        return AtEnd;
      }
      if cancelled {
        return Cancelled;
      }
      var move := history[cursor];
      assert move.Objects() <= HistoryObjects();
      var ok := Forward(move);
      return if ok then Done else Failed;
    }

    /** The step of Game.Next once it is neither at the end nor vetoed: the move at the
        cursor is made again and, if it could be made, the cursor moves past it. */
    method Forward(move: MoveRef) returns (ok: bool)
      requires Valid() && !IsLast() && move == history[cursor]
      modifies this, board, board.squares, move.Objects()
      ensures Valid() && board == old(board) && history == old(history)
      ensures ok <==> old(move.Makeable())
      ensures move.Spec() == old(move.Spec())
      ensures !ok ==> Snapshot() == old(Snapshot()) && unchanged(move.Objects())
      ensures unchanged(old(HistoryObjects() - move.Objects()))
      ensures ok ==>
        cursor == old(cursor) + 1 &&
        board.State() == ApplySpec(old(board.State()), move.Spec()) &&
        hashes == AddHash(old(hashes), Key(BoardHash(board.State().squares)))
      ensures ok && old(move.CaptureSet(board.State())) ==> move.Recorded(old(board.State()))
    {
      NoMoveObjects(history, this, board);
      ok := Advance(move);
      if ok {
        MovePast();
      }
    }

    /** The cursor moves past a move of the history; nothing else changes. */
    method MovePast()
      requires Valid() && !IsLast()
      modifies this
      ensures Valid() && cursor == old(cursor) + 1
      ensures board == old(board) && history == old(history) && possibleMoves == old(possibleMoves)
      ensures hashes == old(hashes) && status == old(status)
    {
      cursor := cursor + 1;
    }

    /** Game.Previous: unless at the start or vetoed, uncounts the current position and
        takes back the move before the cursor. It fails, changing nothing, if the current
        position is not in the repetition table. */
    method Previous(cancelled: bool) returns (outcome: NavOutcome)
      requires Valid()
      modifies this, board, board.squares
      ensures Valid() && board == old(board) && history == old(history)
      ensures outcome == AtEnd <==> old(IsFirst())
      ensures outcome == Cancelled <==> !old(IsFirst()) && cancelled
      ensures outcome == Failed <==> !old(IsFirst()) && !cancelled && Key(BoardHash(old(board.State()).squares)) !in old(hashes)
      ensures outcome != Done ==> Snapshot() == old(Snapshot())
      ensures outcome == Done ==>
        cursor == old(cursor) - 1 &&
        board.State() == old(history[cursor - 1].Undone(board.State())) &&
        hashes == RemoveHash(old(hashes), Key(BoardHash(old(board.State()).squares))).value
    {
      if IsFirst() {
        return AtEnd;
      }
      if cancelled {
        return Cancelled;
      }
      var move := history[cursor - 1];
      ghost var undone := move.Undone(board.State());
      var ok := RemoveHistoryHash();
      if !ok {
        return Failed;
      }
      assert move.Undone(board.State()) == undone;
      assert HistoryValid() && Positive(hashes);
      ghost var t := hashes;
      TakeBackMove(move, board);
      assert board.State() == undone && HistoryValid() && hashes == t;
      Refresh();
      cursor := cursor - 1;
      return Done;
    }

    /** Game.GoToLast: unless vetoed, makes the moves after the cursor one by one. The
        cursor moves past a move before the move is made, so a move that cannot be made
        stops the walk with the cursor already past it. */
    method GoToLast(cancelled: bool) returns (outcome: NavOutcome)
      requires Valid()
      modifies this, board, board.squares, HistoryObjects()
      ensures Valid() && board == old(board) && history == old(history)
      ensures outcome == Cancelled <==> cancelled
      ensures outcome == Cancelled ==> Snapshot() == old(Snapshot()) && unchanged(old(HistoryObjects()))
      ensures outcome != Cancelled ==> old(cursor) <= cursor
      ensures outcome != Cancelled ==> unchanged(old(HistoryObjects() - ObjectsOf(history[cursor..])))
      ensures outcome == Done ==> IsLast()
      ensures outcome == Cancelled || outcome == Done || outcome == Failed
    {
      if cancelled {
        return Cancelled;
      }
      var ok := Walk();
      return if ok then Done else Failed;
    }

    /** The walk of Game.GoToLast: the moves after the cursor are made one by one until
        the end or until a move cannot be made. Only the moves from the cursor on are
        written. */
    method Walk() returns (ok: bool)
      requires Valid()
      modifies this, board, board.squares, HistoryObjects()
      ensures Valid() && board == old(board) && history == old(history)
      ensures old(cursor) <= cursor
      ensures unchanged(old(HistoryObjects() - ObjectsOf(history[cursor..])))
      ensures ok ==> IsLast()
    {
      ghost var later := ObjectsOf(history[cursor..]);
      ObjectsOfSlice(history, cursor);
      NoMoveObjects(history, this, board);
      ok := true;
      while ok && !IsLast()
        modifies this, board, board.squares, later
        invariant Valid() && board == old(board) && history == old(history)
        invariant old(cursor) <= cursor
        decreases |history| - cursor
      {
        ObjectsOfLater(history, old(cursor), cursor);
        ok := WalkStep();
      }
    }

    /** One step of the walk of Game.GoToLast: the cursor moves past the move at the cursor,
        then the move is made. */
    method WalkStep() returns (ok: bool)
      requires Valid() && !IsLast()
      modifies this, board, board.squares, history[cursor].Objects()
      ensures Valid() && board == old(board) && history == old(history) && cursor == old(cursor) + 1
      ensures ok <==> old(history[cursor].Makeable())
      ensures ok ==>
        board.State() == ApplySpec(old(board.State()), history[cursor - 1].Spec()) &&
        hashes == AddHash(old(hashes), Key(BoardHash(board.State().squares)))
    {
      var move := history[cursor];
      cursor := cursor + 1;
      ok := Advance(move);
    }

    /** Game.GoToFirst: unless vetoed, takes back the moves before the cursor one by one,
        uncounting each position first. A position missing from the repetition table
        stops the walk. */
    method GoToFirst(cancelled: bool) returns (outcome: NavOutcome)
      requires Valid()
      modifies this, board, board.squares
      ensures Valid() && board == old(board) && history == old(history)
      ensures outcome == Cancelled <==> cancelled
      ensures outcome == Cancelled ==> Snapshot() == old(Snapshot())
      ensures outcome != Cancelled ==> cursor <= old(cursor)
      ensures outcome == Done ==> IsFirst()
      ensures outcome == Cancelled || outcome == Done || outcome == Failed
    {
      if cancelled {
        return Cancelled;
      }
      while !IsFirst()
        invariant Valid() && board == old(board) && history == old(history)
        invariant cursor <= old(cursor)
        decreases cursor
      {
        var ok := RemoveHistoryHash();
        if !ok {
          return Failed;
        }
        cursor := cursor - 1;
        TakeBackMove(history[cursor], board);
        Refresh();
      }
      return Done;
    }

    /** Game.GetCapturedPieces: the pieces captured by the moves before the cursor, with
        their multiplicities. */
    method GetCapturedPieces() returns (captures: multiset<Piece>)
      requires Valid()
      ensures captures == CapturesOf(history, cursor)
    {
      captures := multiset{};
      for i := 0 to cursor
        invariant captures == CapturesOf(history, i)
      {
        assert history[i].Objects() <= ObjectsOf(history);
        var capture := history[i].Capture();
        if capture == None {
          continue;
        }
        captures := captures + multiset{capture.value};
      }
    }
  }

  /** What the flags of Game.IsDrawInsufficientMaterial say after the squares below i:
      every piece there is a king or a minor piece; N, B, n and b tell whether exactly one
      white knight, white bishop, black knight or black bishop was seen (none when false);
      BW and bw give the colour of the square of each bishop seen. */
  ghost predicate Scanned(sq: Squares, i: nat, N: bool, B: bool, BW: bool, n: bool, b: bool, bw: bool) {
    var wn, wb := Piece(Knight, White), Piece(Bishop, White);
    var bn, bb := Piece(Knight, Black), Piece(Bishop, Black);
    KingsAndMinorsBelow(sq, i) &&
    N == HasBelow(sq, i, wn) && AtMostOneBelow(sq, i, wn) &&
    B == HasBelow(sq, i, wb) && AtMostOneBelow(sq, i, wb) &&
    n == HasBelow(sq, i, bn) && AtMostOneBelow(sq, i, bn) &&
    b == HasBelow(sq, i, bb) && AtMostOneBelow(sq, i, bb) &&
    (forall s: Square :: s < i && sq[s] == Some(wb) ==> IsWhiteSquare(s) == BW) &&
    (forall s: Square :: s < i && sq[s] == Some(bb) ==> IsWhiteSquare(s) == bw)
  }

  /** One more square of the scan for p. */
  lemma SeenStep(sq: Squares, i: Square, p: Piece, f: bool)
    requires f == HasBelow(sq, i, p) && AtMostOneBelow(sq, i, p)
    requires sq[i] == Some(p) ==> !f
    ensures (f || sq[i] == Some(p)) == HasBelow(sq, i + 1, p) && AtMostOneBelow(sq, i + 1, p)
  {
    if HasBelow(sq, i + 1, p) && sq[i] != Some(p) {
      var s: Square :| s < i + 1 && sq[s] == Some(p);
      assert s < i;
    }
  }

  /** One more square of the scan of Game.IsDrawInsufficientMaterial that does not end it:
      the flags are updated for the piece on square i. */
  lemma ScanNext(sq: Squares, i: Square, N0: bool, B0: bool, BW0: bool, n0: bool, b0: bool, bw0: bool,
                 N: bool, B: bool, BW: bool, n: bool, b: bool, bw: bool)
    requires Scanned(sq, i, N0, B0, BW0, n0, b0, bw0)
    requires sq[i].Some? ==> KingOrMinor(sq[i].value.kind)
    requires sq[i] == Some(Piece(Knight, White)) ==> !N0
    requires sq[i] == Some(Piece(Bishop, White)) ==> !B0
    requires sq[i] == Some(Piece(Knight, Black)) ==> !n0
    requires sq[i] == Some(Piece(Bishop, Black)) ==> !b0
    requires N == (N0 || sq[i] == Some(Piece(Knight, White)))
    requires B == (B0 || sq[i] == Some(Piece(Bishop, White)))
    requires BW == if sq[i] == Some(Piece(Bishop, White)) then IsWhiteSquare(i) else BW0
    requires n == (n0 || sq[i] == Some(Piece(Knight, Black)))
    requires b == (b0 || sq[i] == Some(Piece(Bishop, Black)))
    requires bw == if sq[i] == Some(Piece(Bishop, Black)) then IsWhiteSquare(i) else bw0
    ensures Scanned(sq, i + 1, N, B, BW, n, b, bw)
  {
    SeenStep(sq, i, Piece(Knight, White), N0);
    SeenStep(sq, i, Piece(Bishop, White), B0);
    SeenStep(sq, i, Piece(Knight, Black), n0);
    SeenStep(sq, i, Piece(Bishop, Black), b0);
  }

  /** The flags of Game.IsDrawInsufficientMaterial at the end of its scan decide
      InsufficientMaterial. */
  lemma FinalFlags(squares: Squares, N: bool, B: bool, BW: bool, n: bool, b: bool, bw: bool)
    requires KingsAndMinorsBelow(squares, 64)
    requires N == HasBelow(squares, 64, Piece(Knight, White)) && AtMostOneBelow(squares, 64, Piece(Knight, White))
    requires B == HasBelow(squares, 64, Piece(Bishop, White)) && AtMostOneBelow(squares, 64, Piece(Bishop, White))
    requires n == HasBelow(squares, 64, Piece(Knight, Black)) && AtMostOneBelow(squares, 64, Piece(Knight, Black))
    requires b == HasBelow(squares, 64, Piece(Bishop, Black)) && AtMostOneBelow(squares, 64, Piece(Bishop, Black))
    requires forall s: Square :: squares[s] == Some(Piece(Bishop, White)) ==> IsWhiteSquare(s) == BW
    requires forall s: Square :: squares[s] == Some(Piece(Bishop, Black)) ==> IsWhiteSquare(s) == bw
    ensures InsufficientMaterial(squares) <==>
      (!B && !b && !N && !n) || (b && !B && !N && !n) || (B && !b && !n && !N) ||
      (n && !N && !B && !b) || (N && !n && !b && !B) || (B && b && !N && !n && bw == BW)
  {
    var wb, bb := Piece(Bishop, White), Piece(Bishop, Black);
    if B && b {
      var s1: Square :| s1 < 64 && squares[s1] == Some(wb);
      var s2: Square :| s2 < 64 && squares[s2] == Some(bb);
      assert IsWhiteSquare(s1) == BW && IsWhiteSquare(s2) == bw;
    }
  }

  /** A second square holding p, after one below i, breaks uniqueness. */
  lemma SecondPiece(squares: Squares, i: Square, p: Piece)
    requires p.kind == Knight || p.kind == Bishop
    requires HasBelow(squares, i, p) && squares[i] == Some(p)
    ensures !InsufficientMaterial(squares)
  {
    var s: Square :| s < i && squares[s] == Some(p);
    TwoMinorsSufficient(squares, s, i, p);
  }
}
