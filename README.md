# Chess engine core in Dafny

This project models the core of a C# chess engine:

- **The board.** A class holding a fixed array of 64 squares, numbered from a8 (0) to h1 (63), and a `BoardStatus` record. The record holds:
  - the side to move;
  - the four castling rights;
  - the en-passant target;
  - the ply counter;
  - the move number.
- **Its queries.** The starting position, the path test, the attack and check tests for each side, and the incremental XOR position hash.
- **The reversible move objects.** A plain move, a promotion and castling. Each object is made on the board in place and taken back in place.
- **Move generation and filtering.** Generation of candidate moves, filtered by the test "does the mover's own king stand in check after the move?".
- **The game state machine.** It holds:
  - the current board;
  - the history of moves, with a cursor into it;
  - the list of legal moves;
  - the repetition table, which maps each board hash to a frequency;
  - the game status (normal, check, checkmate, stalemate, and the three kinds of draw).

  It offers making a move, stepping forward and back through the history, and jumping to either end.

The value side lives in these modules:

- `Positions`: square arithmetic, `BoardStatus`, `BoardState`, the path test, the hash and the starting position.
- `Rules`: the movement rules, candidate moves and legality, all as predicates and functions on `BoardState` values.

The imperative side: every object the source updates in place is a Dafny class whose methods are proved against those value definitions.

- `Boards.Board`: the board class.
- `Moves.Move`, `Moves.PromotionMove`, `Moves.CastlingMove`: the move classes.
- `Games.Game`: the game class.
- `Legality`: move generation.

Exceptions the source throws become outcome values:

- `MakeOutcome` and `NavOutcome`;
- a `bool` from `Make` and `RemoveHistoryHash`.

An event handler's veto becomes a `cancelled` parameter. The promotion handler becomes an optional answer.

The main results:

- **Recognised legal moves.** `Legality.GenerateMove` returns a move exactly when it is legal, and leaves the board as it found it. Proving this uses `Moves.MakeTakeBackInverse`, which establishes that taking back a move restores the position it was made from.
- **The legal-move list.** `Games.Game.GenerateMoves` builds exactly the list `Rules.LegalMoves`, in scan order. `Rules.LegalMovesMembers` characterises that list as every legal move of a piece of the side to move.
- **The game invariant.** Every operation of `Games.Game` preserves `Valid()`:
  - the stored legal moves are those of the current position;
  - the status is `StatusOf` of that position and its repetition table;
  - the table holds positive frequencies;
  - the cursor lies within the history.
- **The repetition table.** Its add and remove operations are mutually inverse.
- **Insufficient material.** The one-pass flag scan of `IsDrawInsufficientMaterial` decides exactly the material rule it stands for.
- **The starting-position test.** `IsInStartingPosition` as written overlooks one square (see Findings).

Pieces are values `Piece(kind, color)`; the rationale is under "Left out".

## Model

| member | source | states |
|---|---|---|
| Positions.BoardStatus.WithBlackTurn | ChessEngine/Models/Pieces/Board.cs:436-440 | setting BlackTurn to v makes BlackTurn v and WhiteTurn its negation, and changes no other field |
| Positions.BoardStatus.Mover | ChessEngine/Models/Pieces/Board.cs:431-440 | the colour to move is White exactly when WhiteTurn holds and Black exactly when BlackTurn holds |
| Positions.RankFileRoundTrip | ChessEngine/Models/Pieces/Board.cs:361-386 | rank and file of a square lie in 0..7 and Position(Rank, File) gives the square back |
| Positions.PositionRoundTrip | ChessEngine/Models/Pieces/Board.cs:361-386 | for rank and file in 0..7, Position is a square whose Rank and File are the given ones |
| Positions.IsWhiteSquareParity | ChessEngine/Models/Pieces/Board.cs:393-396 | the bitwise low-bit test on rank + file is the parity of rank + file |
| Positions.Step | ChessEngine/Models/Pieces/Board.cs:244-265 | the k-th square from `from` towards `to` is k signed unit steps away in rank and in file |
| Positions.StepEnds | ChessEngine/Models/Pieces/Board.cs:244-265 | step 0 is the from square and the last step is the to square |
| Positions.PathClearShort | ChessEngine/Models/Pieces/Board.cs:244-265 | equal or adjacent squares always have a clear path |
| Positions.PathClearSymmetric | ChessEngine/Models/Pieces/Board.cs:244-265 | the path test gives the same answer in both directions |
| Positions.EmptyBoardHash | ChessEngine/Models/Pieces/Board.cs:403-420 | an empty board hashes to 0 |
| Positions.HashUpToUpdate | ChessEngine/Models/Pieces/Board.cs:403-420 | changing one square below n XORs the old key out of the partial hash and the new key in; a square at or above n leaves it alone |
| Positions.HashUpdate | ChessEngine/Models/Pieces/Board.cs:403-420 | the hash is incremental: changing one square XORs out its old key and XORs in its new one |
| Positions.StartingSquaresByRank | ChessEngine/Models/Pieces/Board.cs:104-144 | the rank-by-rank assignments of GetStartingBoard produce exactly the starting squares |
| Positions.StartingSquaresContents | ChessEngine/Models/Pieces/Board.cs:104-144 | the starting position has the kings on e1/e8, queens on d1/d8, rooks on a1/h1/a8/h8, knights on b1/g1/b8/g8, bishops on c1/f1/c8/f8, pawns on ranks 2 and 7 and an empty middle |
| Positions.StartingCheckMissesA6 | ChessEngine/Models/Pieces/Board.cs:150-206 | the recognition test as written accepts the starting position with an extra White knight on a6, which is not the starting position |
| Rules.KnightGeometry | ChessEngine/Models/Pieces/White/WhiteKnight.cs:21-28 | a knight move satisfies the base condition and is a (1, 2) or (2, 1) jump |
| Rules.KnightOnlyReadsTarget | ChessEngine/Models/Pieces/White/WhiteKnight.cs:21-28 | the knight test depends on no square but the target: knights jump |
| Rules.KnightJumpSymmetric | ChessEngine/Models/Pieces/White/WhiteKnight.cs:25-27 | the knight's geometric condition is symmetric in from and to |
| Rules.BishopGeometry | ChessEngine/Models/Pieces/Black/BlackBishop.cs:21-27 | a bishop move satisfies the base condition, lies on a diagonal and has a clear path |
| Rules.BishopBlocked | ChessEngine/Models/Pieces/Black/BlackBishop.cs:21-27 | any piece strictly between the two squares of a diagonal blocks the bishop |
| Rules.NoKingNoCheck | ChessEngine/Models/Pieces/Board.cs:317-341 | a side without a king is never in check |
| Rules.FirstKingUnique | ChessEngine/Models/Pieces/Board.cs:317-341 | the first king found in square order is unique |
| Rules.KingInCheckAtFirstKing | ChessEngine/Models/Pieces/Board.cs:317-341 | check is exactly an attack by the other side on the first king found |
| Rules.NextStatus | ChessEngine/Models/Pieces/Board.cs:426-476 | the status after a move: the turn passes, the ply counter restarts on a pawn move or capture and otherwise counts up, a king move clears its side's castling rights, and no right is ever regained |
| Rules.Candidate | ChessEngine/Models/Pieces/White/WhitePiece.cs:21 | a generated candidate starts on an occupied from square, goes to the to square, and has the board's status as its before status |
| Rules.FlaggedRowMembers | ChessEngine/Logic/Game.cs:539-544 | a row lists exactly the flagged to squares below t of its from square |
| Rules.LegalRowStep | ChessEngine/Logic/Game.cs:539-544 | one more to square extends a row by that move exactly when it is legal |
| Rules.LegalRowMembers | ChessEngine/Logic/Game.cs:539-544 | a row holds exactly the legal moves of its from square to squares below t |
| Rules.LegalUpToMembers | ChessEngine/Logic/Game.cs:533-546 | the moves gathered from squares below n are exactly the legal moves of pieces of the side to move standing there |
| Rules.LegalMovesMembers | ChessEngine/Logic/Game.cs:527-547 | the legal-move list contains (from, to) exactly when from holds a piece of the side to move and the move is legal |
| Rules.LegalMovesFromSideToMove | ChessEngine/Logic/Game.cs:527-547 | every listed move starts on a piece of the side to move and is legal |
| Rules.LegalIsPseudoLegal | ChessEngine/Models/Pieces/White/WhitePiece.cs:19-35 | a legal move is one its piece might make, or castling |
| Rules.CastlingClearsRights | ChessEngine/Models/Pieces/Moves/CastlingMove.cs:33-38 | the after status that castling leaves holds neither castling right of the side that castled |
| Boards.Board.constructor | ChessEngine/Models/Pieces/Board.cs:231-235 | the board keeps the caller's array and status |
| Boards.Board.Get | ChessEngine/Models/Pieces/Board.cs:211-213 | the indexer reads the square of the position |
| Boards.Board.Set | ChessEngine/Models/Pieces/Board.cs:214 | the indexer's setter changes that one square and nothing else |
| Boards.Board.IsPathClear | ChessEngine/Models/Pieces/Board.cs:244-265 | the walk returns true exactly when every square strictly between from and to is empty |
| Boards.Board.IsAttackedBy | ChessEngine/Models/Pieces/Board.cs:272-311 | true exactly when some piece of the attacking colour attacks the position |
| Boards.Board.KingInCheck | ChessEngine/Models/Pieces/Board.cs:317-341 | true exactly when the first king of that colour is attacked by the other side; false without a king |
| Boards.Board.IsSideToMovePiece | ChessEngine/Models/Pieces/Board.cs:348-353 | true exactly when the square holds a piece whose colour is the colour to move |
| Boards.Board.GetHashCode | ChessEngine/Models/Pieces/Board.cs:403-420 | the loop's XOR equals the position hash of the squares |
| Boards.Board.GetStartingBoard | ChessEngine/Models/Pieces/Board.cs:104-144 | a fresh board holding the starting position |
| Boards.Board.PlaceBackRank | ChessEngine/Models/Pieces/Board.cs:109-116 | the eight squares of the back rank get rook, knight, bishop, queen, king, bishop, knight, rook of the colour; no other square changes |
| Boards.Board.PlacePawns | ChessEngine/Models/Pieces/Board.cs:118-126 | the eight squares of the pawn rank get pawns of the colour; no other square changes |
| Boards.Board.CheckStartingPosition | ChessEngine/Models/Pieces/Board.cs:150-206 | true exactly when every square from the middle loop's start on holds its starting occupant and the status is the starting status |
| Boards.Board.IsInStartingPositionAsWritten | ChessEngine/Models/Pieces/Board.cs:150-206 | the test as written: every square but a6 is as in the starting position, with the starting status |
| Boards.Board.IsInStartingPosition | ChessEngine/Models/Pieces/Board.cs:150-206 | corrected: true exactly when the board holds the starting position |
| Moves.Move.constructor | ChessEngine/Models/Pieces/Moves/CastlingMove.cs:23-24 | a move records its before and after status and its squares, with no capture |
| Moves.Move.Make | ChessEngine/Models/Pieces/Moves/CastlingMove.cs:37 | the capture records the old target, the piece goes from `from` to `to`, and the after status is set |
| Moves.Move.TakeBack | ChessEngine/Models/Pieces/Moves/CastlingMove.cs:48 | the piece goes back, the capture returns to the target, and the before status is set |
| Moves.ResolvePromotion | ChessEngine/Models/Pieces/Moves/PromotionMove.cs:29-54 | no type clears the piece; a queen, rook, knight or bishop of the colour to move is kept; anything else becomes a queen of that colour |
| Moves.ResolvePromotionIdempotent | ChessEngine/Models/Pieces/Moves/PromotionMove.cs:29-54 | setting the type again to what the setter stored changes nothing |
| Moves.PromotionMove.constructor | ChessEngine/Models/Pieces/Moves/PromotionMove.cs:74-77 | a promotion starts with no capture, no promotion piece and no remembered pawn |
| Moves.PromotionMove.PromotionType | ChessEngine/Models/Pieces/Moves/PromotionMove.cs:28 | the getter is the promotion piece, or none while it is unset |
| Moves.PromotionMove.SetPromotionType | ChessEngine/Models/Pieces/Moves/PromotionMove.cs:29-54 | the setter stores the resolved piece and nothing else |
| Moves.PromotionMove.SetCapture | ChessEngine/Models/Pieces/Moves/PromotionMove.cs:61-64 | the capture is set and nothing else |
| Moves.PromotionMove.Make | ChessEngine/Models/Pieces/Moves/PromotionMove.cs:84-100 | fails, writing nothing, when no piece is set; otherwise puts the piece on `to`, remembers the pawn on `from`, empties `from` and sets the after status |
| Moves.PromotionMove.TakeBack | ChessEngine/Models/Pieces/Moves/PromotionMove.cs:106-111 | restores the before status, the pawn on `from` and the capture on `to` |
| Moves.CastlingMove.constructor | ChessEngine/Models/Pieces/Moves/CastlingMove.cs:23-27 | a castling move is the king's move and the given rook move, two distinct objects |
| Moves.CastlingMove.Make | ChessEngine/Models/Pieces/Moves/CastlingMove.cs:33-38 | the rook is moved, then the king; each records its capture and the king's after status is the final one |
| Moves.CastlingMove.TakeBack | ChessEngine/Models/Pieces/Moves/CastlingMove.cs:44-49 | the rook is taken back, then the king, whose before status is the final one |
| Moves.MakeMove | ChessEngine/Logic/Game.cs:357 | the dispatched Make leaves ApplySpec of the move, succeeds exactly when the move can be made, records what it displaced, and changes nothing when it fails |
| Moves.TakeBackMove | ChessEngine/Logic/Game.cs:440 | the dispatched TakeBack leaves the position the move's Undone gives |
| Moves.PlainInverse | ChessEngine/Models/Pieces/White/WhitePiece.cs:26-28 | a plain move taken back with its capture restores every square |
| Moves.PromotionInverse | ChessEngine/Models/Pieces/Moves/PromotionMove.cs:84-111 | a promotion taken back with the remembered pawn and capture restores every square |
| Moves.CastlingInverse | ChessEngine/Models/Pieces/Moves/CastlingMove.cs:33-49 | castling taken back rook first still restores every square, the four squares being distinct |
| Moves.RecordedCapture | ChessEngine/Models/Pieces/White/WhitePiece.cs:26 | a move that recorded a position has as its capture the piece on its target square there, and once made puts its own piece (or promotion piece) on that square |
| Moves.MakeTakeBackInverse | ChessEngine/Models/Pieces/White/WhitePiece.cs:26-28 | any move made from a position and taken back gives that position back |
| Legality.CanCastleOn | ChessEngine/Models/Pieces/White/WhitePiece.cs:21 | the board test for castling equals the castling rule on the position |
| Legality.BaseGenerateMove | ChessEngine/Models/Pieces/White/WhitePiece.cs:21 | a fresh, well-formed move object is returned exactly when there is a candidate, and it describes that candidate |
| Legality.GenerateMove | ChessEngine/Models/Pieces/White/WhitePiece.cs:19-35 | the board ends as it began, and a move is returned exactly when it is legal; the move is a fresh, well-formed object from `from` to `to` that describes the candidate, can be made and, for a promotion, holds the piece on its target square as its capture |
| Games.AddHash | ChessEngine/Logic/Game.cs:589-595 | the frequency of h goes up by one, all others stay, and positivity is kept |
| Games.RemoveHash | ChessEngine/Logic/Game.cs:600-614 | fails exactly on a missing key; otherwise the frequency of h goes down by one, all others stay, and positivity is kept |
| Games.AddThenRemove | ChessEngine/Logic/Game.cs:589-614 | removing a hash just added restores the table exactly |
| Games.RemoveThenAdd | ChessEngine/Logic/Game.cs:589-614 | adding back a hash just removed restores the table exactly |
| Games.KingsOnlyInsufficient | ChessEngine/Logic/Game.cs:652-747 | bare kings are insufficient material |
| Games.HeavyPieceSufficient | ChessEngine/Logic/Game.cs:652-747 | a pawn, rook or queen anywhere is sufficient material |
| Games.TwoMinorsSufficient | ChessEngine/Logic/Game.cs:652-747 | two knights or two bishops of one side are sufficient material |
| Games.SecondPiece | ChessEngine/Logic/Game.cs:652-747 | meeting a second minor piece already flagged means sufficient material |
| Games.SeenStep | ChessEngine/Logic/Game.cs:652-747 | one square more keeps a "seen once" flag exact |
| Games.ScanNext | ChessEngine/Logic/Game.cs:652-747 | one square more of the scan keeps all six flags exact |
| Games.FinalFlags | ChessEngine/Logic/Game.cs:652-747 | at the end of the scan, the source's four final conditions hold exactly when the material is insufficient |
| Games.EndedIff | ChessEngine/Logic/Game.cs:552-584 | the status ends the game exactly when there is no move, insufficient material, ply of 100 or more, or a frequency of 3 |
| Games.StatusOfCheck | ChessEngine/Logic/Game.cs:552-584 | checkmate or stalemate exactly when there is no move; checkmate and check only in check; stalemate and normal only out of check |
| Games.CapturesBound | ChessEngine/Logic/Game.cs:621-637 | n moves capture at most n pieces |
| Games.RowStep | ChessEngine/Logic/Game.cs:539-544 | one to square more keeps the row equal to the legal row |
| Games.UpToStep | ChessEngine/Logic/Game.cs:536-545 | a square of the side to move adds its legal row to the list |
| Games.UpToSkip | ChessEngine/Logic/Game.cs:536-545 | any other square adds nothing |
| Games.GeneratedAppend | ChessEngine/Logic/Game.cs:543 | adding one generated move to a generated list keeps it generated and adds exactly the move's objects |
| Games.GeneratedConcat | ChessEngine/Logic/Game.cs:536-545 | joining two generated lists gives a generated list whose objects are those of both |
| Games.GenerateAll | ChessEngine/Logic/Game.cs:533-546 | the two loops return exactly the legal moves of the position, in scan order, each move a fresh object that is well formed, can be made, describes the candidate of its squares in the position and, for a promotion, holds the piece on its target square as its capture; the board is as it was |
| Games.UpToNext | ChessEngine/Logic/Game.cs:536-545 | one step of the outer loop: the list grows by the legal row of the square when it holds a piece of the side to move, and by nothing otherwise; the added moves are fresh and generated |
| Games.GenerateRow | ChessEngine/Logic/Game.cs:539-544 | the inner loop returns the legal moves from one square, in square order, each move a fresh object that is well formed, can be made, describes the candidate of its squares in the position and, for a promotion, holds the piece on its target square as its capture; the board is as it was |
| Games.RowNext | ChessEngine/Logic/Game.cs:541-543 | one step of the inner loop: the row grows by the move to the next square exactly when it is legal, the move being fresh and generated, and the board is as it was |
| Games.AskPromotionType | ChessEngine/Logic/Game.cs:351-354 | a promotion without a type gets the handler's answer when there is a handler; any other move is unchanged |
| Games.Game.IsEndedIff | ChessEngine/Logic/Game.cs:229 | in a valid game, IsEnded holds exactly when there is no legal move, the material is insufficient, ply is 100 or more, or a position occurred three times |
| Games.Game.constructor | ChessEngine/Logic/Game.cs:270-277 | a new game on the board: valid, empty history, cursor 0, the table counting the position once |
| Games.Game.SetCurrentBoard | ChessEngine/Logic/Game.cs:242-253 | resets the history and the table and brings moves and status up to date for the new board |
| Games.Game.GenerateMoves | ChessEngine/Logic/Game.cs:527-547 | the list is exactly the legal moves of the position, in scan order, each move a fresh object that is well formed, can be made, describes the candidate of its squares in the position and, for a promotion, holds the piece on its target square as its capture; the board, history, cursor, table and status are unchanged |
| Games.Game.IsCheck | ChessEngine/Logic/Game.cs:643-646 | true exactly when the king of the side to move is in check |
| Games.Game.IsDrawInsufficientMaterial | ChessEngine/Logic/Game.cs:652-747 | the one-pass flag scan returns exactly InsufficientMaterial of the squares |
| Games.Game.SetStatus | ChessEngine/Logic/Game.cs:552-584 | the status becomes StatusOf the position, in the source's order of tests |
| Games.Game.Refresh | ChessEngine/Logic/Game.cs:362-366 | regenerating moves and status restores the game invariant without touching board, history or table; the new moves are fresh and generated for the position |
| Games.Game.AddHistoryHash | ChessEngine/Logic/Game.cs:589-595 | the table becomes AddHash of the current board's hash |
| Games.Game.RemoveHistoryHash | ChessEngine/Logic/Game.cs:600-614 | fails exactly when the hash is missing, changing nothing; otherwise the table becomes RemoveHash of it |
| Games.Game.GetMove | ChessEngine/Logic/Game.cs:287-304 | none exactly when no legal move goes from `from` to `to`; otherwise the first such move, its promotion type set; every other promotion in the list keeps its type, and every promotion keeps its capture and remembered pawn |
| Games.Game.RepetitiveMoveCandidate | ChessEngine/Logic/Game.cs:310-321 | none unless the last three moves repeat those four plies earlier; otherwise the first legal move with the squares of the move four plies back, or none when there is no such move; a promotion returned has its type cleared; no promotion object of the list changes when there is no repetition, and otherwise only a promotion with the squares of the move four plies back can have its type changed, every promotion keeping its capture and remembered pawn |
| Games.Game.Make | ChessEngine/Logic/Game.cs:328-376 | null, illegal and vetoed moves change nothing, the move object included; an unresolvable promotion (no type set and none answered) cuts the history only, its capture and remembered pawn unchanged; otherwise the history is cut, the move appended and made, and the table counts the new position; a promotion whose type is not asked for keeps its Spec, so a piece chosen beforehand is the one placed; a made move records what stood on its squares before it, its capture among them (for a promotion, once its capture is set) |
| Games.Game.Commit | ChessEngine/Logic/Game.cs:344-372 | cuts the history at the cursor, asks the handler, and makes and records the move, or only cuts the history if it cannot be made, which happens only to a promotion without a type and leaves its capture and remembered pawn unchanged; a move whose type is not asked for keeps its Spec; a made move records its capture from the position before it |
| Games.Game.DropFuture | ChessEngine/Logic/Game.cs:345-348 | the history after the cursor is dropped, nothing else changes |
| Games.Game.Record | ChessEngine/Logic/Game.cs:357-372 | a move that can be made is made, counted and appended, and records its capture from the position before it; otherwise nothing changes, the move object included |
| Games.Game.Advance | ChessEngine/Logic/Game.cs:398-407 | a move that can be made leaves ApplySpec of it, counts its position and records its capture from the position before it; otherwise nothing changes, the move object included |
| Games.Game.Forward | ChessEngine/Logic/Game.cs:397-410 | the move at the cursor, made again when it can be, advances the cursor, leaves ApplySpec of it, counts its position and records its capture from the position it was made on; otherwise nothing changes, the move object included; no other history move object changes |
| Games.Game.Next | ChessEngine/Logic/Game.cs:381-415 | at the end or vetoed nothing changes, the history's move objects included; a promotion without a piece is not made and nothing changes; otherwise the move at the cursor is made again and the cursor advances, no other history move object changes, and the move records what stood on its squares before (for a promotion, once its capture is set) |
| Games.Game.Previous | ChessEngine/Logic/Game.cs:420-454 | at the start, vetoed or with the position missing from the table nothing changes; otherwise the position is uncounted, the move is taken back and the cursor goes back |
| Games.Game.GoToLast | ChessEngine/Logic/Game.cs:459-488 | vetoed changes nothing, the history's move objects included; otherwise the cursor only advances, reaches the end unless a move fails, and no move object that belongs only to moves before the starting cursor changes |
| Games.Game.Walk | ChessEngine/Logic/Game.cs:470-483 | the loop makes the moves from the cursor on until the end or a failing move, the cursor never moves back, and only the objects of moves from the starting cursor on are written |
| Games.Game.WalkStep | ChessEngine/Logic/Game.cs:473-482 | the cursor moves past the move at the cursor, which is then made, leaving ApplySpec of it and counting its position exactly when it can be made |
| Games.Game.MovePast | ChessEngine/Logic/Game.cs:410 | the cursor moves past one history move and nothing else changes |
| Games.Game.GoToFirst | ChessEngine/Logic/Game.cs:493-522 | vetoed changes nothing; otherwise the cursor only goes back, and reaches the start unless the table lacks a position |
| Games.Game.GetCapturedPieces | ChessEngine/Logic/Game.cs:621-637 | the multiset of captures of the moves before the cursor |
| Games.CapturesOfRecorded | ChessEngine/Logic/Game.cs:621-637 | when each move recorded the position it was made from, the captures of the moves are exactly the pieces that stood on their target squares in those positions |

## Left out

- **Events.** The events and their argument objects are left out. A handler's veto is the `cancelled` parameter of `Make`, `Next`, `Previous`, `GoToLast` and `GoToFirst`.
- **The promotion handler.** The `Promote` delegate is an optional answer (`handler`) passed to `Make`.
- **HumanVsAI and the other callers** are not part of this model.
- **Reflection.** The source's per-class pieces and reflection-based promotion type are an enumerated (kind, colour). The setter's test for an empty-argument constructor is not modelled: every piece class of the engine has one.
- **The other piece classes.** The base `Piece.GenerateMove`, `BlackPiece`, the King, Queen, Rook and Pawn classes, and the base `Move` class are not modelled from their code. Their behaviour is written after FIDE Article 3, in `Rules.MightMove`, `Rules.CanCastle`, `Rules.Candidate` and `Rules.NextStatus`.
- **En passant capture.** Its move class is not modelled. The model sets the en-passant target but generates no en-passant capture.
- **Piece hash codes.** `Piece.GetHashCode` is not modelled from its code. `Positions.PieceCode` stands in for it with fixed salts.
  - No proved property depends on the salt values.
  - The table key is the hash read as an unsigned number, where the source uses a signed `int`. That reading is a bijection, so no frequency differs.
- **The queen preset.** A generated promotion has a queen of the side to move preset. This keeps the king-safety test's `Make` from throwing during generation.
- **Games.Game.Make: games that have ended.** Like the source, it does not refuse moves once the game has ended, because the source has no such guard.
- **Games.Game.Make: the move's well-formedness.** It requires the move to be well formed, that is, two distinct squares and, for castling, four distinct squares. Every move the engine generates is.
- **Games.Game.SetStatus: repetition is "exactly three".** The status is a draw by repetition only while some frequency is exactly 3, as the source's `ContainsValue(3)` tests. A position seen a fourth time is therefore no longer reported as a repetition.
- **Games.Game.GoToLast** does not state the final position. It states only that the cursor never moves back, that it reaches the end unless a move fails, and that the invariant is kept. A stronger ensures would need a replay invariant: that the history moves made in sequence reproduce the positions they were first made on.
- **Games.Game.GoToFirst** is weaker in the same way. It states only that the cursor never moves forward, that it reaches the start unless the table lacks a position, and that the invariant is kept.
- **Games.Game.GoToLast: moves after a failing one.** When a move cannot be made, the walk stops. The contract does not state that the moves after it, which the walk never reached, are unchanged. It states only that no move object that belongs only to moves before the starting cursor changes. A per-step frame over move objects that several history entries may share is beyond the proof budget of this model.
- **Games.Game.GetCapturedPieces: no history-wide promise.** It states the captures of the history's moves, not that each of them is the piece its move took in the game. That would need an invariant that every history move recorded the position it was made on. The model does not keep one, because `Make` accepts any move object matching a legal move, so one object can sit twice in the history or be made again from another position. Instead, `Make`, `Next` and `Forward` state that the move they make records its position, and `Games.CapturesOfRecorded` turns such records into the pieces taken.
- **Games.Game.Valid: the list of moves as generated.** The game invariant states that the list of moves is exactly the legal moves of the position. It does not state that the move objects are still as `GenerateMoves` left them, because `GetMove` and `RepetitiveMoveCandidate` rewrite the promotion types of the list's moves and the invariant reads only the game and its board. `GenerateMoves`, `GenerateAll` and `Refresh` state it instead, for the list they build.
- **Games.Game.constructor and Games.Game.SetCurrentBoard** state that the list of moves is the legal moves of the new position, not that its objects are fresh and generated. Carrying those facts through the hash and status updates that follow is beyond the proof budget of this model.
- **Games.Game.GetCapturedPieces** returns a multiset of pieces. The source returns a dictionary from piece class to frequency, which is the same information.
- **Exceptions.** Every throw of the source is an outcome value:
  - a missing move is `NullMove`;
  - a move matching no legal move is `IllegalMove`;
  - a promotion that cannot be made is `Unresolved`;
  - a hash missing from the table is `Failed`.

  Where the source has already changed state before it throws, the model makes exactly those changes: `Make` cuts the history, and `GoToLast` advances the cursor for the move that fails.

## Findings

| source | as written | input that shows it | evidently intended | confidence | as-written member | corrected member |
|---|---|---|---|---|---|---|
| ChessEngine/Models/Pieces/Board.cs:150-206 | the loop over the empty middle of the board starts at square 17, so square 16 (a6) is never examined | the starting position with a White knight added on a6 is reported as the starting position | the loop starts at square 16, the first square of rank 6 | not executed | Boards.Board.IsInStartingPositionAsWritten (with Positions.StartingCheckMissesA6) | Boards.Board.IsInStartingPosition |
