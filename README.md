# chess_engine rules core in Dafny

This project models the rules core of the chess_engine repository and proves properties of the model. The repository has two generations of the core, and both are modelled.

**The C++ generation** works on one position:
- a board of 64 coloured pieces, stored row-major with row 0 as rank 8;
- the side to move;
- a castling mask per colour (`KING_SIDE`, `QUEEN_SIDE`);
- the en-passant target square;
- the half-move clock and the full-move number;
- the game-over flag;
- the per-colour occupied-square sets;
- the Zobrist hash;
- the history of `MoveContext` snapshots with its cursor.

Its modules:
- `Types` holds the value types and the piece/character codec.
- `BoardState` holds the position as a value: every rule of the game is a function of that value.
- `Positions.Position` is the mutable aggregate. It holds the board `array`, the fields, the square sets, the hash and the history. Its methods are proved against the value functions.
- `Fen` holds the FEN records that `loadFEN` reads and `getFEN` writes, following section 16.1 of the PGN Standard (1994).
- `Zobrist` holds the hash.
- `Movement` and `Legality` hold the rules of `MovementValidator` and the attack, check, checkmate and stalemate queries of `CheckScanner`. `Validation` holds those same rules as methods over a `Position`. That includes the self-check probe, which makes a move and takes it back, and the loops of `getLegalMoves` and `areThereLegalMoves`.
- `MoveRules` and `MoveMaker` hold `MoveMaker`'s board moves, its clocks, and undo and redo over the history.
- `ChessBoards` holds the validating `makeMove` and the game-over queries.
- `MoveParsers` holds the lower-case algebraic strings of `getMoveSANPairs`, with the disambiguation of section 8.2.3 of the PGN Standard, and `moveStringToMove`.
- `Material`, `GameTrees`, `Engines` (src/engine.cpp) and `ChessEngines` (src/chess_engine.cpp) hold the two engines:
  - the material evaluation;
  - negamax, with alpha-beta pruning in `engine.cpp`;
  - the minimax root.

Each search is proved to compute a score on an explicit game tree built from the position. The tree lemmas in `GameTrees` say what that score means: alpha-beta agrees with plain negamax, negamax agrees with minimax, and the root picks the first best move.

The source has two APIs for this generation: files written against `ChessBoard` and files written against `Position`. In this model they share the one state of `Positions.Position`.
- `ChessBoard::loadFEN` and `ChessBoard::getFEN` (src/chess_board.cpp:26-132) do what `Position::loadFEN` and `Position::getFEN` do, except that `ChessBoard::loadFEN` does not set the hash or the square sets. `Positions.Position.LoadFen` and `Positions.Position.GetFen` model all four.
- `ChessBoard`'s `undoMove`, `redoMove`, `movePiece` and `unmovePiece` (src/chess_board.cpp:166-192) only hand over to `MoveMaker`. They are the `MoveMaker` methods.

The recursion `isSquareInCheck` → `isValidPieceMovement` → `isValidKingMovement` (castling) → `isSquareInCheck` is cut by a flag, `castling`. An attack query made while testing a castling never considers castling itself. `Movement.CastlingFlagIrrelevant` proves that the flag does not change the answer of an attack query.

The source indexes an array out of the board in a few places, which is undefined behaviour in C++. The model reads such a square as `NO_Piece` and drops such a write.

**The Java generation** has these parts:
- `JavaMoves`: the coordinate-checked `Move`.
- `JavaRules` and `JavaRuleLemmas`: the rules of `Board` as functions of a board value. Its pieces are integer codes whose sign is the colour, in a grid indexed `[col][row]`.
- `JavaBoards.Board`: the class with its `array2` position, proved against those functions.
- `JavaScanRules` and `JavaScanners.CheckScanner`: the attack scans, each tied to a reference definition of the attack. The scanner records the checking piece and any double check.
- `JavaBoardLists.BoardList`: the list of games.
- `JavaPieces`: the GUI piece classes of `model/pieces`. They ask an occupancy function for the board, because the board they sit on is not part of these sources.

`Board` and `CheckScanner` are modelled as the code is written, including four of the five Java rows of "## Findings" (Findings 4, 5, 6 and 8, counting the table's rows from 1). For those four, the as-written member is the one the classes use, and the corrected member sits beside it with the intended property proved.

The fifth, Finding 7, is in `isLegalBishopMove`, whose as-written scan indexes off the board and throws. There, `JavaBoards.Board.IsLegalBishopMove` uses the guarded rule. `JavaRuleLemmas.BishopRuleGuarded` proves that on every diagonal move the guarded rule gives the as-written answer, and that it never throws. Off the diagonals both rules reject the move, except where the as-written scan throws.

## Model

| member | source | states |
|---|---|---|
| Types.ColorCode | include/types.h:14 | the three colours have the distinct codes WHITE = 1, BLACK = -1, NONE = 0 |
| Types.PieceCode | include/types.h:4-12 | piece codes lie in 0..6 and only EMPTY has code 0 |
| Types.CastlingBitsDistinct | include/types.h:38-42 | KING_SIDE and QUEEN_SIDE are distinct non-zero single bits, their union is 3 and NO_CASTLING is 0 |
| Types.PlainMove | include/types.h:55-58 | a move built from two squares carries the default promotion piece NO_Piece |
| Types.MoveEquality | include/types.h:60-65 | two moves are equal exactly when from, to and promotion piece agree, so the same squares with different promotions are different moves |
| Types.CharOfPieceRoundTrip | src/types.cpp:5-54 | decoding the character of any of the twelve real pieces gives that piece back |
| Types.PieceOfCharRoundTrip | src/types.cpp:5-54 | encoding the piece decoded from any letter of "PNBRQKpnbrqk" gives the letter back, and that piece is real |
| Types.PieceCharCase | src/types.cpp:5-23 | EMPTY prints as '.', white pieces as upper-case and other pieces as lower-case letters of "PNBRQKpnbrqk" |
| Types.CharDecoding | src/types.cpp:25-54 | exactly the characters outside "PNBRQKpnbrqk" decode to (NONE, EMPTY); every decoded value is well formed |
| Types.MoveStringDecodes | src/types.cpp:56-68 | an on-board move prints as four characters file, rank, file, rank that read back as its two squares, and the promotion piece does not change the string |
| Types.ContainsMove | src/types.cpp:70-77 | the search returns true exactly when a structurally equal move is in the list |
| Types.TensorIndexDecodes | src/types.cpp:81-84 | in range, tensorIndex lies below 18 * 64 and plane, row and column can be recovered from it |
| Types.TensorIndexInjective | src/types.cpp:81-84 | in range, tensorIndex is injective |
| Types.ToLower | src/move_parser.cpp:15-17 | std::tolower shifts 'A'..'Z' by 32 and leaves every other character alone |
| Types.LowerString | src/move_parser.cpp:15-17 | lower-casing keeps the length and lowers each character in place |
| BoardState.IndexInjective | src/position.cpp:280 | the row-major square index row * 8 + col tells on-board squares apart |
| BoardState.SquareAt | src/position.cpp:280 | every index 0..63 is the index of exactly the on-board square it decodes to |
| BoardState.Set | src/position.cpp:183-184 | a board write changes the written square to the new piece and no other square, and no other field |
| BoardState.BoardExtensionality | src/position.cpp:179-181 | two positions whose squares all read alike have the same board |
| BoardState.SideToMove | src/position.cpp:62 | the colour to move is WHITE exactly when it is white's turn, and is never NONE |
| BoardState.WithCastle | src/position.cpp:375-385 | setCastleState changes the mask of the given colour only; WHITE selects white's mask and every other colour black's |
| BoardState.CapturedPiece | src/position.cpp:219-228 | the captured piece is the destination's, except for en passant, where it is the piece one row behind the destination (+1 row for a white mover, -1 for black) |
| BoardState.CastlingRightsIndex | src/position.cpp:335-346 | the index lies in 0..15 |
| BoardState.CastlingRightsIndexInjective | src/position.cpp:335-346 | two masks pairs give the same index exactly when they grant the same four rights |
| BoardState.ContextOf | src/position.cpp:200-217 | the context records the move, what it captures, the en-passant and castling flags, and the previous en passant, castling masks, clocks, turn, game-over flag and hash |
| BoardState.ContextEquality | include/move_maker.h:27-39 | contexts are equal exactly when every recorded field is, so contexts whose moves differ only in the promotion piece are unequal |
| BoardState.SquaresBelowStep | src/position.cpp:149-163 | taking one more square in row-major order adds it to a colour's set exactly when it holds a piece of that colour |
| BoardState.SquareAtIndex | src/position.cpp:280 | decoding a square's index gives the square back |
| BoardState.SquaresBelowMembership | src/position.cpp:149-163 | a square is among those collected from the first n exactly when it is on the board, comes before n and holds a piece of that colour |
| BoardState.SquaresOfMembership | src/position.cpp:149-163 | a colour's square set holds exactly the on-board squares with pieces of that colour |
| BoardState.SquaresAfterSet | src/position.cpp:183-198 | after writing cp on s, s is in the set of cp's colour and in no other colour's set; for an empty cp it is in neither; no other square's membership changes |
| Positions.Position.constructor | src/position.cpp:11-19 | a new position holds the start record, empty history at cursor 0, the game not over, a hash equal to the recomputed one and square sets in step with the board |
| Positions.Position.GetPiece | src/position.cpp:179-181 | returns the piece on the square |
| Positions.Position.IsEmpty | src/chess_board.cpp:204-206 | true exactly when the square holds NO_Piece |
| Positions.Position.AddPieceSquare | src/position.cpp:348-354 | inserts the square into the WHITE or BLACK set; NONE changes neither |
| Positions.Position.RemovePieceSquare | src/position.cpp:356-362 | erases the square from the WHITE or BLACK set; NONE changes neither |
| Positions.Position.SetPiece | src/position.cpp:183-198 | writes the square, puts it into the set of the piece's colour and out of the other (out of both for an empty piece), and keeps the sets in step with the board |
| Positions.Position.LoadPiecesSquares | src/position.cpp:149-163 | afterwards each colour's set is exactly the squares holding that colour's pieces |
| Positions.Position.PieceKeys | src/position.cpp:274-284 | XORs the piece key of every occupied square, in row-major order |
| Positions.Position.InitZobristHash | src/position.cpp:273-294 | the hash is the XOR of the occupied squares' piece keys, the side key iff White is to move, the castling-index key and the en-passant file key iff a target is set |
| Positions.Position.ClearMoveHistory | include/move_maker.h:53-56 | empties the history and sets the cursor to 0 |
| Positions.Position.SetEnPassantSquare | src/position.cpp:364-365 | sets the en-passant target |
| Positions.Position.ClearBoard | src/position.cpp:37-41 | every square becomes NO_Piece |
| Positions.Position.ScanPlacement | src/position.cpp:49-60 | the placement loop leaves the board that the FEN placement reading defines |
| Positions.Position.ReadRecord | src/position.cpp:36-93 | the board, turn, castling masks, en-passant target and clocks become those of the parsed record; history is cleared |
| Positions.Position.LoadFen | src/position.cpp:36-97 | the position becomes the parsed record, history is empty at cursor 0, the game-over flag is untouched, the hash is recomputed and the square sets are rebuilt |
| Positions.Position.RowText | src/position.cpp:101-116 | one row's text: pieces as letters, each run of empty squares as its count |
| Positions.Position.PlacementText | src/position.cpp:101-120 | the eight rows' texts joined by '/' |
| Positions.Position.GetFen | src/position.cpp:99-147 | the FEN record of the position: placement, side, castling letters or '-', en-passant square or '-', the two clocks |
| Positions.Position.GetCapturedPiece | src/position.cpp:219-228 | the captured piece as BoardState.CapturedPiece defines it |
| Positions.Position.IsEnPassantMove | src/position.cpp:230-235 | true exactly when the mover is a pawn landing on the en-passant target |
| Positions.Position.IsCastlingMove | src/position.cpp:237-244 | true exactly when the mover is a king travelling two columns |
| Positions.Position.GetMoveContext | src/position.cpp:200-217 | the context of the move taken from the current position and hash, without changing anything |
| Positions.Position.ChangeTurn | src/position.cpp:260-262 | flips the side to move and changes nothing else |
| Positions.Position.SetCastleState | src/position.cpp:375-385 | replaces the castling mask of the given colour, Black's for any colour but WHITE |
| Fen.WordLength | src/position.cpp:46-47 | the leading run of non-space characters: none of its characters is a space and the next one is |
| Fen.TokensOfJoin | src/position.cpp:46-47 | extracting whitespace-separated words from non-empty space-free words joined by single spaces gives the words back |
| Fen.IntStringParses | src/position.cpp:46-47 | reading back a printed integer, as `>> int` reads `<< int`, gives the integer |
| Fen.NatStringValue | src/position.cpp:144 | the decimal digits printed for n have value n |
| Fen.IntString | src/position.cpp:144 | a printed integer is a non-empty space-free word |
| Fen.Put | src/position.cpp:57 | a board write changes exactly the written square |
| Fen.ScanAppend | src/position.cpp:50-60 | scanning x then y is scanning x + y: the placement loop works character by character |
| Fen.EmptyGrid | src/position.cpp:37-41 | every square holds NO_COLORED_PIECE |
| Fen.RightsIn | src/position.cpp:64-81 | the king-side bit is set iff the king-side letter occurs, the queen-side bit iff the queen-side letter occurs, and no other bit |
| Fen.RightsStep | src/position.cpp:66-81 | one more character of the castling field ORs in its right, or leaves the mask alone for any other character |
| Fen.ParseEnPassant | src/position.cpp:83-89 | "-" gives the unset square; anything else is read as file and rank from its first two characters |
| Fen.Loaded | src/position.cpp:62-92 | the position takes every field of the record and keeps its game-over flag |
| Fen.RowFromStep | src/position.cpp:103-113 | an empty square extends the pending run; a piece writes the pending count, then its letter |
| Fen.BoardFromStep | src/position.cpp:101-120 | each row's text is followed by '/' unless it is the last row |
| Fen.CastlingString | src/position.cpp:125-134 | the castling field is a word when the masks hold only the castling bits |
| Fen.CastlingLetters | src/position.cpp:125-134 | each of K, Q, k, q occurs exactly when its right is held |
| Fen.EnPassantString | src/position.cpp:136-142 | the en-passant field is a word for the unset square and for every square on the board |
| Fen.SideString | src/position.cpp:124 | the side field is "w" exactly when White is to move |
| Fen.RowChars | src/position.cpp:101-116 | a printed row holds only digits 1..8 and piece letters |
| Fen.RowScans | src/position.cpp:50-60 | scanning a printed row writes exactly that row's pieces and leaves the cursor at column 8 |
| Fen.BoardScans | src/position.cpp:50-60 | scanning printed rows r..7 from row r fills exactly those rows |
| Fen.BoardFromChars | src/position.cpp:101-120 | the placement field contains no space and is not empty |
| Fen.PlacementRoundTrip | src/position.cpp:37-60 | reading back the placement field of a board of valid pieces gives the board |
| Fen.CastlingRoundTrip | src/position.cpp:64-81 | reading back the castling field gives both masks |
| Fen.EnPassantRoundTrip | src/position.cpp:83-89 | reading back the en-passant field gives the square |
| Fen.ParseOfParts | src/position.cpp:42-47 | loadFEN of six words joined by spaces reads each field from its word |
| Fen.FenRoundTrip | src/position.cpp:36-147 | loadFEN of the getFEN record of a printable position gives back every field loadFEN sets |
| Movement.Sign | src/movement_validator.cpp:155-156 | the step direction of a rook move: 1, -1 or 0 exactly as the difference is positive, negative or zero |
| Movement.KingSquareFrom | src/check_scanner.cpp:17-32 | the first square from index i on holding c's king, or {-1,-1} exactly when there is none |
| Movement.KingSquare | src/check_scanner.cpp:17-32 | getKingSquare: {-1,-1} exactly when no square holds c's king; otherwise a square holding it with none before it in row-major order |
| Movement.AttackFlagIrrelevant | src/movement_validator.cpp:186-221 | an attack from one square onto an occupied square, or onto a row whose column 4 holds a c piece, is the same whether or not castling is looked at |
| Movement.CastlingFlagIrrelevant | src/check_scanner.cpp:66-81 | cutting the isSquareInCheck / isValidKingMovement recursion changes none of the attack queries the rules make |
| Validation.PathIsClear | src/movement_validator.cpp:136-142 | true exactly when every square strictly between the start and the steps-th square is empty |
| Validation.IsValidBishopMovement | src/movement_validator.cpp:124-145 | equals the bishop rule: equal distances and a clear diagonal |
| Validation.IsValidRookMovement | src/movement_validator.cpp:147-168 | equals the rook rule: one line and a clear path |
| Validation.IsValidQueenMovement | src/movement_validator.cpp:170-178 | equals the rook rule or the bishop rule |
| Validation.CastlePathIsSafe | src/movement_validator.cpp:197-216 | true exactly when each square of the castling path is neither attacked nor occupied |
| Validation.IsValidKingMovement | src/movement_validator.cpp:180-227 | equals the king rule: castling from column 4 with the king unattacked, the right held and a safe path, else a one-square step |
| Validation.IsValidPieceMovement | src/movement_validator.cpp:49-68 | false for a null move, otherwise the rule of the piece kind |
| Validation.AttacksFromSquare | src/check_scanner.cpp:69-77 | true exactly when the square holds a piece of the other colour whose rule reaches the target |
| Validation.IsSquareInCheck | src/check_scanner.cpp:66-81 | true exactly when some square holds such a piece |
| Validation.GetKingSquare | src/check_scanner.cpp:17-32 | returns the first square holding c's king in row-major order, or {-1,-1} |
| Validation.FirstKing | src/check_scanner.cpp:17-32 | a king square with no such square before it is the one getKingSquare returns |
| Validation.NoKing | src/check_scanner.cpp:31 | with no king of c on the board the result is {-1,-1} |
| Validation.IsInCheck | src/check_scanner.cpp:11-15 | true exactly when c's king square is attacked |
| Validation.MoveLeadsIntoCheck | src/movement_validator.cpp:35-47 | true exactly when the side that was to move is in check after the move; the position is restored |
| Validation.IsValidMove | src/movement_validator.cpp:6-33 | equals ValidMove: on the board, a mover of the side to move, not onto its own colour, the piece rule, not into check; the position is unchanged |
| Validation.HasLegalMoveFrom | src/check_scanner.cpp:53-60 | true exactly when some target square gives a valid move from f |
| Validation.AreThereLegalMoves | src/check_scanner.cpp:46-64 | true exactly when some c piece has a valid move; the position is unchanged |
| Validation.IsInCheckmate | src/check_scanner.cpp:34-38 | in check and no legal move |
| Validation.IsInStalemate | src/check_scanner.cpp:40-44 | not in check and no legal move |
| Validation.PairMovesAt | src/movement_validator.cpp:243-262 | the valid moves among one pair's candidates: a pawn tries the four promotion kinds, attached only on the last row |
| Validation.AddPairMoves | src/movement_validator.cpp:241-263 | one pair extends the list to the moves of all pairs up to it in loop order |
| Validation.MovesOfTargetRow | src/movement_validator.cpp:242-263 | one target row extends the list by the moves of its eight pairs |
| Validation.MovesOfSquare | src/movement_validator.cpp:237-264 | a square not holding a c piece adds nothing, otherwise its 64 pairs |
| Validation.MovesOfPiece | src/movement_validator.cpp:241-264 | a c piece's two target loops add the moves of its 64 pairs |
| Validation.MovesOfRow | src/movement_validator.cpp:236-265 | one row of from-squares adds the moves of its 512 pairs |
| Validation.GetLegalMoves | src/movement_validator.cpp:233-268 | the list is LegalMoves in loop order and the position is left as it was |
| Legality.KingTwoColumnsIsCastling | src/movement_validator.cpp:186-221 | a two-column king move the king rule accepts is a castling from column 4 along its row, with the square next to the king empty |
| Legality.ProbeIsReversible | src/movement_validator.cpp:6-47 | in a sane position a move that passes the checks before the probe is one unmovePiece undoes exactly |
| Legality.ValidMoveFacts | src/movement_validator.cpp:6-33 | an accepted move is on the board, not a null move, moves a piece of the side to move, does not capture its own colour and leaves the mover out of check |
| Legality.HasValidTargetExactly | src/check_scanner.cpp:53-60 | the target scan from f says yes exactly when some square takes a valid move from f |
| Legality.AnyLegalMoveSound | src/check_scanner.cpp:46-64 | what areThereLegalMoves finds is a valid move of a c piece |
| Legality.AnyLegalMoveComplete | src/check_scanner.cpp:46-64 | areThereLegalMoves finds every colour that has a valid move |
| Legality.TargetInRows | src/check_scanner.cpp:53-60 | a scan that did not come out empty names the valid target it found |
| Legality.MoverInRows | src/check_scanner.cpp:47-62 | a scan that did not come out empty names the c piece with a valid move it found |
| Legality.MateAndStalemate | src/check_scanner.cpp:34-44 | checkmate and stalemate exclude each other, together they are "no legal move", and the game is over exactly when the side to move has none |
| Legality.PromotionFor | src/movement_validator.cpp:248-253 | the promotion piece is the kind in colour c exactly on c's last row, none elsewhere |
| Legality.PairCandidates | src/movement_validator.cpp:237-262 | at most four candidates for one pair of squares |
| Legality.ValidAmongMembers | src/movement_validator.cpp:254-261 | a move is kept exactly when it is a candidate isValidMove accepts |
| Legality.ValidAmongAppend | src/movement_validator.cpp:254-261 | one more candidate is appended exactly when it is valid |
| Legality.MovesBelowStep | src/movement_validator.cpp:235-266 | each pair appends its valid candidates to what earlier pairs collected |
| Legality.SkippedSquare | src/movement_validator.cpp:238-239 | a from-square not holding a c piece adds no move |
| Legality.PairIndexDecodes | src/movement_validator.cpp:235-243 | a move's pair number is below 4096 and decodes to its two squares |
| Legality.MovesBelowMembership | src/movement_validator.cpp:233-268 | the first k pairs collect exactly the listed moves with pair number below k |
| Legality.CandidateSquares | src/movement_validator.cpp:243 | every candidate of a pair moves between that pair's squares |
| Legality.CandidatePromotion | src/movement_validator.cpp:244-261 | a non-pawn candidate has no promotion piece; a pawn candidate has one of the four kinds in colour c on c's last row and none elsewhere |
| Legality.LegalMovesExactly | src/movement_validator.cpp:233-268 | getLegalMoves lists a move exactly when it is a valid move of a c piece with the promotion piece the loop attaches |
| Legality.LegalMovesFacts | src/movement_validator.cpp:233-268 | every listed move is valid, moves a c piece, and carries a promotion piece only as a pawn move onto c's last row |
| Legality.WellFormedSquares | src/types.cpp:25-54 | the board holds only real pieces and the empty sentinel, read by index or by square alike |
| Legality.MovedWellFormed | src/move_maker.cpp:91-201 | movePiece writes nothing but pieces already on the board, a promotion piece and the empty sentinel |
| Legality.MovedEnPassantSane | src/move_maker.cpp:118-151 | after a move the pawn rule accepts the en-passant target is unset or an empty square on row 2 or 5 |
| Legality.NonPawnClearsTarget | src/move_maker.cpp:91-116 | any move of a piece other than a pawn clears the en-passant target |
| Legality.PromotionKeepsTarget | src/move_maker.cpp:153-162 | a promotion keeps a sane target, which lies on neither square of the move |
| Legality.PawnStepTarget | src/move_maker.cpp:118-151 | a pawn move without promotion sets the skipped square after a double push and clears the target otherwise |
| Legality.ValidMoveKeepsSane | src/move_maker.cpp:20-34 | makeMove of a valid move keeps a sane position sane |
| MoveRules.RookMovedCases | src/move_maker.cpp:189-201 | moveRook reports the destination's piece; leaving column 7 drops the king-side right, column 0 the queen-side right, and any other column changes nothing |
| MoveRules.MakerContext | src/move_maker.cpp:36-54 | the recorded context is the move's context of the position, with mover and hash at their defaults |
| MoveRules.NextHalfmove | src/move_maker.cpp:66-75 | a pawn move or a capture resets the clock to 0; anything else adds one |
| MoveRules.UnmovedPlainSquare | src/move_maker.cpp:216-217 | undoing a plain move gives the destination the captured piece back, the source what stands on the destination, and leaves every other square |
| MoveRules.UnmovedEnPassantSquare | src/move_maker.cpp:219-223 | undoing en passant puts the captured pawn behind the destination and empties the destination |
| MoveRules.UnmovedCastlingSquare | src/move_maker.cpp:225-233 | undoing castling also moves the rook from the square the king passed back to its corner |
| MoveRules.PlainMovedBoard | src/move_maker.cpp:99-115 | a move of a piece other than a pawn or a king changes only the source and the destination |
| MoveRules.CastlingMovedBoard | src/move_maker.cpp:164-187 | after castling the king is on the destination, the rook on the square the king passed, source and corner are empty, and nothing else changed |
| MoveRules.EnPassantMovedSquare | src/move_maker.cpp:118-151 | after en passant the pawn stands on the destination, its origin and the captured pawn's square are empty, and nothing else changed |
| MoveRules.PlainUndone | src/move_maker.cpp:213-233 | unmovePiece restores the board after a plain move |
| MoveRules.KingUndone | src/move_maker.cpp:164-187 | unmovePiece restores the board after a king step and after castling |
| MoveRules.PawnUndone | src/move_maker.cpp:118-162 | unmovePiece restores the board after a pawn step, a double step, a promotion and en passant |
| MoveRules.UnmovedBoardRestores | src/move_maker.cpp:213-233 | the board half of unmovePiece gives back the board from before any reversible move |
| MoveRules.UnmoveRestores | src/move_maker.cpp:91-116 | unmovePiece with the context taken before movePiece restores the whole position |
| MoveRules.UndoRestores | src/move_maker.cpp:203-242 | makeMove followed by undoMove restores the whole position, clocks and turn included |
| MoveRules.UnmoveIgnoresMoverAndHash | src/move_maker.cpp:213-242 | unmovePiece reads neither the mover nor the hash of a context |
| MoveRules.MakeThenUndo | src/move_maker.cpp:20-34 | makeMove then undoMove, with the context MoveMaker records, gives back the position |
| MoveRules.RedoKeepsHalfmove | src/move_maker.cpp:244-253 | redoMove as written leaves both clocks where undoMove put them, where makeMove advanced the half-move clock |
| MoveRules.UndoRedoDiffers | src/move_maker.cpp:244-253 | after a quiet knight, bishop, rook or queen move, undo then redo does not reproduce the position makeMove left |
| MoveRules.UndoRedoCorrected | src/move_maker.cpp:20-34 | the intended redo makes the move again with its clocks, so undo then redo reproduces the position after makeMove |
| MoveMaker.PromotePawn | src/move_maker.cpp:153-162 | computes promotePawn: the promotion kind in the mover's colour replaces the pawn, and the destination's piece is reported |
| MoveMaker.PawnCapture | src/move_maker.cpp:126-140 | removes the pawn behind an en-passant target and sets the new target behind a double step, clearing it otherwise |
| MoveMaker.MovePawn | src/move_maker.cpp:118-151 | computes movePawn |
| MoveMaker.MoveKing | src/move_maker.cpp:164-187 | computes moveKing: the rook comes along on a two-column move, and the king's colour loses both castling rights |
| MoveMaker.DropRight | src/move_maker.cpp:195-197 | clears one right from colour c's castling mask and changes nothing else |
| MoveMaker.MoveRook | src/move_maker.cpp:189-201 | computes moveRook |
| MoveMaker.MovePiece | src/move_maker.cpp:91-116 | computes movePiece: the new position and the reported captured piece |
| MoveMaker.IncreaseHalfmoveClock | src/move_maker.cpp:66-75 | the half-move clock becomes NextHalfmove and nothing else changes |
| MoveMaker.GetMoveContext | src/move_maker.cpp:36-54 | drops the history past the cursor and returns the context MakerContext describes |
| MoveMaker.PushContext | src/move_maker.cpp:21-23 | the context goes onto the history at the cursor, and the cursor moves past it |
| MoveMaker.AdvanceClocks | src/move_maker.cpp:28-31 | updates the half-move clock, adds one full move after Black's move, and flips the turn |
| MoveMaker.MakeMove | src/move_maker.cpp:20-34 | computes MadeMove, records the context at the cursor and advances the cursor |
| MoveMaker.UnmoveBoard | src/move_maker.cpp:214-233 | computes unmovePiece's board half |
| MoveMaker.RestoreFields | src/move_maker.cpp:235-241 | copies back the saved en-passant target, castling masks, turn, game-over flag and clocks |
| MoveMaker.UnmovePiece | src/move_maker.cpp:213-242 | computes PieceUnmoved |
| MoveMaker.UndoMove | src/move_maker.cpp:203-211 | at cursor 0 nothing changes; otherwise the cursor steps back and its context is unmoved; the history is kept |
| MoveMaker.RedoMove | src/move_maker.cpp:244-253 | at the end of the history nothing changes; otherwise the context's move is made again on the board, the cursor advances and the turn flips |
| MoveMaker.RedoMoveCorrected | src/move_maker.cpp:20-34 | the intended redo: the context's move is made again with makeMove's clocks and turn |
| Zobrist.XorAlgebra | src/position.cpp:274-293 | the exclusive or that combines the keys is associative and commutative, has unit 0, and undoes itself |
| Zobrist.PieceIndex | src/position.cpp:277-282 | a row of the 12-row key table for each of the twelve real pieces, -1 exactly for anything else |
| Zobrist.PieceIndexInjective | src/position.cpp:277-282 | different real pieces use different rows of the key table |
| Zobrist.PieceHashBelow | src/position.cpp:275-284 | a square at or after n does not enter the XOR of squares 0..n-1 |
| Zobrist.PieceHashUpdate | src/position.cpp:275-284 | replacing the piece on a visited square changes the piece XOR by the old and the new piece's keys of that square |
| Zobrist.HashAfterSet | src/position.cpp:273-294 | writing one square changes the hash by XORing out the old piece's key and XORing in the new one's |
| Zobrist.HashAfterTurn | src/position.cpp:286-287 | handing the move over toggles exactly the side-to-move key |
| Zobrist.HashIgnoresClocks | src/position.cpp:273-294 | the clocks and the game-over flag do not enter the hash |
| ChessBoards.PlayedEffect | src/chess_board.cpp:153-165 | a rejected move changes nothing and reports the empty piece; an accepted one is MoveMaker's move, hands the turn over, and raises the game-over flag exactly when the side now to move has no legal move |
| ChessBoards.MadeMoveKeepsFlag | src/move_maker.cpp:20-34 | MoveMaker's makeMove does not touch the game-over flag |
| ChessBoards.PlayedKeepsSane | src/chess_board.cpp:153-165 | makeMove keeps a sane position sane, so later queries may probe again |
| ChessBoards.MakeMove | src/chess_board.cpp:153-165 | computes Played; the history grows by the context exactly when the move is valid |
| ChessBoards.RaiseGameOver | src/chess_board.cpp:160-162 | raises the flag when the side to move is checkmated or stalemated; nothing else changes |
| ChessBoards.PlayedFromMade | src/chess_board.cpp:153-165 | Played is MoveMaker's outcome with the flag raised by the two queries |
| ChessBoards.IsCheckmate | src/chess_board.cpp:219-221 | the side to move is in check with no legal move; the position is unchanged |
| ChessBoards.IsStalemate | src/chess_board.cpp:222-224 | the side to move is not in check and has no legal move; the position is unchanged |
| ChessBoards.GetIsGameOver | src/position.cpp:253-258 | checkmate or stalemate of the side to move, which holds exactly when it has no legal move |
| Material.PieceValueProperties | src/engine.cpp:121-149 | a White piece counts its worth and any other colour as much against; empty is 0; pawn < knight < bishop < rook < queen < king |
| Material.RowsMaterialUpdate | src/engine.cpp:99-104 | writing one square changes the sum over the visited rows by the difference of the two values there |
| Material.MaterialSet | src/engine.cpp:99-104 | putting a piece on a square replaces the value there by the new piece's value |
| Material.MirroredRows | src/engine.cpp:99-104 | a row and its colour-exchanged mirror row cancel out |
| Material.MirroredBalanced | src/engine.cpp:99-104 | a position that is its own colour-exchanged mirror evaluates to 0 |
| Material.StartBalanced | src/engine.cpp:90-107 | the start position evaluates to 0 |
| Material.StartWithoutKnight | src/engine.cpp:90-107 | without Black's b8 knight the start position evaluates to 320 |
| GameTrees.AlphaBetaFromStep | src/engine.cpp:64-80 | one turn of the loop: maxScore and alpha rise with the negated child score, and the scan stops once alpha reaches beta |
| GameTrees.BestOfFirstGrows | src/chess_engine.cpp:55-63 | looking at more children never lowers the best negated score |
| GameTrees.AlphaBetaBrackets | src/engine.cpp:53-83 | for a window inside [-inf, inf] the alpha-beta score bounds the negamax score from above on a fail-low, from below on a fail-high, and equals it inside the window |
| GameTrees.AlphaBetaFromBrackets | src/engine.cpp:59-82 | the loop invariant: no cut-off yet, maxScore bounds the best negated score so far and equals it once above the original alpha |
| GameTrees.ChildScore | src/engine.cpp:67 | a child searched with the window (-beta, -alpha) and negated bounds its true score as that window says |
| GameTrees.AlphaBetaExact | src/engine.cpp:53-83 | with the full window the alpha-beta score is the negamax score whenever that lies strictly inside (-inf, inf) |
| GameTrees.FirstBestOfMeaning | src/engine.cpp:37-40 | the first child with the highest negated score: no child scores more, and every earlier one scores strictly less |
| GameTrees.RootAlphaBetaFromStep | src/engine.cpp:30-45 | one turn of the root loop: a strictly better score replaces the best move, and alpha follows the best score |
| GameTrees.RootAlphaBetaIsFirstBest | src/engine.cpp:15-48 | when every child's score lies inside (-inf, inf) the root returns the first child with the highest negamax score |
| GameTrees.RootAlphaBetaStep | src/engine.cpp:30-45 | the root loop invariant: best is the first best so far, and alpha and bestValue hold its score |
| GameTrees.RootPlainFromStep | src/chess_engine.cpp:28-37 | one turn of the plain root loop: only a strictly higher negated score replaces the best move |
| GameTrees.RootPlainMeaning | src/chess_engine.cpp:21-39 | the move stays unset exactly when no child scores above -inf, otherwise it is the first child with the highest negated score |
| GameTrees.NegaMaxIsMiniMax | src/engine.cpp:53-83 | negamax on the side-relative tree is minimax: the maximizing side's value as it is, the minimizing side's negated |
| Engines.EvaluationMeaning | src/engine.cpp:90-107 | with a legal move the score is the material balance; without one it is the loss score of the side to move when in check and 0 otherwise |
| Engines.EvaluationForSides | src/engine.cpp:112-116 | the two sides see opposite scores, an unknown colour sees Black's |
| Engines.Probed | src/engine.cpp:31-32 | the probed position has the other side to move |
| Engines.SubtreeAt | src/engine.cpp:64-69 | the i-th subtree is the search tree of the position the i-th legal move's probe reaches |
| Engines.SearchTreeIsRelative | src/engine.cpp:53-83 | the search tree is the tree of White's evaluations seen from the side to move |
| Engines.SearchIsMiniMax | src/engine.cpp:53-83 | the search is minimax with White maximizing the evaluation, seen from the side to move |
| Engines.LegalProbe | src/engine.cpp:64-69 | a listed move can be probed: unmovePiece takes it back exactly and the reached position is sane |
| Engines.MaterialScore | src/engine.cpp:99-104 | the material loop computes the material sum |
| Engines.EvaluatePosition | src/engine.cpp:90-107 | computes the evaluation and leaves the position as it was |
| Engines.EvaluatePositionFor | src/engine.cpp:112-116 | computes the evaluation relative to the colour |
| Engines.NegaMaxAlphaBeta | src/engine.cpp:53-83 | returns the alpha-beta score of the search tree and leaves the position as it was |
| Engines.SearchNode | src/engine.cpp:59-82 | the inner branch scores the node of the legal moves' subtrees |
| Engines.SubtreesAreChildTrees | src/engine.cpp:61-64 | the subtrees are the trees below the legal moves, in order |
| Engines.InnerNode | src/engine.cpp:54-82 | below depth 0 and before the game is over, the search scores the node of the subtrees |
| Engines.ScanAlphaBeta | src/engine.cpp:64-82 | the move loop computes the alpha-beta loop on the node and restores the position |
| Engines.SearchChild | src/engine.cpp:65-69 | one probe returns the alpha-beta score of that move's subtree and restores the position |
| Engines.Minimax | src/engine.cpp:15-48 | returns BestMove and leaves the position as it was |
| Engines.RootNode | src/engine.cpp:18-30 | the best move is the legal move at the index the root loop picks |
| Engines.RootScan | src/engine.cpp:25-47 | the root loop returns the move at the index RootAlphaBeta picks |
| Engines.BestMoveIsNull | src/engine.cpp:21-23 | the result is Move{0,0,0,0} exactly when the side to move has no legal move |
| Engines.BestMoveIsFirstBest | src/engine.cpp:15-48 | with scores inside (-inf, inf), the result is the first legal move with the highest value |
| Engines.ChildValues | src/engine.cpp:30-37 | the value of the root's i-th child is the value of the i-th legal move |
| ChessEngines.BoardEvaluationMeaning | src/chess_engine.cpp:76-95 | White's point of view: a mate scores the full mate score against the mated side, a stalemate 0, and any other position its material |
| ChessEngines.BoardMaterial | src/chess_engine.cpp:85-92 | the loop that skips empty squares computes the material sum |
| ChessEngines.EvaluateBoard | src/chess_engine.cpp:76-95 | computes the evaluation and leaves the position as it was |
| ChessEngines.EvaluateBoardForColor | src/chess_engine.cpp:101-105 | the evaluation for WHITE, negated for any other colour |
| ChessEngines.BoardSubtreesAreChildren | src/chess_engine.cpp:55-59 | the subtrees are the trees below the legal moves, in order |
| ChessEngines.BoardInnerNode | src/chess_engine.cpp:46-65 | above depth 0 and without the flag, negaMax is the best negated score of the subtrees |
| ChessEngines.HistoryKeptTrans | src/move_maker.cpp:36-39 | histories trimmed at the cursor chain together |
| ChessEngines.NegaMax | src/chess_engine.cpp:46-65 | returns the negamax of the tree as written and leaves the position as it was, the history at most trimmed at the cursor |
| ChessEngines.BoardNode | src/chess_engine.cpp:50-64 | the inner branch computes the best negated subtree score |
| ChessEngines.ScanNegaMax | src/chess_engine.cpp:55-64 | max starts at -INF and rises to every strictly higher negated score |
| ChessEngines.BoardChild | src/chess_engine.cpp:56-59 | one probe returns the negated score of the i-th subtree and restores the position |
| ChessEngines.Minimax | src/chess_engine.cpp:21-39 | returns BestMove and leaves the position as it was |
| ChessEngines.RootNode | src/chess_engine.cpp:21-31 | the root is the node of the subtrees one level down |
| ChessEngines.RootScan | src/chess_engine.cpp:28-38 | the root loop returns the move RootPlain picks, or none |
| ChessEngines.MoveValues | src/chess_engine.cpp:31 | the value of the root's i-th child is the i-th legal move's value |
| ChessEngines.BestMoveIsNone | src/chess_engine.cpp:23-38 | no move is chosen exactly when no legal move values above -INF |
| ChessEngines.BestMoveIsFirstBest | src/chess_engine.cpp:21-39 | otherwise the result is the first legal move of the highest value |
| ChessEngines.AStarSearch | src/chess_engine.cpp:67-69 | the stub returns Move{0,0,0,0} |
| ChessEngines.BoardTreeKeepsMover | src/chess_engine.cpp:55-59 | as written a probe keeps the side to move and never raises the game-over flag |
| ChessEngines.CorrectedTreeAlternates | src/engine.cpp:64-69 | with the turn handed over after each probe the sides alternate and the search is White-maximizing minimax |
| MoveParsers.San | src/move_parser.cpp:114-115 | the string holds no upper-case letter and has the length of the string before lower-casing |
| MoveParsers.SanPairs | src/move_parser.cpp:39-121 | one pair per move, in the order of the moves, pairing each move with its string |
| MoveParsers.FirstMatchMeaning | src/move_parser.cpp:26-30 | nothing is found exactly when no pair carries the string; otherwise the first pair that does |
| MoveParsers.ParseAmongMeaning | src/move_parser.cpp:14-33 | a move of the list whose string is the lower-cased input, no earlier move carrying it; failure exactly when none does |
| MoveParsers.ShadowedMove | src/move_parser.cpp:26-30 | a move sharing its string with an earlier, different move is never returned |
| MoveParsers.LowerConcat | src/move_parser.cpp:16-17 | lower-casing works piece by piece |
| MoveParsers.DisambiguatorCharacters | src/move_parser.cpp:95-104 | the disambiguator holds no upper case and no 'x' |
| MoveParsers.SquareNameCharacters | src/move_parser.cpp:49-51 | a square's name has no upper case and no 'x' and reads back as the square |
| MoveParsers.SquareCharacters | src/move_parser.cpp:49-51 | files print as 'a'..'h' and ranks as '8'..'1' for rows 0..7 |
| MoveParsers.PieceMoveSan | src/move_parser.cpp:70-112 | a piece move reads: lower-case piece letter, disambiguator, 'x' on a capture, destination |
| MoveParsers.PawnMoveSan | src/move_parser.cpp:57-69 | a pawn move reads: "<file>x" on a capture, destination, "=<letter>" for a promotion |
| MoveParsers.CastlingSan | src/move_parser.cpp:55-56 | a two-column king move reads "o-o" towards the h-file and "o-o-o" towards the a-file |
| MoveParsers.SanNamesDestination | src/move_parser.cpp:53-112 | every non-castling string ends with the destination square and holds 'x' exactly on a capture |
| MoveParsers.RivalsDistinguished | src/move_parser.cpp:73-105 | two moves of identical pieces from different squares onto one destination never get the same string |
| MoveParsers.DisambiguatorsDiffer | src/move_parser.cpp:77-104 | the disambiguators of two rivals differ and are both non-empty |
| MoveParsers.ShadowState | src/move_parser.cpp:53-71 | the position with a b-pawn and a bishop that can both take on c3 |
| MoveParsers.PawnAndBishopShareString | src/move_parser.cpp:57-115 | as written bxc3 and Bxc3 both print "bxc3" |
| MoveParsers.BishopCaptureUnreachable | src/move_parser.cpp:14-33 | once the pawn capture comes first, no input selects the bishop capture |
| MoveParsers.FirstMatchOfKindMeaning | src/move_parser.cpp:26-30 | the lookup restricted to one kind of move finds nothing exactly when no pair of that kind carries the string, and otherwise a pair of that kind that does |
| MoveParsers.CorrectedMatchMeaning | src/move_parser.cpp:26-32 | the intended lookup fails exactly when the lookup as written fails, returns a move of a pair carrying the string, and returns a move of the asked-for kind whenever such a move carries it |
| MoveParsers.CorrectedMatchUnshared | src/move_parser.cpp:26-30 | where every pair carrying the string carries the same move, the intended lookup returns what the loop as written returns |
| MoveParsers.CorrectedKeepsInputs | src/move_parser.cpp:14-33 | the intended moveStringToMove accepts exactly the inputs the source accepts, lower-case ones included, and returns a listed move whose string is the lower-cased input. When a move of the kind the input asks for carries it, the returned move is of that kind: a bishop move for a leading 'B', another move otherwise |
| MoveParsers.CorrectedAgreesUnshared | src/move_parser.cpp:14-33 | where no two different listed moves share the lower-cased input's string, the intended lookup returns the source's move |
| MoveParsers.CorrectedBishopPick | src/move_parser.cpp:14-33 | with one bishop on the board, an input starting with 'B' whose string a bishop move carries gives a move of that bishop onto the square the input names |
| MoveParsers.CorrectedShadowBishop | src/move_parser.cpp:14-33 | on the example position "Bxc3" gives the bishop capture from d2 to c3 |
| MoveParsers.CorrectedShadowPawn | src/move_parser.cpp:14-33 | on the example position "bxc3" gives a move that is not a bishop's |
| MoveParsers.Disambiguate | src/move_parser.cpp:74-93 | the inner loop computes the three disambiguation flags |
| MoveParsers.SanOf | src/move_parser.cpp:43-115 | the outer loop's body computes the move's string |
| MoveParsers.GetMoveSanPairs | src/move_parser.cpp:39-121 | computes SanPairs |
| MoveParsers.MoveStringToMove | src/move_parser.cpp:14-33 | returns the lookup among the legal moves, None where the source throws, and leaves the position as it was |
| JavaMoves.NewMove | src/main/model/Move.java:15-26 | the constructor succeeds exactly when all four coordinates are in 0..7, and then each getter returns its argument |
| JavaMoves.RebuildMove | src/main/model/Move.java:15-42 | constructing again from a move's four getters gives the same move |
| JavaMoves.OneBadCoordinate | src/main/model/Move.java:16-21 | one coordinate off the board is enough for the constructor to throw |
| JavaRules.CellPut | src/main/model/Board.java:510-512 | writing one square changes that square and no other |
| JavaRules.GridsEqual | src/main/model/Board.java:497-506 | two boards that agree square by square are equal |
| JavaRules.StartCellAt | src/main/model/Board.java:46-81 | each square of the new board holds the piece createNewBoard assigns to it |
| JavaRules.StartLayout | src/main/model/Board.java:46-81 | White's pieces fill rows 0-1 and Black's rows 6-7, with pawns on rows 1 and 6, back ranks R N B Q K B N R, rows 2-5 empty, and row 7-r the colour-swapped row r |
| JavaRules.WalkTowards | src/main/model/Board.java:202-203 | walking from x by the sign of the distance stays on the board and arrives after exactly that many steps |
| JavaRules.LineClearStep | src/main/model/Board.java:211-216 | one more empty square extends a clear path |
| JavaRules.LineBlocked | src/main/model/Board.java:211-216 | an occupied square strictly inside the path blocks it |
| JavaBoards.GridOf | src/main/model/Board.java:13 | the value of the array: entry col*8+row is position[col][row] |
| JavaBoards.Board.constructor | src/main/model/Board.java:24-33 | a fresh board in the start position, White to move, both castling strings "RKR", no en-passant column, named "New Board" |
| JavaBoards.Board.Named | src/main/model/Board.java:36-44 | the same start state with the given name |
| JavaBoards.Board.CreateNewBoard | src/main/model/Board.java:46-61 | a fresh array holding the start position |
| JavaBoards.Board.AssignPieceToSquare | src/main/model/Board.java:63-81 | writes the assigned piece on its square and leaves the others |
| JavaBoards.Board.PlacePiece | src/main/model/Board.java:510-512 | one square written, every other kept |
| JavaBoards.Board.MakeMove | src/main/model/Board.java:86-97 | the new state is MadeMove: unchanged unless isLegalMove, otherwise the piece moved, the turn passed, castling and en-passant column updated |
| JavaBoards.Board.IsLegalMove | src/main/model/Board.java:100-124 | equals LegalMove: right side to move, a real move, target empty or hostile, and the piece's rule |
| JavaBoards.Board.MovePiece | src/main/model/Board.java:127-132 | the en-passant capture, then the source emptied and the piece put on the target |
| JavaBoards.Board.EnPassantCaptures | src/main/model/Board.java:164-173 | equals EnPassantCaptured |
| JavaBoards.Board.UpdateEnPassantCol | src/main/model/Board.java:177-186 | stores and returns the column of a pawn that moved two rows, else -1 |
| JavaBoards.Board.IsLegalBishopMove | src/main/model/Board.java:196-206 | equals the bishop rule: a diagonal with empty squares in between |
| JavaBoards.Board.IsBishopPathEmpty | src/main/model/Board.java:209-218 | true exactly when the diagonal squares strictly between are empty |
| JavaBoards.Board.IsLegalRookMove | src/main/model/Board.java:221-231 | equals the rook rule |
| JavaBoards.Board.IsRookPathEmpty | src/main/model/Board.java:234-252 | true exactly when the squares strictly between, along the row or else the column, are empty |
| JavaBoards.Board.IsLegalQueenMove | src/main/model/Board.java:255-258 | the bishop rule or the rook rule |
| JavaBoards.Board.NextTurn | src/main/model/Board.java:414-416 | flips the side to move |
| JavaBoards.Board.UpdateCastling | src/main/model/Board.java:420-426 | updates White's castling string for a positive code, Black's otherwise |
| JavaBoards.Board.UpdateWhiteCastling | src/main/model/Board.java:430-448 | the king clears White's string; a rook leaving (0,0) drops the queen side and one leaving (7,0) the king side |
| JavaBoards.Board.UpdateBlackCastling | src/main/model/Board.java:452-470 | the same for Black on row 7 |
| JavaBoards.Board.EvaluatePos | src/main/model/Board.java:300-308 | the sum of pieceToVal over the 64 squares |
| JavaBoards.Board.ClearBoard | src/main/model/Board.java:385-391 | every square emptied |
| JavaBoards.Board.IsEmpty | src/main/model/Board.java:394-405 | true exactly when no square holds a piece |
| JavaBoards.Board.PositionToOneDArray | src/main/model/Board.java:486-494 | a fresh 64-entry array whose entry col*8+row is position[col][row] |
| JavaBoards.Board.SamePosition | src/main/model/Board.java:497-506 | true exactly when the other array agrees on every square |
| JavaBoards.Board.BoardToStringBoard | src/main/model/Board.java:334-355 | display square (i, j) shows the piece on column j, row 7-i |
| JavaBoards.Board.PieceStrings | src/main/model/Board.java:335-340 | the first loop: each square's pieceToString |
| JavaBoards.Board.SetPosition | src/main/model/Board.java:522-524 | the board takes the given array itself |
| JavaBoards.Rotated | src/main/model/Board.java:341-346 | the second loop: straight[7-j][7-i] = stringBoard[i][j] |
| JavaBoards.ReverseRows | src/main/model/Board.java:347-353 | the third loop reverses each row in place |
| JavaRuleLemmas.KnightRuleOffsets | src/main/model/Board.java:189-193 | isLegalKnightMove's product test accepts exactly the eight L-shaped offsets (one column and two rows, or two columns and one row) |
| JavaRuleLemmas.LegalMoveFacts | src/main/model/Board.java:100-124 | a move isLegalMove admits starts from a piece of the side to move, of one of the six kinds, changes square, and lands on an empty square or an enemy piece |
| JavaRuleLemmas.IllegalMoveChangesNothing | src/main/model/Board.java:86-97 | makeMove on an illegal move leaves the whole board state (position, turn, castling rights, en-passant column) as it was |
| JavaRuleLemmas.MovedSquare | src/main/model/Board.java:127-132 | after movePiece the target holds the mover, the vacated from-square is empty, and every other square except the en-passant victim keeps its piece |
| JavaRuleLemmas.MadeMoveEffects | src/main/model/Board.java:86-97 | a legal makeMove passes the turn, moves the piece, empties its square, changes no square but the en-passant victim, and sets the en-passant column to none or the mover's column |
| JavaRuleLemmas.EnPassantColMeaning | src/main/model/Board.java:177-186 | updateEnPassantCol sets a column exactly after a pawn's two-row advance, and that column is the pawn's |
| JavaRuleLemmas.CastlingOnlyShrinks | src/main/model/Board.java:420-470 | the castling strings keep one of their four forms, a side once lost is never regained, and a king move clears its colour's rights |
| JavaRuleLemmas.RookLeavesCorner | src/main/model/Board.java:430-470 | a rook moving from one of its colour's home corners gives up exactly that side's castling right and keeps the other |
| JavaRuleLemmas.MoveKeepsOpponentRights | src/main/model/Board.java:420-426 | a move of a White piece leaves Black's castling string alone, and the other way round |
| JavaRuleLemmas.PieceToValMirror | src/main/model/Board.java:312-331 | pieceToVal values a Black piece as the negation of the White piece of its kind, and White pieces are never negative |
| JavaRuleLemmas.EvalPrefixUpdate | src/main/model/Board.java:300-308 | changing one square changes every running sum of evaluatePos that covers it by the difference of the two values |
| JavaRuleLemmas.EvaluationAfterPut | src/main/model/Board.java:300-308 | placing a piece changes evaluatePos by the value placed minus the value of the piece it replaces |
| JavaRuleLemmas.EmptyEvaluation | src/main/model/Board.java:385-391 | a board cleared by clearBoard evaluates to 0 |
| JavaRuleLemmas.EvalColumn | src/main/model/Board.java:302-306 | one pass of evaluatePos's inner loop adds exactly the values of that column's eight squares |
| JavaRuleLemmas.StartColumnBalanced | src/main/model/Board.java:46-61 | every column of the board createNewBoard sets up has balanced White and Black material |
| JavaRuleLemmas.StartEvaluation | src/main/model/Board.java:46-61 | evaluatePos of the new board is 0 |
| JavaRuleLemmas.PieceToStringCases | src/main/model/Board.java:359-381 | pieceToString gives one character per square, "0" exactly for an empty square, "PNBRQK" for White's pieces and their lower case for Black's |
| JavaRuleLemmas.PromotionMeaning | src/main/model/Board.java:408-411 | isPawnToPromote holds only for a White pawn on row 7 or a Black pawn on row 0, and never on the new board |
| JavaRuleLemmas.CastleRuleReadsWrongRow | src/main/model/Board.java:275-289 | as written, a White king with no rights castles on Black's rights, and a Black king with every right on its home square cannot castle |
| JavaRuleLemmas.CastleCorrectedUsesOwnRights | src/main/model/Board.java:275-289 | the corrected castling rule reads only the mover's own rights, allows no castle off rows 0 and 7, agrees with the rule as written when Black has no rights, and lets Black castle from row 7 |
| JavaRuleLemmas.PawnJumpsToEnPassantSquare | src/main/model/Board.java:135-160 | as written, a White pawn on (7, 1) may move to (0, 5) when the en-passant column is 0 |
| JavaRuleLemmas.PawnCorrectedMovesForward | src/main/model/Board.java:135-160 | under the corrected pawn rule a pawn moves one or two rows forward and at most one column sideways; every corrected move is allowed as written, and the two differ only on en-passant targets |
| JavaRuleLemmas.KnightCapturesEnPassant | src/main/model/Board.java:164-173 | as written, a knight's legal move c5-a6 right after Black's a7-a5 removes the pawn on a5 |
| JavaRuleLemmas.EnPassantCorrectedOnlyPawns | src/main/model/Board.java:164-173 | under the corrected capture, only a pawn removes a square, and that square is the one in the target column on the pawn's from-row, which becomes empty |
| JavaRuleLemmas.BishopScanLeavesBoard | src/main/model/Board.java:196-218 | as written, asking whether a queen on (0, 6) may go to (7, 7) makes isBishopPathEmpty index row 8, off the board |
| JavaRuleLemmas.BishopScanDiagonal | src/main/model/Board.java:209-218 | on a diagonal move the scan as written stays on the board and answers whether every square strictly between is empty |
| JavaRuleLemmas.BishopRuleGuarded | src/main/model/Board.java:196-218 | the guarded bishop rule admits only diagonal moves and, on a diagonal, gives exactly the answer of the rule as written, which then never leaves the board |
| JavaScanRules.RecordAllAppend | src/main/model/CheckScanner.java:383-393 | recording two runs of hits one after the other is recording their concatenation |
| JavaScanRules.RecordFromReset | src/main/model/CheckScanner.java:383-393 | from the state update() leaves, setCheckingPiece keeps the first hit's square and kind and sets isDoubleCheck exactly when two or more hits arrive |
| JavaScanRules.KingSearchMeaning | src/main/model/CheckScanner.java:53-74 | findKingCol and findKingRow return -1 exactly when the colour has no king; otherwise they name a square holding it, and no square visited before holds it |
| JavaScanRules.StartKings | src/main/model/CheckScanner.java:53-74 | on the new board, White's king is found on (4, 0) and Black's on (4, 7) |
| JavaScanRules.RayMeaning | src/main/model/CheckScanner.java:139-236 | a sliding scan loop finds an attacker exactly when the ray holds one of its two codes with only empty squares before it, and records that square |
| JavaScanRules.KnightOffsetMeaning | src/main/model/CheckScanner.java:114-116 | within -2..2 the test colDel * rowDel == 2 or -2 accepts exactly the eight knight offsets |
| JavaScanRules.KnightMeaning | src/main/model/CheckScanner.java:112-129 | isAttackedByKnight finds an attacker exactly when an enemy knight stands a knight's jump away, and records that knight's square |
| JavaScanRules.PawnMeaning | src/main/model/CheckScanner.java:89-108 | isAttackedByPawn finds an attacker exactly when an enemy pawn stands on a neighbouring column one row towards the king's own advance, and every square it records holds such a pawn |
| JavaScanRules.RaysMeaning | src/main/model/CheckScanner.java:133-189 | the rook scans find an attacker exactly when some line holds an enemy rook or queen with nothing between, and the bishop scans likewise for an enemy bishop or queen on a diagonal |
| JavaScanRules.InCheckMeaning | src/main/model/CheckScanner.java:78-85 | isInCheck is true exactly when the square is attacked by an enemy rook or queen on a line, bishop or queen on a diagonal, knight a jump away, or pawn diagonally in front |
| JavaScanRules.HitsAreEnemies | src/main/model/CheckScanner.java:78-236 | every square the scans record holds a piece of the other colour that is not a king |
| JavaScanRules.DoubleCheckMissed | src/main/model/CheckScanner.java:133-159 | as written, a White king on (4, 0) attacked by Black rooks on (0, 0) and (4, 7) is recorded with one checking piece and no double check |
| JavaScanRules.DoubleCheckCorrected | src/main/model/CheckScanner.java:383-393 | when every ray is scanned, any two attacked lines make a double check |
| JavaScanRules.CorrectedSameAnswer | src/main/model/CheckScanner.java:78-85 | scanning every ray gives the same isInCheck answer as the scans as written |
| JavaScanRules.SomesIff | src/main/model/CheckScanner.java:78-85 | the hits of a run of scan outcomes are empty exactly when every scan found nothing |
| JavaScanners.CheckScanner.constructor | src/main/model/CheckScanner.java:22-25 | the scanner shares the board's position array, takes its turn and the king of the side to move, and starts with no checking piece and no double check |
| JavaScanners.CheckScanner.Update | src/main/model/CheckScanner.java:28-38 | update re-reads the board's array and turn, finds the mover's king square by the search of findKingCol/findKingRow, and resets the checking fields to -1 and isDoubleCheck to false |
| JavaScanners.CheckScanner.IsCheckMated | src/main/model/CheckScanner.java:42-44 | mate holds exactly when the king's square is attacked and there are no legal moves; the checking fields record the hits of the king-square scans |
| JavaScanners.CheckScanner.IsChecked | src/main/model/CheckScanner.java:48-50 | true exactly when the king's square is attacked by an enemy piece; the checking fields record what isInCheck found there |
| JavaScanners.CheckScanner.FindKingCol | src/main/model/CheckScanner.java:53-62 | the column of the first square, column by column, holding the king of that colour, or -1 |
| JavaScanners.CheckScanner.FindKingRow | src/main/model/CheckScanner.java:65-74 | the row of that same square, or -1 |
| JavaScanners.CheckScanner.FindKing | src/main/model/CheckScanner.java:53-74 | the double loop returns the first flat index holding the king, or -1 when there is none |
| JavaScanners.CheckScanner.IsInCheck | src/main/model/CheckScanner.java:78-85 | true exactly when one of the four scans finds an attacker; every hit of all four scans is passed to setCheckingPiece in order |
| JavaScanners.CheckScanner.IsAttackedByPawn | src/main/model/CheckScanner.java:89-108 | true exactly when an enemy pawn stands on either front diagonal; both such pawns are recorded |
| JavaScanners.CheckScanner.IsAttackedByKnight | src/main/model/CheckScanner.java:112-129 | true exactly when the knight scan finds an enemy knight; the first one found is recorded and off-board offsets are skipped |
| JavaScanners.CheckScanner.IsAttackedByRook | src/main/model/CheckScanner.java:133-135 | the row scan, then the column scan only when the row scan found nothing; at most one rook or queen is recorded |
| JavaScanners.CheckScanner.IsAttackedByRookCol | src/main/model/CheckScanner.java:139-159 | the scans towards higher and then lower columns find the first enemy rook or queen in front of any other piece, and record it |
| JavaScanners.CheckScanner.IsAttackedByRookRow | src/main/model/CheckScanner.java:163-183 | the scans towards higher and then lower rows find the first enemy rook or queen in front of any other piece, and record it |
| JavaScanners.CheckScanner.IsAttackedByBishop | src/main/model/CheckScanner.java:187-189 | the up scan, then the down scan only when the up scan found nothing; at most one bishop or queen is recorded |
| JavaScanners.CheckScanner.IsAttackedByBishopUp | src/main/model/CheckScanner.java:193-213 | the up-right and then down-left diagonals, first enemy bishop or queen before any other piece |
| JavaScanners.CheckScanner.IsAttackedByBishopDown | src/main/model/CheckScanner.java:216-236 | the up-left and then down-right diagonals, first enemy bishop or queen before any other piece |
| JavaScanners.CheckScanner.ScanRay | src/main/model/CheckScanner.java:140-147 | one loop of the sliding scans: found exactly when the ray function finds a hit, which alone is recorded |
| JavaScanners.CheckScanner.SetCheckingPiece | src/main/model/CheckScanner.java:383-393 | the first checking piece is stored with its square; any later one only sets isDoubleCheck |
| JavaPieces.KnightTargets | src/main/model/pieces/Knight.java:35-37 | Knight.isValidMovement accepts exactly the eight knight jumps |
| JavaPieces.KnightRejectsLines | src/main/model/pieces/Knight.java:35-37 | staying put, moving along a row or column, or along a diagonal is never a knight move |
| JavaPieces.KnightSymmetric | src/main/model/pieces/Knight.java:35-37 | a knight may jump from a to b exactly when it may jump back from b to a |
| JavaPieces.KnightChangesSquareColour | src/main/model/pieces/Knight.java:35-37 | a knight always lands on a square of the other colour |
| JavaPieces.BishopKeepsSquareColour | src/main/model/pieces/Bishop.java:34-36 | a bishop move keeps the colour of its square |
| JavaPieces.QueenIsRookOrBishop | src/main/model/pieces/Queen.java:34-36 | Queen.isValidMovement accepts exactly the moves a rook or a bishop could make |
| JavaPieces.BlockedMeaning | src/main/model/pieces/Bishop.java:38-72 | a path is blocked exactly when one of its n squares after the start is occupied |
| JavaPieces.BlockedFrame | src/main/model/pieces/Rook.java:40-68 | two boards that agree on the squares of a path give the same blocked answer |
| JavaPieces.ScanPath | src/main/model/pieces/Bishop.java:40-45 | one for loop of moveCollidesWithPiece returns true exactly when the path it walks is blocked |
| JavaPieces.BishopCollides | src/main/model/pieces/Bishop.java:38-72 | the four quadrant loops return the bishop's collision answer |
| JavaPieces.RookCollides | src/main/model/pieces/Rook.java:40-68 | the row loops and then the column loops return the rook's collision answer |
| JavaPieces.QueenCollides | src/main/model/pieces/Queen.java:38-100 | the queen's rook loops for a target on its lines, its bishop loops otherwise, return the queen's collision answer |
| JavaPieces.BishopCollisionMeaning | src/main/model/pieces/Bishop.java:38-72 | for a diagonal target, the bishop collides exactly when a square strictly between it and the target is occupied |
| JavaPieces.RookCollisionMeaning | src/main/model/pieces/Rook.java:40-68 | for a target on its row or column, the rook collides exactly when a square strictly between is occupied |
| JavaPieces.QueenCollisionMeaning | src/main/model/pieces/Queen.java:38-100 | for a valid queen move, it collides exactly when a square strictly between it and the target, on their line or diagonal, is occupied |
| JavaPieces.BishopIgnoresEnds | src/main/model/pieces/Bishop.java:38-72 | the collision test never looks at the bishop's own square or the target |
| JavaPieces.RookIgnoresEnds | src/main/model/pieces/Rook.java:40-68 | the collision test never looks at the rook's own square or the target |
| JavaPieces.QueenIgnoresEnds | src/main/model/pieces/Queen.java:38-100 | the collision test never looks at the queen's own square or the target |
| JavaPieces.NeighboursNeverCollide | src/main/model/pieces/Queen.java:38-100 | a target on the piece's own or a neighbouring square never collides, for bishop, rook and queen |
| JavaPieces.PawnMovesForward | src/main/model/pieces/Pawn.java:34-61 | a pawn only moves forward: one row (at most one column sideways) or two rows straight from its start row |
| JavaPieces.PawnPush | src/main/model/pieces/Pawn.java:34-61 | one step straight ahead is allowed exactly onto an empty square |
| JavaPieces.PawnDoublePush | src/main/model/pieces/Pawn.java:34-61 | two steps straight ahead are allowed exactly from the start row (6 for White, 1 for Black) with both squares ahead empty |
| JavaPieces.PawnDiagonal | src/main/model/pieces/Pawn.java:34-61 | one step diagonally forward is allowed exactly onto an occupied square, or onto the en-passant tile with the square beside the pawn occupied |
| JavaPieces.KingStepMeaning | src/main/model/pieces/King.java:36-38 | the king's two step tests accept exactly the eight neighbouring squares |
| JavaPieces.KingMoves | src/main/model/pieces/King.java:36-61 | a king moves to a neighbouring square, or castles along its own row onto column 2 or 6 on its first move, past an empty target, not in check on the square crossed |
| JavaBoardLists.FirstIndex | src/main/model/BoardList.java:25-32 | the index of the first entry with the name, or -1 exactly when no entry has it |
| JavaBoardLists.FirstIndexAppend | src/main/model/BoardList.java:19-32 | adding a board keeps every earlier lookup, and the new board is found only by a name no earlier board has |
| JavaBoardLists.FirstIndexRemoveLater | src/main/model/BoardList.java:25-40 | removing an entry behind the first one with a name leaves that name's lookup unchanged |
| JavaBoardLists.BoardList.Names | src/main/model/BoardList.java:25-32 | the boards' names, one per board, in list order |
| JavaBoardLists.BoardList.constructor | src/main/model/BoardList.java:15-17 | a new list holds no boards |
| JavaBoardLists.BoardList.AddBoard | src/main/model/BoardList.java:19-21 | addBoard appends the board at the end |
| JavaBoardLists.BoardList.GetBoardNamed | src/main/model/BoardList.java:25-32 | getBoard(name) returns the first board with that name, or a fresh new board named "New Board" when there is none |
| JavaBoardLists.BoardList.GetBoardAt | src/main/model/BoardList.java:34-36 | getBoard(i) is entry i exactly when i is in range; otherwise nothing (the exception) |
| JavaBoardLists.BoardList.RemoveBoard | src/main/model/BoardList.java:38-40 | removeBoard(i) deletes entry i and keeps the others' order; out of range it throws and changes nothing |
| JavaBoardLists.BoardList.GetBoards | src/main/model/BoardList.java:42-44 | getBoards returns the list itself |

## Left out

C++ generation:
- I/O and the front ends are not part of this model: the UCI loop, the GUI and `main`.
- Fen.ParseInt: reads a clock field that is an optional sign followed by decimal digits. Any other field reads as 0. `>> int`'s handling of a digit prefix followed by other characters, and of its stream failure state for the fields after it, is not modelled.
- Zobrist: the key table is a parameter. Its pseudo-random generation in src/zobrist.cpp is not part of this model.
- Zobrist.PieceIndex: the body of `pieceIndex` is not among these sources; src/position.cpp:278 and 303-313 only call it. The mapping used (piece code minus 1, plus 6 for Black) is an assumption that fits the 12-row `pieceKeys[12][64]` table of include/zobrist.h.
- `Position::updateZobristHash` (src/position.cpp:296-333) is not modelled, because no operation of the core calls it. `Zobrist.HashAfterSet` and `Zobrist.HashAfterTurn` state how the hash changes square by square and at a turn.
- The neural-network input tensor is not modelled: `fillPlane`, `setPiecePlane`, `clearPiecePlanes` and the tensor fields of `MoveContext`. It is floating point and no rule reads it. `Types.TensorIndex` models only the index arithmetic.
- Integer overflow is not modelled. The clocks, the scores and the engines' `INF` are unbounded integers.
- Engines.Minimax: `INF`, `BLACK_WIN_SCORE` and `WHITE_WIN_SCORE` are parameters, because their values are in a header that is not part of this model.
- Engines.Minimax: requires a depth of at least 1. At depth 0 the source calls `negaMaxAlphaBeta(-1, ...)`, whose `depth == 0` test never holds, so the recursion ends only at a game-over position.
- Engines.SearchChild: `Position::movePiece` (which returns a context) and `Position::unmovePiece` are not part of these sources. The probe uses `MoveMaker`'s movePiece and unmovePiece, and hands the turn back before unmovePiece. If `Position::unmovePiece` restores the turn from the context, as `MoveMaker::unmovePiece` does, then the source's order (unmovePiece, then changeTurn) would leave the turn flipped after every probe. The model does not decide this.
- Validation.IsValidMove requires a sane position: every square holds a well-formed piece, and the en-passant target is unset or an empty square on row 2 or row 5. This is the state that FEN import of a well-formed record and legal play produce, and only on such a state does the make-and-unmake probe restore the position exactly. The same requirement is carried by the methods that probe through it: `Validation.GetLegalMoves`, `Validation.AreThereLegalMoves`, `Validation.IsInCheckmate`, `Validation.IsInStalemate`, the `ChessBoards` queries, both engines' searches and `MoveParsers.MoveStringToMove`.
- ChessBoards.MakeMove: requires that a move carrying a promotion piece goes to the first or last row, as `getLegalMoves` builds them. A promotion piece on any other pawn move takes `promotePawn`'s path, which skips the en-passant removal.
- ChessEngines.Minimax: returns an `Option`. `None` stands for the default-constructed `bestMove` the source returns when no move scores above `-INF`.
- Engines.NegaMaxAlphaBeta reads game over as `Position::getIsGameOver`, which computes checkmate or stalemate of the side to move. `ChessEngines.NegaMax` reads the stored `isGameOver` flag, because `ChessBoard::getIsGameOver` is not part of these sources and `ChessBoard::makeMove` keeps that flag.
- MoveMaker.GetMoveContext: src/move_maker.cpp:36-54 never assigns the context's `previousHash` (include/move_maker.h:24), so it is left uninitialised, and it leaves the moved piece at its default. The model sets the hash to 0 and the piece to NO_Piece (`MoveRules.MakerContext`). `unmovePiece` reads neither field (`MoveRules.UnmoveIgnoresMoverAndHash`). Only `Position::getMoveContext` (src/position.cpp:213) copies the hash.

Java generation:
- Persistence and presentation are not modelled: `toJson`, the JSON reader and writer, `ChessGame`, `ChessBot`, `EventLog`, `Event`, `CompressedBoard`, the Swing UI and the piece sprites (`ImageIO`, `paint`).
- `Board`'s `checkScanner` field is not modelled. The scanner is built from the board (`JavaScanners.CheckScanner.constructor`), and no rule of `Board` reads the field.
- The trivial getters and setters of `Board` are not modelled (the name, the castling strings, the turn, the en-passant column). `SetPosition` and `getPiece` are modelled.
- canXShortCastle and `canXLongCastle` are not modelled, because they are stubs that return false.
- `CheckScanner.noLegalMoves`, `kingHasNoMoves`, `canAttackerBeCaptured`, `canAttackerBeBlocked` and friends (src/main/model/CheckScanner.java:239-382) are not part of this model. They are unfinished. `JavaScanners.CheckScanner.IsCheckMated` takes the answer of `noLegalMoves` as a parameter.
- JavaScanners.CheckScanner.IsChecked: requires the king's square to be on the board. With no king, the source calls `isInCheck(-1, -1, ...)`, and the rook scan then indexes the array at -1 and throws.
- JavaScanners.CheckScanner.IsInCheck: requires the square to be on the board, for the same reason.
- JavaScanners.CheckScanner.FindKingCol and `FindKingRow` share one double loop, `FindKing`, which the source writes out twice.
- JavaBoards.Board.PlacePiece: requires coordinates on the board. In the source an off-board coordinate throws `ArrayIndexOutOfBoundsException`.
- JavaBoards.Board.AssignPieceToSquare: requires coordinates on the board, for the same reason.
- JavaBoards.Board.SetPosition: requires an 8x8 array. The source accepts any array, and later reads of a smaller one throw.
- JavaBoards.Board.SamePosition: requires the other array to be at least 8x8. A smaller one throws in the source.
- JavaBoards.Board.IsLegalBishopMove: scans the path only for a diagonal move. The source scans whatever the move, and can throw (Finding 7 below).
- JavaBoardLists.BoardList.GetBoards: returns the sequence of boards. The source returns the list object itself, so a caller's changes to it change the `BoardList`. That aliasing is not modelled.
- JavaBoardLists.BoardList.GetBoardAt: the `IndexOutOfBoundsException` of an index out of range is `None`.
- JavaBoardLists.BoardList.RemoveBoard: the same exception is the returned flag `thrown`.
- JavaPieces: the board the GUI pieces query is not part of these sources. It is the value `Tiles`: an occupancy map, `getTileNum`, `enPassantTile` and the answer of `checkScanner.isKingChecked` for each square.
- JavaPieces.KingMoves: `King.canCastle` checks neither the corner piece's kind and colour nor whether the king is in check on its own square. The model follows the code.

## Findings

| source | as written | input that shows it | evidently intended | confidence | as-written member | corrected member |
|---|---|---|---|---|---|---|
| src/chess_engine.cpp:55-59 | `negaMax` probes each move with `ChessBoard::movePiece`, which does not hand the turn over, so every level of the search lists the moves of the side that was to move at the root | any position with a legal move: after each probe the same side is to move again | hand the turn over after each probe and back before `unmovePiece`, as src/engine.cpp:65-69 does, so the sides alternate. The corrected tree is the whole search of src/engine.cpp, so it also differs in two further ways: leaves are scored for the side to move (`evaluatePositionForColor`, src/engine.cpp:54-57) where src/chess_engine.cpp:46-47 scores every leaf with the absolute `evaluateBoard`, and game over is computed from the position (`Position::getIsGameOver`, src/position.cpp:253-258) rather than read from the stored flag | high; not executed | ChessEngines.BoardTreeKeepsMover (on ChessEngines.BoardTree) | ChessEngines.CorrectedTreeAlternates (on ChessEngines.CorrectedTree) |
| src/move_maker.cpp:244-253 | `redoMove` makes the board move again and flips the turn, but leaves the half-move clock and the full-move number where `undoMove` restored them | from a position, `makeMove` of a quiet knight move, `undoMove`, `redoMove`: the half-move clock differs from the one `makeMove` left | redo returns exactly to the position after `makeMove`, clocks included | high; not executed | MoveRules.UndoRedoDiffers (on MoveMaker.RedoMove) | MoveRules.UndoRedoCorrected (on MoveMaker.RedoMoveCorrected) |
| src/move_parser.cpp:14-33, 57-115 | the move strings are all lower case and the input is lowercased, so a b-pawn capture and a bishop capture on the same square print the same string | 4k3/8/8/8/8/2n5/1P1B4/4K3 w - - 0 1: bxc3 and Bxc3 both print "bxc3", and moveStringToMove never returns the bishop capture when the pawn capture is listed first | the strings and the lower-casing of the input stay, so every lower-case input the source accepts still parses; where a bishop move and another move share the string, a leading upper-case 'B', the bishop's letter in section 8.2.3 of the PGN Standard, selects the bishop move and any other first letter the other move | medium; not executed | MoveParsers.PawnAndBishopShareString and MoveParsers.BishopCaptureUnreachable (on MoveParsers.ParseAmong) | MoveParsers.CorrectedKeepsInputs, MoveParsers.CorrectedAgreesUnshared, MoveParsers.CorrectedShadowBishop and MoveParsers.CorrectedShadowPawn (on MoveParsers.ParseAmongCorrected) |
| src/main/model/Board.java:275-289 | every branch of `isLegalCastleMove` asks for from-row 0, Black's branches included, so Black's rights let White's king castle and Black's king never castles | a White king on e1 with White's rights "" and Black's "RKR" may castle to g1, and a Black king on e8 with every right may not castle to g8 | Black's branches ask for row 7 | high; not executed | JavaRuleLemmas.CastleRuleReadsWrongRow (on JavaRules.CastleRule) | JavaRuleLemmas.CastleCorrectedUsesOwnRights (on JavaRuleLemmas.CastleRuleCorrected) |
| src/main/model/Board.java:157-159 | the en-passant operand of `isLegalPawnMove` tests only the target square, not that the pawn steps diagonally forward onto it | with the en-passant column 0, a White pawn on h2 (column 7, row 1) may move to a6 (column 0, row 5) | the en-passant capture is also a diagonal step of one row forward | high; not executed | JavaRuleLemmas.PawnJumpsToEnPassantSquare (on JavaRules.PawnRule) | JavaRuleLemmas.PawnCorrectedMovesForward (on JavaRuleLemmas.PawnRuleCorrected) |
| src/main/model/Board.java:164-173 | `enPassantCaptures` runs the pawn rule on whatever piece moves, so any piece that reaches the en-passant square removes the pawn | after Black's a7-a5, a White knight on c5 moving to a6 removes the Black pawn on a5 | only a pawn captures en passant | high; not executed | JavaRuleLemmas.KnightCapturesEnPassant (on JavaRules.EnPassantCaptured) | JavaRuleLemmas.EnPassantCorrectedOnlyPawns (on JavaRuleLemmas.EnPassantCapturedCorrected) |
| src/main/model/Board.java:196-218 | `isLegalBishopMove` scans the path whatever the move, stepping the column towards the target and the row by the row direction, so for a move off the diagonals the row can leave the board | a queen on (0, 6) asked about (7, 7) on an otherwise empty board: the scan reads row 8 and throws `ArrayIndexOutOfBoundsException` | examine the path only of a diagonal move | high; not executed | JavaRuleLemmas.BishopScanLeavesBoard (on JavaRuleLemmas.BishopRuleAsWritten) | JavaRuleLemmas.BishopRuleGuarded (on JavaRules.BishopRule) |
| src/main/model/CheckScanner.java:133-135, 187-189 | `isAttackedByRook` and `isAttackedByBishop` stop at the first line that holds an attacker, so a second attacker along a line never reaches `setCheckingPiece` and no double check is recorded | a White king on e1 (4, 0) with Black rooks on a1 (0, 0) and e8 (4, 7): one checking piece, `isDoubleCheck` false | every ray is scanned, so any two attacked lines record a double check | medium; not executed | JavaScanRules.DoubleCheckMissed (on JavaScanRules.Hits) | JavaScanRules.DoubleCheckCorrected and JavaScanRules.CorrectedSameAnswer (on JavaScanRules.HitsCorrected) |
