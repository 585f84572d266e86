/** The rules of the Java generation's Board as functions of a board value.  Pieces are integer
    codes whose sign is the colour (positive White, negative Black, 0 empty); the position is
    indexed [col][row] with White's pieces starting on rows 0 and 1.  The castling rights are
    the strings "RKR", "KR", "RK" and "" (the rooks still at home, and the king). */
module JavaRules {
  import opened JavaMoves

  // The codes of Piece.java.
  const WhiteSign: int := 1
  const BlackSign: int := -1
  const NoneCode: int := 0
  const PawnCode: int := 1
  const KnightCode: int := 2
  const BishopCode: int := 3
  const RookCode: int := 4
  const QueenCode: int := 5
  const KingCode: int := 6

  /** position[col][row], flattened column by column: square (col, row) is entry col * 8 + row. */
  type Grid = g: seq<int> | |g| == 64 witness seq(64, _ => 0)

  function Cell(g: Grid, col: int, row: int): int
    requires InRange(col) && InRange(row)
  {
    g[col * 8 + row]
  }

  function Put(g: Grid, col: int, row: int, v: int): (h: Grid)
    requires InRange(col) && InRange(row)
  {
    g[col * 8 + row := v]
  }

  /** Writing one square changes that square and no other. */
  lemma CellPut(g: Grid, col: int, row: int, v: int, c: int, r: int)
    requires InRange(col) && InRange(row) && InRange(c) && InRange(r)
    ensures Cell(Put(g, col, row, v), c, r) == if c == col && r == row then v else Cell(g, c, r)
  {
    if c != col {
      assert c * 8 + r != col * 8 + row by {
        if c < col { assert c * 8 + r <= col * 8 - 1; } else { assert c * 8 + r >= col * 8 + 8; }
      }
    }
  }

  /** Two boards are equal when they agree square by square. */
  lemma GridsEqual(g: Grid, h: Grid)
    requires forall c, r :: InRange(c) && InRange(r) ==> Cell(g, c, r) == Cell(h, c, r)
    ensures g == h
  {
    forall k | 0 <= k < 64
      ensures g[k] == h[k]
    {
      assert k == (k / 8) * 8 + k % 8;
      assert Cell(g, k / 8, k % 8) == Cell(h, k / 8, k % 8);
    }
  }

  /** The board clearBoard leaves. */
  function EmptyGrid(): Grid {
    seq(64, _ => NoneCode)
  }

  /** The fields of a Board that its rules read and its moves change (the name is neither). */
  datatype BoardState = BoardState(position: Grid, isWhitesTurn: bool, canWhiteCastle: string,
                                   canBlackCastle: string, enPassantCol: int)

  function Abs(x: int): nat {
    if x < 0 then -x else x
  }

  /** (int) Math.signum. */
  function Signum(x: int): int {
    if x > 0 then 1 else if x < 0 then -1 else 0
  }

  // ---------------------------------------------------------------------------------------------
  // The new board

  /** assignPieceToSquare: a pawn on rows 1 and 6, otherwise the back-rank piece that col % 7
      selects (0 rook, 1 and 6 knight, 2 and 5 bishop, 3 queen, 4 king), times the colour. */
  function AssignedPiece(col: int, row: int, color: int): int
    requires InRange(col)
  {
    if row == 1 || row == 6 then PawnCode * color
    else
      var piece := col % 7;
      if piece == 0 then RookCode * color
      else if piece == 1 || piece == 6 then KnightCode * color
      else if piece == 2 || piece == 5 then BishopCode * color
      else if piece == 3 then QueenCode * color
      else KingCode * color
  }

  /** The colour createNewBoard hands to assignPieceToSquare for a row: none for rows 2..5,
      White below, Black above. */
  function StartColor(row: int): int {
    if 2 <= row <= 5 then NoneCode else if row < 2 then WhiteSign else BlackSign
  }

  function StartCell(col: int, row: int): int
    requires InRange(col)
  {
    AssignedPiece(col, row, StartColor(row))
  }

  function StartGrid(): Grid {
    seq(64, k requires 0 <= k < 64 => StartCell(k / 8, k % 8))
  }

  /** The state the Board constructors set up. */
  function NewBoardState(): BoardState {
    BoardState(StartGrid(), true, "RKR", "RKR", -1)
  }

  /** The piece order of a back rank, from column 0 to column 7. */
  function BackRank(col: int): int {
    if col == 0 || col == 7 then RookCode
    else if col == 1 || col == 6 then KnightCode
    else if col == 2 || col == 5 then BishopCode
    else if col == 3 then QueenCode
    else KingCode
  }

  /** The square (col, row) of the new board holds createNewBoard's piece for it. */
  lemma StartCellAt(col: int, row: int)
    requires InRange(col) && InRange(row)
    ensures Cell(StartGrid(), col, row) == StartCell(col, row)
  {
    assert (col * 8 + row) / 8 == col && (col * 8 + row) % 8 == row;
  }

  /** The new board: White's pieces (positive) fill rows 0 and 1, Black's (negative) rows 6
      and 7, rows 2..5 are empty; pawns stand on rows 1 and 6, the back ranks read R N B Q K B
      N R from column 0 (column 7's `7 % 7 == 0` gives its rook), and row 7 - r is row r with
      the colours exchanged. */
  lemma StartLayout(col: int, row: int)
    requires InRange(col) && InRange(row)
    ensures var p := Cell(StartGrid(), col, row);
      && (row <= 1 ==> p > 0)
      && (row >= 6 ==> p < 0)
      && (2 <= row <= 5 <==> p == NoneCode)
      && (row == 1 || row == 6 ==> Abs(p) == PawnCode)
      && (row == 0 || row == 7 ==> Abs(p) == BackRank(col))
      && Cell(StartGrid(), col, 7 - row) == -p
  {
    StartCellAt(col, row);
    StartCellAt(col, 7 - row);
  }

  // ---------------------------------------------------------------------------------------------
  // The per-piece rules

  /** isLegalPawnMove.  `pawn` is the code on the from-square, used as the forward step; the
      rule is also asked about non-pawns (by enPassantCaptures), and then steps by that code.
      The en-passant clause checks only the destination: the target column is the en-passant
      column and the target row is the row behind the double-stepped pawn. */
  function PawnRule(s: BoardState, m: Move): bool {
    var g := s.position;
    var pawn := Cell(g, m.fromCol, m.fromRow);
    var hasNotMoved := if pawn > 0 then m.fromRow == 1 else m.fromRow == 6;
    var enPassantRow := if pawn > 0 then 5 else 2;
    var oneStep := m.fromCol == m.toCol && m.fromRow + pawn == m.toRow
                   && Cell(g, m.toCol, m.toRow) == NoneCode;
    var twoStep := m.fromCol == m.toCol && m.fromRow + 2 * pawn == m.toRow && hasNotMoved
                   && Cell(g, m.fromCol, m.fromRow + pawn) == 0 && Cell(g, m.toCol, m.toRow) == NoneCode;
    var captures := m.fromRow + pawn == m.toRow && (m.fromCol == m.toCol - 1 || m.fromCol == m.toCol + 1)
                    && Cell(g, m.toCol, m.toRow) * pawn < 0;
    var enPassant := s.enPassantCol == m.toCol && m.toRow == enPassantRow;
    oneStep || twoStep || captures || enPassant
  }

  /** isLegalKnightMove. */
  function KnightRule(m: Move): bool {
    Abs(m.toRow - m.fromRow) * Abs(m.toCol - m.fromCol) == 2
  }

  /** Walking k steps from x in direction dir (-1, 0 or 1). */
  function Walk(x: int, dir: int, k: int): int {
    if dir > 0 then x + k else if dir < 0 then x - k else x
  }

  /** The n - 1 squares strictly after (col, row) along (colDir, rowDir) are all empty. */
  ghost predicate LineClear(g: Grid, col: int, row: int, colDir: int, rowDir: int, n: nat)
  {
    forall k :: 0 < k < n ==>
      InRange(Walk(col, colDir, k)) && InRange(Walk(row, rowDir, k))
      && Cell(g, Walk(col, colDir, k), Walk(row, rowDir, k)) == NoneCode
  }

  /** Walking from x towards `to` stays on the board, arrives after exactly |to - x| steps, and
      each step moves by the sign of the distance. */
  lemma WalkTowards(x: int, to: int, k: int)
    requires InRange(x) && InRange(to) && 0 <= k <= Abs(to - x)
    ensures InRange(Walk(x, Signum(to - x), k))
    ensures Walk(x, Signum(to - x), k) == to <==> k == Abs(to - x)
    ensures Walk(x, Signum(to - x), k) + Signum(to - x) == Walk(x, Signum(to - x), k + 1)
  {
  }

  lemma LineClearStep(g: Grid, col: int, row: int, colDir: int, rowDir: int, k: nat)
    requires LineClear(g, col, row, colDir, rowDir, k)
    requires InRange(Walk(col, colDir, k)) && InRange(Walk(row, rowDir, k))
    requires Cell(g, Walk(col, colDir, k), Walk(row, rowDir, k)) == NoneCode
    ensures LineClear(g, col, row, colDir, rowDir, k + 1)
  {
  }

  lemma LineBlocked(g: Grid, col: int, row: int, colDir: int, rowDir: int, k: nat, n: nat)
    requires 0 < k < n
    requires InRange(Walk(col, colDir, k)) && InRange(Walk(row, rowDir, k))
    requires Cell(g, Walk(col, colDir, k), Walk(row, rowDir, k)) != NoneCode
    ensures !LineClear(g, col, row, colDir, rowDir, n)
  {
  }

  /** isLegalBishopMove: a diagonal move whose intermediate squares are empty.  The path is
      examined only for diagonal moves. */
  ghost predicate BishopRule(g: Grid, m: Move) {
    Abs(m.fromCol - m.toCol) == Abs(m.fromRow - m.toRow)
    && LineClear(g, m.fromCol, m.fromRow, Signum(m.toCol - m.fromCol), Signum(m.toRow - m.fromRow),
                 Abs(m.toCol - m.fromCol))
  }

  /** isRookPathEmpty: along the from-row when the row does not change, otherwise along the
      from-column (also for a move that changes both). */
  ghost predicate RookPathEmpty(g: Grid, m: Move) {
    var rowDir := Signum(m.toRow - m.fromRow);
    if rowDir == 0 then LineClear(g, m.fromCol, m.fromRow, Signum(m.toCol - m.fromCol), 0, Abs(m.toCol - m.fromCol))
    else LineClear(g, m.fromCol, m.fromRow, 0, rowDir, Abs(m.toRow - m.fromRow))
  }

  /** isLegalRookMove. */
  ghost predicate RookRule(g: Grid, m: Move) {
    (m.fromCol == m.toCol || m.fromRow == m.toRow) && RookPathEmpty(g, m)
  }

  /** isLegalQueenMove. */
  ghost predicate QueenRule(g: Grid, m: Move) {
    BishopRule(g, m) || RookRule(g, m)
  }

  predicate KingSideRights(rights: string) {
    rights == "KR" || rights == "RKR"
  }

  predicate QueenSideRights(rights: string) {
    rights == "RK" || rights == "RKR"
  }

  /** isLegalCastleMove as written: every branch, Black's included, asks for the from-row 0. */
  function CastleRule(s: BoardState, m: Move): bool {
    var toCol := m.toCol;
    var row := m.fromRow;
    if toCol == 6 && row == 0 && KingSideRights(s.canWhiteCastle) then true
    else if toCol == 2 && row == 0 && QueenSideRights(s.canWhiteCastle) then true
    else if toCol == 6 && row == 0 && KingSideRights(s.canBlackCastle) then true
    else if toCol == 2 && row == 0 && QueenSideRights(s.canBlackCastle) then true
    else false
  }

  /** isLegalKingMove: one step sideways, up or down, or diagonally, or a castle. */
  function KingRule(s: BoardState, m: Move): bool {
    var isLeftOrRight := Abs(m.toCol - m.fromCol) == 1 && m.fromRow == m.toRow;
    var isUpOrDown := Abs(m.toRow - m.fromRow) == 1 && m.fromCol == m.toCol;
    var isDiagonal := Abs(m.toCol - m.fromCol) == 1 && Abs(m.toRow - m.fromRow) == 1;
    isLeftOrRight || isUpOrDown || isDiagonal || CastleRule(s, m)
  }

  /** The switch of isLegalMove: the rule of the piece's kind; any other code moves nowhere. */
  ghost predicate PieceRule(s: BoardState, m: Move, piece: int) {
    if piece == PawnCode || piece == -PawnCode then PawnRule(s, m)
    else if piece == KnightCode || piece == -KnightCode then KnightRule(m)
    else if piece == BishopCode || piece == -BishopCode then BishopRule(s.position, m)
    else if piece == RookCode || piece == -RookCode then RookRule(s.position, m)
    else if piece == QueenCode || piece == -QueenCode then QueenRule(s.position, m)
    else if piece == KingCode || piece == -KingCode then KingRule(s, m)
    else false
  }

  /** isLegalMove: the mover belongs to the side to move, it goes somewhere, the target is
      empty or hostile (the product of the two codes is not positive), and its rule allows it. */
  ghost predicate LegalMove(s: BoardState, m: Move) {
    var piece := Cell(s.position, m.fromCol, m.fromRow);
    var rightTurnToMove := (piece > 0 && s.isWhitesTurn) || (piece < 0 && !s.isWhitesTurn);
    var hasPieceMoved := m.fromCol != m.toCol || m.fromRow != m.toRow;
    var toEnemyOrEmptySquare := piece * Cell(s.position, m.toCol, m.toRow) <= 0;
    rightTurnToMove && hasPieceMoved && toEnemyOrEmptySquare && PieceRule(s, m, piece)
  }

  // ---------------------------------------------------------------------------------------------
  // Making a move

  /** enPassantCaptures: when the pawn rule holds for the move (whatever stands on the
      from-square) and the mover leaves row 4 (positive mover) or row 3 (otherwise) into the
      en-passant column, the square beside it in that column is emptied. */
  function EnPassantCaptured(s: BoardState, m: Move): Grid {
    if PawnRule(s, m) then
      var pawn := Cell(s.position, m.fromCol, m.fromRow);
      var enPassantRow := if pawn > 0 then 4 else 3;
      if s.enPassantCol == m.toCol && enPassantRow == m.fromRow
      then Put(s.position, s.enPassantCol, enPassantRow, NoneCode)
      else s.position
    else s.position
  }

  /** movePiece(piece, move): the en-passant capture, then the from-square emptied and `piece`
      put on the target. */
  function Moved(s: BoardState, m: Move, piece: int): Grid {
    Put(Put(EnPassantCaptured(s, m), m.fromCol, m.fromRow, NoneCode), m.toCol, m.toRow, piece)
  }

  /** updateEnPassantCol: the column of a pawn (code +1 or -1) that advanced two rows, else -1. */
  function EnPassantColAfter(piece: int, col: int, fromRow: int, toRow: int): int {
    if Abs(piece) == 1 && fromRow + 2 * piece == toRow then col else -1
  }

  /** updateWhiteCastling: the king (6) gives up both sides; the rook (4) leaving (0, 0) gives
      up the queen side, leaving (7, 0) the king side. */
  function WhiteCastlingAfter(rights: string, col: int, row: int, piece: int): string {
    if piece == 6 then ""
    else if piece == 4 then
      if col == 0 && row == 0 then
        if rights == "RKR" then "KR" else if rights == "RK" then "" else rights
      else if col == 7 && row == 0 then
        if rights == "RKR" then "RK" else if rights == "KR" then "" else rights
      else rights
    else rights
  }

  /** updateBlackCastling: the same for the king (-6) and the rook (-4) on row 7. */
  function BlackCastlingAfter(rights: string, col: int, row: int, piece: int): string {
    if piece == -6 then ""
    else if piece == -4 then
      if col == 0 && row == 7 then
        if rights == "RKR" then "KR" else if rights == "RK" then "" else rights
      else if col == 7 && row == 7 then
        if rights == "RKR" then "RK" else if rights == "KR" then "" else rights
      else rights
    else rights
  }

  /** makeMove: nothing changes when isLegalMove fails; otherwise movePiece, the turn passes,
      the mover's colour's castling string is updated from the from-square and the en-passant
      column is recomputed. */
  ghost function MadeMove(s: BoardState, m: Move): BoardState {
    if !LegalMove(s, m) then s
    else
      var piece := Cell(s.position, m.fromCol, m.fromRow);
      BoardState(Moved(s, m, piece), !s.isWhitesTurn,
                 if piece > 0 then WhiteCastlingAfter(s.canWhiteCastle, m.fromCol, m.fromRow, piece) else s.canWhiteCastle,
                 if piece > 0 then s.canBlackCastle else BlackCastlingAfter(s.canBlackCastle, m.fromCol, m.fromRow, piece),
                 EnPassantColAfter(piece, m.fromCol, m.fromRow, m.toRow))
  }

  // ---------------------------------------------------------------------------------------------
  // Evaluation, promotion, display

  /** pieceToVal: 1, 3, 3, 5, 9 and 105 by kind, negative for Black, 0 for anything else. */
  function PieceToVal(piece: int): int {
    var val :=
      if piece == 1 || piece == -1 then 1
      else if piece == 2 || piece == -2 || piece == 3 || piece == -3 then 3
      else if piece == 4 || piece == -4 then 5
      else if piece == 5 || piece == -5 then 9
      else if piece == 6 || piece == -6 then 105
      else 0;
    if piece < 0 then val * -1 else val
  }

  /** The sum of pieceToVal over the first n squares in the order evaluatePos visits them
      (column by column, rows upward). */
  function EvalPrefix(g: Grid, n: int): int
    requires 0 <= n <= 64
  {
    if n == 0 then 0 else EvalPrefix(g, n - 1) + PieceToVal(g[n - 1])
  }

  /** evaluatePos. */
  function Evaluation(g: Grid): int {
    EvalPrefix(g, 64)
  }

  /** isPawnToPromote: a White pawn on row 7 or a Black pawn on row 0. */
  function PawnToPromote(g: Grid, col: int, row: int): bool
    requires InRange(col) && InRange(row)
  {
    (row == 7 && Cell(g, col, row) == PawnCode) || (row == 0 && Cell(g, col, row) == -PawnCode)
  }

  /** pieceToString: "0" for empty, the letter of the kind otherwise ("K" also for any code
      beyond the six kinds), lower-cased for a negative code. */
  function PieceToString(piece: int): string {
    var val :=
      if piece == 0 then "0"
      else if piece == -1 || piece == 1 then "P"
      else if piece == -2 || piece == 2 then "N"
      else if piece == -3 || piece == 3 then "B"
      else if piece == -4 || piece == 4 then "R"
      else if piece == -5 || piece == 5 then "Q"
      else "K";
    if piece < 0 then Lower(val) else val
  }

  /** toLowerCase on the one-letter strings pieceToString produces. */
  function Lower(s: string): string {
    if s == "P" then "p" else if s == "N" then "n" else if s == "B" then "b"
    else if s == "R" then "r" else if s == "Q" then "q" else if s == "K" then "k" else s
  }
}
