/** What the Java generation's rules promise, proved about the functions of JavaRules, and the
    four places where the rules as written disagree with chess (each with the input that shows
    it and a corrected rule). */
module JavaRuleLemmas {
  import opened JavaMoves
  import opened JavaRules

  // ---------------------------------------------------------------------------------------------
  // Knight, move admission

  /** A knight's move is the product test |dr| * |dc| == 2, which holds exactly for the eight
      L-shaped offsets. */
  lemma KnightRuleOffsets(m: Move)
    ensures KnightRule(m) <==>
      (Abs(m.toCol - m.fromCol) == 1 && Abs(m.toRow - m.fromRow) == 2)
      || (Abs(m.toCol - m.fromCol) == 2 && Abs(m.toRow - m.fromRow) == 1)
  {
    var dr := Abs(m.toRow - m.fromRow);
    var dc := Abs(m.toCol - m.fromCol);
    if dr == 0 || dc == 0 {
      assert dr * dc == 0;
    } else if dr >= 3 {
      assert dr * dc >= 3 * dc;
    } else if dc >= 3 {
      assert dr * dc >= dr * 3;
    } else if dr == 2 && dc == 2 {
      assert dr * dc == 4;
    }
  }

  /** isLegalMove admits only a piece of the side to move, of one of the six kinds, that
      leaves its square for an empty square or one of the other colour. */
  lemma LegalMoveFacts(s: BoardState, m: Move)
    requires LegalMove(s, m)
    ensures var piece := Cell(s.position, m.fromCol, m.fromRow);
      var target := Cell(s.position, m.toCol, m.toRow);
      && (s.isWhitesTurn ==> piece > 0) && (!s.isWhitesTurn ==> piece < 0)
      && 1 <= Abs(piece) <= 6
      && (m.fromCol != m.toCol || m.fromRow != m.toRow)
      && (target == NoneCode || (target > 0) != (piece > 0))
  {
  }

  // ---------------------------------------------------------------------------------------------
  // makeMove

  /** An illegal move leaves the board as it was. */
  lemma IllegalMoveChangesNothing(s: BoardState, m: Move)
    requires !LegalMove(s, m)
    ensures MadeMove(s, m) == s
  {
  }

  /** The square a legal move changes besides its two ends: the one beside the from-square in
      the en-passant column. */
  predicate EnPassantVictim(s: BoardState, m: Move, c: int, r: int) {
    c == s.enPassantCol && r == m.fromRow
  }

  lemma MovedSquare(s: BoardState, m: Move, piece: int, c: int, r: int)
    requires InRange(c) && InRange(r)
    ensures var h := Moved(s, m, piece);
      && (c == m.toCol && r == m.toRow ==> Cell(h, c, r) == piece)
      && (c == m.fromCol && r == m.fromRow && (c != m.toCol || r != m.toRow) ==> Cell(h, c, r) == NoneCode)
      && ((c != m.fromCol || r != m.fromRow) && (c != m.toCol || r != m.toRow) && !EnPassantVictim(s, m, c, r)
          ==> Cell(h, c, r) == Cell(s.position, c, r))
  {
    var e := EnPassantCaptured(s, m);
    var f := Put(e, m.fromCol, m.fromRow, NoneCode);
    CellPut(f, m.toCol, m.toRow, piece, c, r);
    CellPut(e, m.fromCol, m.fromRow, NoneCode, c, r);
    if PawnRule(s, m) && s.enPassantCol == m.toCol {
      var row := if Cell(s.position, m.fromCol, m.fromRow) > 0 then 4 else 3;
      if row == m.fromRow {
        CellPut(s.position, s.enPassantCol, row, NoneCode, c, r);
      }
    }
  }

  /** A legal move passes the turn, puts the mover on the target and empties the from-square;
      no other square changes except the one beside the from-square in the en-passant column,
      and the new en-passant column is none or the mover's column. */
  lemma MadeMoveEffects(s: BoardState, m: Move)
    requires LegalMove(s, m)
    ensures var t := MadeMove(s, m);
      var piece := Cell(s.position, m.fromCol, m.fromRow);
      && t.isWhitesTurn == !s.isWhitesTurn
      && Cell(t.position, m.toCol, m.toRow) == piece
      && Cell(t.position, m.fromCol, m.fromRow) == NoneCode
      && (forall c, r :: InRange(c) && InRange(r) && (c != m.fromCol || r != m.fromRow)
            && (c != m.toCol || r != m.toRow) && !EnPassantVictim(s, m, c, r)
            ==> Cell(t.position, c, r) == Cell(s.position, c, r))
      && (t.enPassantCol == -1 || t.enPassantCol == m.fromCol)
  {
    var piece := Cell(s.position, m.fromCol, m.fromRow);
    MovedSquare(s, m, piece, m.toCol, m.toRow);
    MovedSquare(s, m, piece, m.fromCol, m.fromRow);
    forall c, r | InRange(c) && InRange(r) && (c != m.fromCol || r != m.fromRow)
        && (c != m.toCol || r != m.toRow) && !EnPassantVictim(s, m, c, r)
      ensures Cell(MadeMove(s, m).position, c, r) == Cell(s.position, c, r)
    {
      MovedSquare(s, m, piece, c, r);
    }
  }

  /** updateEnPassantCol: the column is set exactly after a pawn's two-row advance, and then it
      is the pawn's column. */
  lemma EnPassantColMeaning(piece: int, col: int, fromRow: int, toRow: int)
    ensures EnPassantColAfter(piece, col, fromRow, toRow) != -1 <==>
      col != -1 && (piece == PawnCode || piece == -PawnCode) && toRow == fromRow + 2 * piece
    ensures EnPassantColAfter(piece, col, fromRow, toRow) in {-1, col}
  {
  }

  // ---------------------------------------------------------------------------------------------
  // Castling rights

  /** The four values the castling strings take. */
  predicate WellFormedRights(rights: string) {
    rights == "RKR" || rights == "KR" || rights == "RK" || rights == ""
  }

  /** Castling rights are only ever given up: the strings stay well formed, a side that is not
      allowed before is not allowed after, and a king move gives up both sides. */
  lemma CastlingOnlyShrinks(rights: string, col: int, row: int, piece: int)
    requires WellFormedRights(rights)
    ensures var w := WhiteCastlingAfter(rights, col, row, piece);
      && WellFormedRights(w)
      && (KingSideRights(w) ==> KingSideRights(rights))
      && (QueenSideRights(w) ==> QueenSideRights(rights))
      && (piece == KingCode ==> w == "")
    ensures var b := BlackCastlingAfter(rights, col, row, piece);
      && WellFormedRights(b)
      && (KingSideRights(b) ==> KingSideRights(rights))
      && (QueenSideRights(b) ==> QueenSideRights(rights))
      && (piece == -KingCode ==> b == "")
  {
  }

  /** A rook leaving its home corner gives up exactly that side. */
  lemma RookLeavesCorner(rights: string)
    requires WellFormedRights(rights)
    ensures !QueenSideRights(WhiteCastlingAfter(rights, 0, 0, RookCode))
    ensures KingSideRights(WhiteCastlingAfter(rights, 0, 0, RookCode)) == KingSideRights(rights)
    ensures !KingSideRights(WhiteCastlingAfter(rights, 7, 0, RookCode))
    ensures QueenSideRights(WhiteCastlingAfter(rights, 7, 0, RookCode)) == QueenSideRights(rights)
    ensures !QueenSideRights(BlackCastlingAfter(rights, 0, 7, -RookCode))
    ensures KingSideRights(BlackCastlingAfter(rights, 0, 7, -RookCode)) == KingSideRights(rights)
    ensures !KingSideRights(BlackCastlingAfter(rights, 7, 7, -RookCode))
    ensures QueenSideRights(BlackCastlingAfter(rights, 7, 7, -RookCode)) == QueenSideRights(rights)
  {
  }

  /** A move changes only its own colour's castling string. */
  lemma MoveKeepsOpponentRights(s: BoardState, m: Move)
    ensures var piece := Cell(s.position, m.fromCol, m.fromRow);
      && (piece > 0 ==> MadeMove(s, m).canBlackCastle == s.canBlackCastle)
      && (piece < 0 ==> MadeMove(s, m).canWhiteCastle == s.canWhiteCastle)
  {
  }

  // ---------------------------------------------------------------------------------------------
  // Evaluation

  /** Black's pieces count as the negation of White's. */
  lemma PieceToValMirror(piece: int)
    ensures PieceToVal(-piece) == -PieceToVal(piece)
    ensures piece > 0 ==> PieceToVal(piece) >= 0
  {
  }

  /** Changing one square changes the running sum past it by the difference of the values. */
  lemma {:induction false} EvalPrefixUpdate(g: Grid, k: int, v: int, n: int)
    requires 0 <= k < 64 && 0 <= n <= 64
    ensures EvalPrefix(g[k := v], n) ==
      EvalPrefix(g, n) + (if k < n then PieceToVal(v) - PieceToVal(g[k]) else 0)
  {
    if n > 0 {
      EvalPrefixUpdate(g, k, v, n - 1);
    }
  }

  /** placePiece changes evaluatePos by the value placed minus the value removed. */
  lemma EvaluationAfterPut(g: Grid, col: int, row: int, v: int)
    requires InRange(col) && InRange(row)
    ensures Evaluation(Put(g, col, row, v)) ==
      Evaluation(g) + PieceToVal(v) - PieceToVal(Cell(g, col, row))
  {
    EvalPrefixUpdate(g, col * 8 + row, v, 64);
  }

  lemma {:induction false} EmptyPrefix(n: int)
    requires 0 <= n <= 64
    ensures EvalPrefix(EmptyGrid(), n) == 0
  {
    if n > 0 {
      EmptyPrefix(n - 1);
    }
  }

  /** A cleared board evaluates to 0. */
  lemma EmptyEvaluation()
    ensures Evaluation(EmptyGrid()) == 0
  {
    EmptyPrefix(64);
  }

  /** The values of one column's eight squares added up. */
  function ColumnValue(g: Grid, c: int): int
    requires 0 <= c < 8
  {
    PieceToVal(Cell(g, c, 0)) + PieceToVal(Cell(g, c, 1)) + PieceToVal(Cell(g, c, 2)) + PieceToVal(Cell(g, c, 3))
    + PieceToVal(Cell(g, c, 4)) + PieceToVal(Cell(g, c, 5)) + PieceToVal(Cell(g, c, 6)) + PieceToVal(Cell(g, c, 7))
  }

  /** evaluatePos's inner loop over one column. */
  lemma EvalColumn(g: Grid, c: int)
    requires 0 <= c < 8
    ensures EvalPrefix(g, c * 8 + 8) == EvalPrefix(g, c * 8) + ColumnValue(g, c)
  {
    var n := c * 8;
    assert EvalPrefix(g, n + 8) == EvalPrefix(g, n + 7) + PieceToVal(g[n + 7]);
    assert EvalPrefix(g, n + 7) == EvalPrefix(g, n + 6) + PieceToVal(g[n + 6]);
    assert EvalPrefix(g, n + 6) == EvalPrefix(g, n + 5) + PieceToVal(g[n + 5]);
    assert EvalPrefix(g, n + 5) == EvalPrefix(g, n + 4) + PieceToVal(g[n + 4]);
    assert EvalPrefix(g, n + 4) == EvalPrefix(g, n + 3) + PieceToVal(g[n + 3]);
    assert EvalPrefix(g, n + 3) == EvalPrefix(g, n + 2) + PieceToVal(g[n + 2]);
    assert EvalPrefix(g, n + 2) == EvalPrefix(g, n + 1) + PieceToVal(g[n + 1]);
    assert EvalPrefix(g, n + 1) == EvalPrefix(g, n) + PieceToVal(g[n]);
  }

  /** Each column of the new board holds the same pieces for both colours. */
  lemma StartColumnBalanced(c: int)
    requires 0 <= c < 8
    ensures ColumnValue(StartGrid(), c) == 0
  {
    StartLayout(c, 0);
    StartLayout(c, 1);
    StartLayout(c, 2);
    StartLayout(c, 3);
    PieceToValMirror(Cell(StartGrid(), c, 0));
    PieceToValMirror(Cell(StartGrid(), c, 1));
    PieceToValMirror(Cell(StartGrid(), c, 2));
    PieceToValMirror(Cell(StartGrid(), c, 3));
  }

  lemma {:induction false} BalancedPrefix(g: Grid, c: int)
    requires 0 <= c <= 8
    requires forall d :: 0 <= d < c ==> ColumnValue(g, d) == 0
    ensures EvalPrefix(g, c * 8) == 0
  {
    if c > 0 {
      BalancedPrefix(g, c - 1);
      EvalColumn(g, c - 1);
    }
  }

  /** The new board is level: evaluatePos gives 0. */
  lemma StartEvaluation()
    ensures Evaluation(StartGrid()) == 0
  {
    forall d | 0 <= d < 8
      ensures ColumnValue(StartGrid(), d) == 0
    {
      StartColumnBalanced(d);
    }
    BalancedPrefix(StartGrid(), 8);
  }

  // ---------------------------------------------------------------------------------------------
  // Display, promotion

  /** Every square prints as one character: "0" exactly for the empty square, and a Black
      piece prints as the lower case of the White piece of its kind. */
  lemma PieceToStringCases(piece: int)
    ensures |PieceToString(piece)| == 1
    ensures PieceToString(piece) == "0" <==> piece == 0
    ensures piece > 0 ==> PieceToString(-piece) == Lower(PieceToString(piece))
    ensures 1 <= piece <= 6 ==> PieceToString(piece) == ["PNBRQK"[piece - 1]]
  {
  }

  /** isPawnToPromote holds only for a pawn on the far row of its own colour, and never on the
      new board. */
  lemma PromotionMeaning(g: Grid, col: int, row: int)
    requires InRange(col) && InRange(row)
    ensures PawnToPromote(g, col, row) ==>
      (Cell(g, col, row) == PawnCode && row == 7) || (Cell(g, col, row) == -PawnCode && row == 0)
    ensures !PawnToPromote(StartGrid(), col, row)
  {
    StartLayout(col, row);
  }

  // ---------------------------------------------------------------------------------------------
  // Finding 4: isLegalCastleMove reads Black's rights on row 0

  /** A board holding one king. */
  function LoneKing(col: int, row: int, king: int): Grid
    requires InRange(col) && InRange(row)
  {
    Put(EmptyGrid(), col, row, king)
  }

  /** As written: a White king with no castling rights of its own castles on Black's "RKR",
      and a Black king on its home square with every right cannot castle. */
  lemma CastleRuleReadsWrongRow()
    ensures LegalMove(BoardState(LoneKing(4, 0, KingCode), true, "", "RKR", -1), MoveFields(4, 0, 6, 0))
    ensures !LegalMove(BoardState(LoneKing(4, 7, -KingCode), false, "", "RKR", -1), MoveFields(4, 7, 6, 7))
  {
    CellPut(EmptyGrid(), 4, 0, KingCode, 4, 0);
    CellPut(EmptyGrid(), 4, 0, KingCode, 6, 0);
    CellPut(EmptyGrid(), 4, 7, -KingCode, 4, 7);
    CellPut(EmptyGrid(), 4, 7, -KingCode, 6, 7);
  }

  /** Corrected: White castles from row 0 on White's rights, Black from row 7 on Black's. */
  function CastleRuleCorrected(s: BoardState, m: Move): bool {
    var toCol := m.toCol;
    var row := m.fromRow;
    (toCol == 6 && row == 0 && KingSideRights(s.canWhiteCastle))
    || (toCol == 2 && row == 0 && QueenSideRights(s.canWhiteCastle))
    || (toCol == 6 && row == 7 && KingSideRights(s.canBlackCastle))
    || (toCol == 2 && row == 7 && QueenSideRights(s.canBlackCastle))
  }

  /** Corrected, each colour's castle depends on that colour's string alone, the row-0 castles
      are those of the rule as written once Black has no rights, and Black's king castles from
      its home row with every right. */
  lemma CastleCorrectedUsesOwnRights(s: BoardState, m: Move, other: string)
    ensures m.fromRow == 0 ==> CastleRuleCorrected(s, m) == CastleRuleCorrected(s.(canBlackCastle := other), m)
    ensures m.fromRow == 7 ==> CastleRuleCorrected(s, m) == CastleRuleCorrected(s.(canWhiteCastle := other), m)
    ensures m.fromRow != 0 && m.fromRow != 7 ==> !CastleRuleCorrected(s, m)
    ensures s.canBlackCastle == "" ==> CastleRuleCorrected(s, m) == CastleRule(s, m)
    ensures CastleRuleCorrected(BoardState(LoneKing(4, 7, -KingCode), false, "", "RKR", -1), MoveFields(4, 7, 6, 7))
  {
  }

  // ---------------------------------------------------------------------------------------------
  // Finding 5: the pawn's en-passant clause looks only at the destination

  /** As written: with the en-passant column 0, a White pawn on (7, 1) may jump to (0, 5). */
  lemma PawnJumpsToEnPassantSquare()
    ensures LegalMove(BoardState(Put(EmptyGrid(), 7, 1, PawnCode), true, "RKR", "RKR", 0), MoveFields(7, 1, 0, 5))
  {
    CellPut(EmptyGrid(), 7, 1, PawnCode, 7, 1);
    CellPut(EmptyGrid(), 7, 1, PawnCode, 0, 5);
  }

  /** Corrected: the en-passant capture is also a diagonal step forward. */
  function PawnRuleCorrected(s: BoardState, m: Move): bool {
    var g := s.position;
    var pawn := Cell(g, m.fromCol, m.fromRow);
    var hasNotMoved := if pawn > 0 then m.fromRow == 1 else m.fromRow == 6;
    var enPassantRow := if pawn > 0 then 5 else 2;
    var diagonalStep := m.fromRow + pawn == m.toRow && (m.fromCol == m.toCol - 1 || m.fromCol == m.toCol + 1);
    var oneStep := m.fromCol == m.toCol && m.fromRow + pawn == m.toRow
                   && Cell(g, m.toCol, m.toRow) == NoneCode;
    var twoStep := m.fromCol == m.toCol && m.fromRow + 2 * pawn == m.toRow && hasNotMoved
                   && Cell(g, m.fromCol, m.fromRow + pawn) == 0 && Cell(g, m.toCol, m.toRow) == NoneCode;
    var captures := diagonalStep && Cell(g, m.toCol, m.toRow) * pawn < 0;
    var enPassant := diagonalStep && s.enPassantCol == m.toCol && m.toRow == enPassantRow;
    oneStep || twoStep || captures || enPassant
  }

  /** Corrected, a pawn moves one or two rows forward and at most one column sideways; it
      differs from the rule as written only where the latter lets the en-passant square be
      reached from elsewhere. */
  lemma PawnCorrectedMovesForward(s: BoardState, m: Move)
    requires var p := Cell(s.position, m.fromCol, m.fromRow); p == PawnCode || p == -PawnCode
    ensures var p := Cell(s.position, m.fromCol, m.fromRow);
      PawnRuleCorrected(s, m) ==>
        Abs(m.toCol - m.fromCol) <= 1 && (m.toRow == m.fromRow + p || m.toRow == m.fromRow + 2 * p)
    ensures PawnRuleCorrected(s, m) ==> PawnRule(s, m)
    ensures PawnRule(s, m) && !PawnRuleCorrected(s, m) ==>
      s.enPassantCol == m.toCol && m.toRow == (if Cell(s.position, m.fromCol, m.fromRow) > 0 then 5 else 2)
  {
  }

  // ---------------------------------------------------------------------------------------------
  // Finding 6: enPassantCaptures also runs for a piece that is not a pawn

  /** The position after Black's a7-a5 with a White knight on c5 (column 2, row 4). */
  function KnightBesidePawn(): BoardState {
    BoardState(Put(Put(EmptyGrid(), 2, 4, KnightCode), 0, 4, -PawnCode), true, "RKR", "RKR", 0)
  }

  /** As written: the knight's move c5-a6 removes the Black pawn on a5. */
  lemma KnightCapturesEnPassant()
    ensures Cell(KnightBesidePawn().position, 0, 4) == -PawnCode
    ensures LegalMove(KnightBesidePawn(), MoveFields(2, 4, 0, 5))
    ensures Cell(MadeMove(KnightBesidePawn(), MoveFields(2, 4, 0, 5)).position, 0, 4) == NoneCode
  {
    var g1 := Put(EmptyGrid(), 2, 4, KnightCode);
    CellPut(g1, 0, 4, -PawnCode, 0, 4);
    CellPut(g1, 0, 4, -PawnCode, 2, 4);
    CellPut(g1, 0, 4, -PawnCode, 0, 5);
    CellPut(EmptyGrid(), 2, 4, KnightCode, 2, 4);
    CellPut(EmptyGrid(), 2, 4, KnightCode, 0, 5);
    var s := KnightBesidePawn();
    var m: Move := MoveFields(2, 4, 0, 5);
    assert PawnRule(s, m);
    var e := EnPassantCaptured(s, m);
    assert e == Put(s.position, 0, 4, NoneCode);
    CellPut(s.position, 0, 4, NoneCode, 0, 4);
    CellPut(e, 2, 4, NoneCode, 0, 4);
    CellPut(Put(e, 2, 4, NoneCode), 0, 5, KnightCode, 0, 4);
  }

  /** Corrected: only a pawn (code 1 or -1) captures en passant. */
  function EnPassantCapturedCorrected(s: BoardState, m: Move): Grid {
    var pawn := Cell(s.position, m.fromCol, m.fromRow);
    if Abs(pawn) == 1 then EnPassantCaptured(s, m) else s.position
  }

  /** Corrected, a square is removed only by a pawn, and it is the square beside the pawn's
      from-square in the column the pawn moves to. */
  lemma EnPassantCorrectedOnlyPawns(s: BoardState, m: Move, c: int, r: int)
    requires InRange(c) && InRange(r)
    requires Cell(EnPassantCapturedCorrected(s, m), c, r) != Cell(s.position, c, r)
    ensures Abs(Cell(s.position, m.fromCol, m.fromRow)) == 1
    ensures c == m.toCol && r == m.fromRow && Cell(EnPassantCapturedCorrected(s, m), c, r) == NoneCode
  {
    if PawnRule(s, m) && s.enPassantCol == m.toCol {
      var row := if Cell(s.position, m.fromCol, m.fromRow) > 0 then 4 else 3;
      if row == m.fromRow {
        CellPut(s.position, s.enPassantCol, row, NoneCode, c, r);
      }
    }
  }

  // ---------------------------------------------------------------------------------------------
  // Finding 7: isBishopPathEmpty is run for every move of a bishop or a queen

  /** The scan of isBishopPathEmpty from step k on, as written: it stops when the column
      reaches toCol, and its row may leave the board first (ArrayIndexOutOfBoundsException,
      None here). */
  function BishopScanFrom(g: Grid, m: Move, k: nat): Option<bool>
    requires k >= 1
    decreases Abs(m.toCol - m.fromCol) - k
  {
    var n := Abs(m.toCol - m.fromCol);
    var col := Walk(m.fromCol, Signum(m.toCol - m.fromCol), k);
    var row := Walk(m.fromRow, Signum(m.toRow - m.fromRow), k);
    if k >= n then Some(true)
    else if !InRange(row) then None
    else if Cell(g, col, row) != NoneCode then Some(false)
    else BishopScanFrom(g, m, k + 1)
  }

  /** isLegalBishopMove as written: the scan runs whatever the move, and its outcome counts
      only for a diagonal move. */
  function BishopRuleAsWritten(g: Grid, m: Move): Option<bool> {
    var scan := BishopScanFrom(g, m, 1);
    if scan.None? then None
    else Some(Abs(m.fromCol - m.toCol) == Abs(m.fromRow - m.toRow) && scan.value)
  }

  /** As written: a queen on (0, 6) asked about (7, 7) on an otherwise empty board makes the
      scan read row 8. */
  lemma BishopScanLeavesBoard()
    ensures BishopRuleAsWritten(EmptyGrid(), MoveFields(0, 6, 7, 7)).None?
  {
    var m: Move := MoveFields(0, 6, 7, 7);
    assert BishopScanFrom(EmptyGrid(), m, 2).None?;
  }

  lemma {:induction false} BishopScanDiagonal(g: Grid, m: Move, k: nat)
    requires Abs(m.fromCol - m.toCol) == Abs(m.fromRow - m.toRow)
    requires 1 <= k <= Abs(m.toCol - m.fromCol) || (k == 1 && m.fromCol == m.toCol)
    requires LineClear(g, m.fromCol, m.fromRow, Signum(m.toCol - m.fromCol), Signum(m.toRow - m.fromRow), k)
    ensures BishopScanFrom(g, m, k) ==
      Some(LineClear(g, m.fromCol, m.fromRow, Signum(m.toCol - m.fromCol), Signum(m.toRow - m.fromRow),
                     Abs(m.toCol - m.fromCol)))
    decreases Abs(m.toCol - m.fromCol) - k
  {
    var n := Abs(m.toCol - m.fromCol);
    var colDir := Signum(m.toCol - m.fromCol);
    var rowDir := Signum(m.toRow - m.fromRow);
    if k < n {
      WalkTowards(m.fromCol, m.toCol, k);
      WalkTowards(m.fromRow, m.toRow, k);
      var col := Walk(m.fromCol, colDir, k);
      var row := Walk(m.fromRow, rowDir, k);
      if Cell(g, col, row) != NoneCode {
        LineBlocked(g, m.fromCol, m.fromRow, colDir, rowDir, k, n);
      } else {
        LineClearStep(g, m.fromCol, m.fromRow, colDir, rowDir, k);
        BishopScanDiagonal(g, m, k + 1);
      }
    }
  }

  /** Corrected (the rule of JavaRules, which examines the path only of a diagonal move):
      never an exception, false for a move off the diagonals, and on a diagonal the outcome of
      the scan as written. */
  lemma BishopRuleGuarded(g: Grid, m: Move)
    ensures BishopRule(g, m) ==> Abs(m.fromCol - m.toCol) == Abs(m.fromRow - m.toRow)
    ensures Abs(m.fromCol - m.toCol) == Abs(m.fromRow - m.toRow) ==> BishopRuleAsWritten(g, m) == Some(BishopRule(g, m))
  {
    if Abs(m.fromCol - m.toCol) == Abs(m.fromRow - m.toRow) {
      BishopScanDiagonal(g, m, 1);
    }
  }
}
