/** MovementValidator and CheckScanner over a Position: the per-piece rules with their scans of
    the squares in between, the self-check probe that makes a move and takes it back, and the
    loops that look for legal moves.  Each method is proved to compute the corresponding
    predicate of Movement or Legality, and the probing ones to leave the position as they found
    it. */
module Validation {
  import opened Types
  import opened BoardState
  import opened MoveRules
  import opened Movement
  import opened Legality
  import opened Positions
  import MoveMaker

  /** The scan loop of isValidBishopMovement and isValidRookMovement: the squares 1 .. steps - 1
      along the direction are empty. */
  method PathIsClear(p: Position, from: Square, dRow: int, dCol: int, steps: int) returns (clear: bool)
    requires p.Valid()
    ensures clear == PathClear(p.Snapshot(), from, dRow, dCol, steps)
  {
    var i := 1;
    while i < steps
      invariant 1 <= i
      invariant forall j :: 1 <= j < i ==> IsEmptySquare(p.Snapshot(), PathSquare(from, dRow, dCol, j))
    {
      if p.ReadSquare(PathSquare(from, dRow, dCol, i)) != NoPiece {
        return false;
      }
      i := i + 1;
    }
    return true;
  }

  /** isValidBishopMovement. */
  method IsValidBishopMovement(p: Position, m: Move) returns (valid: bool)
    requires p.Valid()
    ensures valid == BishopMovement(p.Snapshot(), m)
  {
    if Abs(m.from.col - m.to.col) != Abs(m.from.row - m.to.row) {
      return false;
    }
    var dRow := if m.to.row > m.from.row then 1 else -1;
    var dCol := if m.to.col > m.from.col then 1 else -1;
    valid := PathIsClear(p, m.from, dRow, dCol, Abs(m.to.row - m.from.row));
  }

  /** isValidRookMovement. */
  method IsValidRookMovement(p: Position, m: Move) returns (valid: bool)
    requires p.Valid()
    ensures valid == RookMovement(p.Snapshot(), m)
  {
    if m.from.row != m.to.row && m.from.col != m.to.col {
      return false;
    }
    var dRow := if m.to.row > m.from.row then 1 else if m.to.row < m.from.row then -1 else 0;
    var dCol := if m.to.col > m.from.col then 1 else if m.to.col < m.from.col then -1 else 0;
    valid := PathIsClear(p, m.from, dRow, dCol, Abs(m.to.row - m.from.row + m.to.col - m.from.col));
  }

  /** isValidQueenMovement. */
  method IsValidQueenMovement(p: Position, m: Move) returns (valid: bool)
    requires p.Valid()
    ensures valid == QueenMovement(p.Snapshot(), m)
  {
    valid := IsValidRookMovement(p, m);
    if !valid {
      valid := IsValidBishopMovement(p, m);
    }
  }

  /** The loop of isValidKingMovement over a castling path: each square is neither attacked nor
      occupied. */
  method CastlePathIsSafe(p: Position, row: int, lo: int, hi: int, c: Color) returns (safe: bool)
    requires p.Valid()
    ensures safe == CastlePathSafe(p.Snapshot(), row, lo, hi, c)
    decreases 0, 5
  {
    ghost var st := p.Snapshot();
    var col := lo;
    while col <= hi
      invariant lo <= col || hi < lo
      invariant forall k {:trigger SafeCastlingSquare(st, Square(row, k), c)} :: lo <= k < col ==> SafeCastlingSquare(st, Square(row, k), c)
    {
      var attacked := IsSquareInCheck(p, Square(row, col), c, false);
      if attacked {
        assert !SafeCastlingSquare(st, Square(row, col), c);
        return false;
      }
      if p.ReadSquare(Square(row, col)) != NoPiece {
        assert !SafeCastlingSquare(st, Square(row, col), c);
        return false;
      }
      col := col + 1;
    }
    return true;
  }

  /** isValidKingMovement: castling needs the king's square unattacked, the right still held and
      the path safe; any other king move is one step.  The castling branch is only looked at
      when `castling` holds, which the scans made on behalf of castling turn off. */
  method IsValidKingMovement(p: Position, m: Move, castling: bool) returns (valid: bool)
    requires p.Valid()
    ensures valid == KingMovement(p.Snapshot(), m, castling)
    decreases if castling then 1 else 0, 0
  {
    var color := p.ReadSquare(m.from).color;
    if CastlingShape(m) {
      if !castling {
        return false;
      }
      var attacked := IsSquareInCheck(p, Square(m.from.row, 4), color, false);
      if attacked {
        return false;
      }
      var mask := if color == White then p.castleWhite else p.castleBlack;
      assert mask == CastleOf(p.Snapshot(), color);
      if m.to.col == 6 && mask & KingSide != 0 {
        valid := CastlePathIsSafe(p, m.from.row, 5, 6, color);
      } else if m.to.col == 2 && mask & QueenSide != 0 {
        valid := CastlePathIsSafe(p, m.from.row, 2, 3, color);
      } else {
        valid := false;
      }
      return;
    }
    var diagonal := Abs((m.from.col - m.to.col) * (m.from.row - m.to.row)) == 1;
    var straight := (m.from.col == m.to.col && Abs(m.from.row - m.to.row) == 1)
      || (m.from.row == m.to.row && Abs(m.from.col - m.to.col) == 1);
    valid := diagonal || straight;
  }

  /** isValidPieceMovement: never onto the start square, otherwise the rule of the piece kind. */
  method IsValidPieceMovement(p: Position, piece: Piece, m: Move, castling: bool) returns (valid: bool)
    requires p.Valid()
    ensures valid == PieceMovement(p.Snapshot(), piece, m, castling)
    decreases if castling then 1 else 0, 1
  {
    if m.from == m.to {
      return false;
    }
    match piece
    case Pawn => valid := PawnMovement(p.Snapshot(), m);
    case Knight => valid := KnightMovement(m);
    case Bishop => valid := IsValidBishopMovement(p, m);
    case Rook => valid := IsValidRookMovement(p, m);
    case Queen => valid := IsValidQueenMovement(p, m);
    case King => valid := IsValidKingMovement(p, m, castling);
    case Empty => valid := false;
  }

  /** One square of isSquareInCheck's scan: a piece of the other colour there whose rule lets it
      move onto sq. */
  method AttacksFromSquare(p: Position, from: Square, sq: Square, c: Color, castling: bool) returns (hit: bool)
    requires p.Valid()
    ensures hit == AttacksFrom(p.Snapshot(), from, sq, c, castling)
    decreases if castling then 1 else 0, 2
  {
    var cp := p.ReadSquare(from);
    hit := false;
    if cp.color != c && cp != NoPiece {
      hit := IsValidPieceMovement(p, cp.piece, Move(from, sq, NoPiece), castling);
    }
  }

  /** isSquareInCheck: the scan, in row-major order, for a piece of the other colour whose rule
      lets it move onto sq. */
  method IsSquareInCheck(p: Position, sq: Square, c: Color, castling: bool) returns (attacked: bool)
    requires p.Valid()
    ensures attacked == SquareAttacked(p.Snapshot(), sq, c, castling)
    decreases if castling then 1 else 0, 3
  {
    ghost var st := p.Snapshot();
    var row := 0;
    while row < 8
      invariant 0 <= row <= 8
      invariant forall r, k {:trigger AttacksFrom(st, Square(r, k), sq, c, castling)} ::
        0 <= r < row && 0 <= k < 8 ==> !AttacksFrom(st, Square(r, k), sq, c, castling)
    {
      var col := 0;
      while col < 8
        invariant 0 <= col <= 8
        invariant forall r, k {:trigger AttacksFrom(st, Square(r, k), sq, c, castling)} ::
        0 <= r < row && 0 <= k < 8 ==> !AttacksFrom(st, Square(r, k), sq, c, castling)
        invariant forall k {:trigger AttacksFrom(st, Square(row, k), sq, c, castling)} :: 0 <= k < col ==> !AttacksFrom(st, Square(row, k), sq, c, castling)
      {
        var hit := AttacksFromSquare(p, Square(row, col), sq, c, castling);
        if hit {
          return true;
        }
        col := col + 1;
      }
      row := row + 1;
    }
    return false;
  }

  /** getKingSquare: the row-major scan for c's king. */
  method GetKingSquare(p: Position, c: Color) returns (s: Square)
    requires p.Valid()
    ensures s == KingSquare(p.Snapshot(), c)
  {
    ghost var st := p.Snapshot();
    var wK, bK := ColoredPiece(White, King), ColoredPiece(Black, King);
    var row := 0;
    while row < 8
      invariant 0 <= row <= 8
      invariant forall j :: 0 <= j < 8 * row ==> !IsKingOf(st.board[j], c)
    {
      var col := 0;
      while col < 8
        invariant 0 <= col <= 8
        invariant forall j :: 0 <= j < 8 * row + col ==> !IsKingOf(st.board[j], c)
      {
        var cp := p.ReadSquare(Square(row, col));
        if (cp == wK && c == White) || (cp == bK && c == Black) {
          FirstKing(st, c, Square(row, col));
          return Square(row, col);
        }
        col := col + 1;
      }
      row := row + 1;
    }
    NoKing(st, c);
    return InvalidSquare;
  }

  /** A square holding c's king with no such square before it is the one getKingSquare finds. */
  lemma FirstKing(st: State, c: Color, s: Square)
    requires |st.board| == 64 && OnBoard(s) && IsKingOf(Get(st, s), c)
    requires forall j :: 0 <= j < Index(s) ==> !IsKingOf(st.board[j], c)
    ensures KingSquare(st, c) == s
  {
    var k := KingSquare(st, c);
    assert k != InvalidSquare;
    assert IsKingOf(st.board[Index(k)], c);
    assert Index(s) <= Index(k) <= Index(s);
  }

  /** With no king of c on the board getKingSquare falls through to {-1, -1}. */
  lemma NoKing(st: State, c: Color)
    requires |st.board| == 64
    requires forall j :: 0 <= j < 64 ==> !IsKingOf(st.board[j], c)
    ensures KingSquare(st, c) == InvalidSquare
  {
    forall t | OnBoard(t) ensures !IsKingOf(Get(st, t), c) {
      assert Get(st, t) == st.board[Index(t)];
    }
  }

  /** isInCheck: c's king square is attacked. */
  method IsInCheck(p: Position, c: Color) returns (check: bool)
    requires p.Valid()
    ensures check == InCheck(p.Snapshot(), c)
  {
    var kingSquare := GetKingSquare(p, c);
    check := IsSquareInCheck(p, kingSquare, c, true);
  }

  /** moveLeadsIntoCheck: the context is taken, the move made with movePiece, the side that was
      to move looked at, and the move taken back with unmovePiece.  For a move unmovePiece can
      take back exactly, the position is as before. */
  method MoveLeadsIntoCheck(p: Position, m: Move) returns (into: bool)
    requires p.Valid() && Reversible(p.Snapshot(), m)
    modifies p.board, p`enPassant, p`castleWhite, p`castleBlack, p`whiteToMove, p`gameOver
    modifies p`halfmove, p`fullmove
    ensures p.Snapshot() == old(p.Snapshot())
    ensures into == LeadsIntoCheck(old(p.Snapshot()), m)
  {
    ghost var st := p.Snapshot();
    var ctx := p.GetMoveContext(m);
    var _ := MoveMaker.MovePiece(p, m);
    var color := if ctx.previousWhiteToMove then White else Black;
    into := IsInCheck(p, color);
    MoveMaker.UnmovePiece(p, ctx);
    UnmoveRestores(st, m, ctx.previousHash);
  }

  /** isValidMove: the bounds, the mover, its target and its turn, the piece rule, and last the
      probe.  In a sane position the probe leaves the position unchanged. */
  method IsValidMove(p: Position, m: Move) returns (valid: bool)
    requires p.Valid() && Sane(p.Snapshot())
    modifies p.board, p`enPassant, p`castleWhite, p`castleBlack, p`whiteToMove, p`gameOver
    modifies p`halfmove, p`fullmove
    ensures p.Snapshot() == old(p.Snapshot())
    ensures valid == ValidMove(old(p.Snapshot()), m)
  {
    var moving := p.ReadSquare(m.from);
    var captured := p.GetCapturedPiece(m);
    if !OnBoard(m.from) || !OnBoard(m.to) {
      return false;
    }
    if moving == NoPiece || moving.color == captured.color {
      return false;
    }
    if (moving.color == White && !p.whiteToMove) || (moving.color == Black && p.whiteToMove) {
      return false;
    }
    var shape := IsValidPieceMovement(p, moving.piece, m, true);
    if !shape {
      return false;
    }
    ProbeIsReversible(p.Snapshot(), m);
    var into := MoveLeadsIntoCheck(p, m);
    valid := !into;
  }

  /** The two inner loops of areThereLegalMoves: the scan of the target squares for a valid
      move from f without a promotion piece. */
  method HasLegalMoveFrom(p: Position, f: Square) returns (found: bool)
    requires p.Valid() && Sane(p.Snapshot())
    modifies p.board, p`enPassant, p`castleWhite, p`castleBlack, p`whiteToMove, p`gameOver
    modifies p`halfmove, p`fullmove
    ensures p.Snapshot() == old(p.Snapshot())
    ensures found == HasValidTarget(old(p.Snapshot()), f)
  {
    ghost var st := p.Snapshot();
    var tr := 0;
    while tr < 8
      invariant 0 <= tr <= 8 && p.Snapshot() == st
      invariant NoTargetBefore(st, f, tr)
    {
      var tc := 0;
      while tc < 8
        invariant 0 <= tc <= 8 && p.Snapshot() == st
        invariant NoTargetBefore(st, f, tr) && NoTargetUpTo(st, f, tr, tc)
      {
        var valid := IsValidMove(p, PlainMove(f, Square(tr, tc)));
        if valid {
          TargetFound(st, f, tr, tc);
          return true;
        }
        NextTarget(st, f, tr, tc);
        tc := tc + 1;
      }
      NextTargetRow(st, f, tr, tc);
      tr := tr + 1;
    }
    return false;
  }

  /** areThereLegalMoves: the scan of the squares holding a c piece for one with a valid move. */
  method AreThereLegalMoves(p: Position, c: Color) returns (any: bool)
    requires p.Valid() && Sane(p.Snapshot())
    modifies p.board, p`enPassant, p`castleWhite, p`castleBlack, p`whiteToMove, p`gameOver
    modifies p`halfmove, p`fullmove
    ensures p.Snapshot() == old(p.Snapshot())
    ensures any == AnyLegalMove(old(p.Snapshot()), c)
  {
    ghost var st := p.Snapshot();
    var row := 0;
    while row < 8
      invariant 0 <= row <= 8 && p.Snapshot() == st
      invariant NoMoverBefore(st, c, row)
    {
      var col := 0;
      while col < 8
        invariant 0 <= col <= 8 && p.Snapshot() == st
        invariant NoMoverBefore(st, c, row) && NoMoverUpTo(st, c, row, col)
      {
        var piece := p.ReadSquare(Square(row, col));
        if piece.color == c {
          var found := HasLegalMoveFrom(p, Square(row, col));
          if found {
            MoverFound(st, c, row, col);
            return true;
          }
        }
        NextMover(st, c, row, col);
        col := col + 1;
      }
      NextMoverRow(st, c, row, col);
      row := row + 1;
    }
    return false;
  }

  /** isInCheckmate: in check, and no legal move. */
  method IsInCheckmate(p: Position, c: Color) returns (mate: bool)
    requires p.Valid() && Sane(p.Snapshot())
    modifies p.board, p`enPassant, p`castleWhite, p`castleBlack, p`whiteToMove, p`gameOver
    modifies p`halfmove, p`fullmove
    ensures p.Snapshot() == old(p.Snapshot())
    ensures mate == InCheckmate(old(p.Snapshot()), c)
  {
    var check := IsInCheck(p, c);
    if !check {
      return false;
    }
    var any := AreThereLegalMoves(p, c);
    mate := !any;
  }

  /** isInStalemate: not in check, and no legal move. */
  method IsInStalemate(p: Position, c: Color) returns (stalemate: bool)
    requires p.Valid() && Sane(p.Snapshot())
    modifies p.board, p`enPassant, p`castleWhite, p`castleBlack, p`whiteToMove, p`gameOver
    modifies p`halfmove, p`fullmove
    ensures p.Snapshot() == old(p.Snapshot())
    ensures stalemate == InStalemate(old(p.Snapshot()), c)
  {
    var check := IsInCheck(p, c);
    if check {
      return false;
    }
    var any := AreThereLegalMoves(p, c);
    stalemate := !any;
  }

  /** The innermost part of getLegalMoves for one (from, to) pair: for a pawn each promotion kind
      in turn (the kind only attached on the last row), otherwise the move itself. */
  method PairMovesAt(p: Position, c: Color, piece: Piece, f: Square, t: Square) returns (ms: seq<Move>)
    requires p.Valid() && Sane(p.Snapshot())
    modifies p.board, p`enPassant, p`castleWhite, p`castleBlack, p`whiteToMove, p`gameOver
    modifies p`halfmove, p`fullmove
    ensures p.Snapshot() == old(p.Snapshot())
    ensures ms == ValidAmong(old(p.Snapshot()), Candidates(c, piece, f, t))
  {
    ghost var st := p.Snapshot();
    ghost var candidates := Candidates(c, piece, f, t);
    if piece == Pawn {
      var kinds := [Queen, Rook, Bishop, Knight];
      ms := [];
      var i := 0;
      while i < 4
        invariant 0 <= i <= 4 && p.Snapshot() == st
        invariant ms == ValidAmong(st, candidates[..i])
      {
        var promotion := if t.row == (if c == White then 0 else 7) then ColoredPiece(c, kinds[i]) else NoPiece;
        var m := Move(f, t, promotion);
        assert m == candidates[i];
        var valid := IsValidMove(p, m);
        ValidAmongAppend(st, candidates[..i], m);
        assert candidates[..i + 1] == candidates[..i] + [m];
        if valid {
          ms := ms + [m];
        }
        i := i + 1;
      }
      assert candidates[..4] == candidates;
    } else {
      var valid := IsValidMove(p, PlainMove(f, t));
      ms := if valid then [PlainMove(f, t)] else [];
    }
  }

  /** One (from, to) pair of getLegalMoves appended to the list collected so far; k is the pair's
      number in the loop order. */
  method AddPairMoves(p: Position, c: Color, piece: Piece, row: int, col: int, tr: int, tc: int,
                      ghost st: State, ghost k: int, moves: seq<Move>) returns (collected: seq<Move>)
    requires p.Valid() && p.Snapshot() == st && Sane(st)
    requires 0 <= row < 8 && 0 <= col < 8 && 0 <= tr < 8 && 0 <= tc < 8
    requires Get(st, Square(row, col)) == ColoredPiece(c, piece)
    requires k == 64 * (8 * row + col) + 8 * tr + tc && moves == MovesBelow(st, c, k)
    modifies p.board, p`enPassant, p`castleWhite, p`castleBlack, p`whiteToMove, p`gameOver
    modifies p`halfmove, p`fullmove
    ensures p.Snapshot() == st
    ensures collected == MovesBelow(st, c, k + 1)
  {
    var block := PairMovesAt(p, c, piece, Square(row, col), Square(tr, tc));
    PairStep(st, c, piece, row, col, tr, tc, k, moves, block);
    collected := moves + block;
  }

  /** The innermost target loop of getLegalMoves for the targets on row tr, the from square
      (row, col) holding the c piece `piece`: the list grows by the moves of those 8 pairs. */
  method MovesOfTargetRow(p: Position, c: Color, piece: Piece, row: int, col: int, tr: int,
                          ghost st: State, ghost k: int, moves: seq<Move>) returns (collected: seq<Move>)
    requires p.Valid() && p.Snapshot() == st && Sane(st)
    requires 0 <= row < 8 && 0 <= col < 8 && 0 <= tr < 8
    requires Get(st, Square(row, col)) == ColoredPiece(c, piece)
    requires k == 64 * (8 * row + col) + 8 * tr && moves == MovesBelow(st, c, k)
    modifies p.board, p`enPassant, p`castleWhite, p`castleBlack, p`whiteToMove, p`gameOver
    modifies p`halfmove, p`fullmove
    ensures p.Snapshot() == st
    ensures collected == MovesBelow(st, c, k + 8)
  {
    ghost var n := k;
    collected := moves;
    var tc := 0;
    while tc < 8
      invariant 0 <= tc <= 8 && p.Snapshot() == st
      invariant n == k + tc && collected == MovesBelow(st, c, n)
    {
      collected := AddPairMoves(p, c, piece, row, col, tr, tc, st, n, collected);
      n := n + 1;
      tc := tc + 1;
    }
    Renumber(st, c, n, k + 8);
  }

  /** The body of getLegalMoves's square loops for (row, col): nothing unless the square holds a
      c piece, otherwise the moves of the 64 pairs from it. */
  method MovesOfSquare(p: Position, c: Color, row: int, col: int, ghost st: State, ghost k: int, moves: seq<Move>)
    returns (collected: seq<Move>)
    requires p.Valid() && p.Snapshot() == st && Sane(st)
    requires 0 <= row < 8 && 0 <= col < 8
    requires k == 64 * (8 * row + col) && moves == MovesBelow(st, c, k)
    modifies p.board, p`enPassant, p`castleWhite, p`castleBlack, p`whiteToMove, p`gameOver
    modifies p`halfmove, p`fullmove
    ensures p.Snapshot() == st
    ensures collected == MovesBelow(st, c, k + 64)
  {
    var piece := p.ReadSquare(Square(row, col));
    if piece.color != c {
      SkippedSquareAt(st, c, row, col, k);
      return moves;
    }
    collected := MovesOfPiece(p, c, piece.piece, row, col, st, k, moves);
  }

  /** The two target loops for a c piece on (row, col): the moves of the 64 pairs from it, target
      row by target row. */
  method MovesOfPiece(p: Position, c: Color, piece: Piece, row: int, col: int, ghost st: State, ghost k: int,
                      moves: seq<Move>) returns (collected: seq<Move>)
    requires p.Valid() && p.Snapshot() == st && Sane(st)
    requires 0 <= row < 8 && 0 <= col < 8
    requires Get(st, Square(row, col)) == ColoredPiece(c, piece)
    requires k == 64 * (8 * row + col) && moves == MovesBelow(st, c, k)
    modifies p.board, p`enPassant, p`castleWhite, p`castleBlack, p`whiteToMove, p`gameOver
    modifies p`halfmove, p`fullmove
    ensures p.Snapshot() == st
    ensures collected == MovesBelow(st, c, k + 64)
  {
    ghost var n := k;
    collected := moves;
    var tr := 0;
    while tr < 8
      invariant 0 <= tr <= 8 && p.Snapshot() == st
      invariant n == k + 8 * tr && collected == MovesBelow(st, c, n)
    {
      collected := MovesOfTargetRow(p, c, piece, row, col, tr, st, n, collected);
      n := n + 8;
      tr := tr + 1;
    }
    Renumber(st, c, n, k + 64);
  }

  /** getLegalMoves's column loop for one row: the moves from its eight squares. */
  method MovesOfRow(p: Position, c: Color, row: int, ghost st: State, ghost k: int, moves: seq<Move>)
    returns (collected: seq<Move>)
    requires p.Valid() && p.Snapshot() == st && Sane(st)
    requires 0 <= row < 8
    requires k == 512 * row && moves == MovesBelow(st, c, k)
    modifies p.board, p`enPassant, p`castleWhite, p`castleBlack, p`whiteToMove, p`gameOver
    modifies p`halfmove, p`fullmove
    ensures p.Snapshot() == st
    ensures collected == MovesBelow(st, c, k + 512)
  {
    ghost var n := k;
    collected := moves;
    var col := 0;
    while col < 8
      invariant 0 <= col <= 8 && p.Snapshot() == st
      invariant n == k + 64 * col && collected == MovesBelow(st, c, n)
    {
      collected := MovesOfSquare(p, c, row, col, st, n, collected);
      n := n + 64;
      col := col + 1;
    }
    Renumber(st, c, n, k + 512);
  }

  /** getLegalMoves: every square holding a c piece, every target, and for pawns every
      promotion kind, in that order; the list is LegalMoves, and the position is left as it was. */
  method GetLegalMoves(p: Position, c: Color) returns (moves: seq<Move>)
    requires p.Valid() && Sane(p.Snapshot())
    modifies p.board, p`enPassant, p`castleWhite, p`castleBlack, p`whiteToMove, p`gameOver
    modifies p`halfmove, p`fullmove
    ensures p.Snapshot() == old(p.Snapshot())
    ensures moves == LegalMoves(old(p.Snapshot()), c)
  {
    ghost var st := p.Snapshot();
    ghost var n := 0;
    moves := [];
    var row := 0;
    while row < 8
      invariant 0 <= row <= 8 && p.Snapshot() == st
      invariant n == 512 * row && moves == MovesBelow(st, c, n)
    {
      moves := MovesOfRow(p, c, row, st, n, moves);
      n := n + 512;
      row := row + 1;
    }
    Renumber(st, c, n, 4096);
  }
}
