/** MoveMaker: the board moves, their undo and redo, and the history of move contexts, as methods
    over a Position.  Each method is proved to compute the corresponding function of MoveRules.
    The squares are written directly, as the source writes its array, so the per-colour square
    sets and the hash are not kept up to date by these methods. */
module MoveMaker {
  import opened Types
  import opened BoardState
  import opened MoveRules
  import opened Positions

  /** promotePawn: the promotion kind, in the mover's colour, replaces the pawn. */
  method PromotePawn(p: Position, m: Move) returns (captured: ColoredPiece)
    requires p.Valid()
    modifies p.board
    ensures MoveOutcome(p.Snapshot(), captured) == PawnPromoted(old(p.Snapshot()), m)
  {
    var mover := p.ReadSquare(m.from);
    var promoted := m.promotion.(color := mover.color);
    captured := p.ReadSquare(m.to);
    p.WriteSquare(m.to, promoted);
    p.WriteSquare(m.from, NoPiece);
  }

  /** movePawn's first half: the pawn behind an en-passant target is taken off, and the target
      moves behind a double step or is cleared. */
  method PawnCapture(p: Position, m: Move, behind: Square) returns (captured: ColoredPiece)
    requires p.Valid()
    modifies p.board, p`enPassant
    ensures var st := old(p.Snapshot());
      var st1 := if m.to == st.enPassant then Set(st, behind, NoPiece) else st;
      p.Snapshot() == st1.(enPassant := if Abs(m.from.row - m.to.row) == 2 then behind else InvalidSquare)
    ensures var st := old(p.Snapshot());
      captured == if Abs(m.from.row - m.to.row) == 2 then NoPiece
                  else if m.to == st.enPassant then Get(st, behind) else Get(st, m.to)
  {
    captured := p.ReadSquare(m.to);
    if m.to == p.enPassant {
      captured := p.ReadSquare(behind);
      p.WriteSquare(behind, NoPiece);
    }
    if Abs(m.from.row - m.to.row) == 2 {
      p.SetEnPassantSquare(behind);
      captured := NoPiece;
    } else {
      p.SetEnPassantSquare(InvalidSquare);
    }
  }

  /** movePawn: promotion, en-passant capture of the pawn behind the target, the new target after
      a double step, and the final write of the pawn. */
  method MovePawn(p: Position, m: Move) returns (captured: ColoredPiece)
    requires p.Valid()
    modifies p.board, p`enPassant
    ensures MoveOutcome(p.Snapshot(), captured) == PawnMoved(old(p.Snapshot()), m)
  {
    if m.promotion != NoPiece {
      captured := PromotePawn(p, m);
      return;
    }
    ghost var st := p.Snapshot();
    var mover := p.ReadSquare(m.from);
    var colorIndex := if mover.color == White then 1 else -1;
    var behind := Square(m.to.row + colorIndex, m.to.col);
    assert behind == Behind(m.to, mover.color == White);
    captured := PawnCapture(p, m, behind);
    ghost var st2 := p.Snapshot();
    var now := p.ReadSquare(m.from);
    var lastRow := if now.color == White then 0 else 7;
    if m.to.row == lastRow {
      p.WriteSquare(m.to, m.promotion);
    }
    ghost var st3 := if m.to.row == lastRow then Set(st2, m.to, m.promotion) else st2;
    assert p.Snapshot() == st3;
    p.WriteSquare(m.from, NoPiece);
    p.WriteSquare(m.to, mover);
    assert PawnMoved(st, m) == MoveOutcome(Set(Set(st3, m.from, NoPiece), m.to, mover), captured);
  }

  /** moveKing: a two-column move also brings the rook over; the king's side loses both rights. */
  method MoveKing(p: Position, m: Move) returns (captured: ColoredPiece)
    requires p.Valid()
    modifies p.board, p`castleWhite, p`castleBlack
    ensures MoveOutcome(p.Snapshot(), captured) == KingMoved(old(p.Snapshot()), m)
  {
    var king := p.ReadSquare(m.from);
    var r := m.from.row;
    if Abs(m.from.col - m.to.col) == 2 {
      if m.from.col < m.to.col {
        var rook := p.ReadSquare(Square(r, 7));
        p.WriteSquare(Square(r, 7), NoPiece);
        p.WriteSquare(Square(r, 5), rook);
      } else {
        var rook := p.ReadSquare(Square(r, 0));
        p.WriteSquare(Square(r, 0), NoPiece);
        p.WriteSquare(Square(r, 3), rook);
      }
    }
    captured := p.ReadSquare(m.to);
    var moving := p.ReadSquare(m.from);
    p.WriteSquare(m.to, moving);
    p.WriteSquare(m.from, NoPiece);
    p.SetCastleState(king.color, NoCastling);
  }

  /** castleState[c] &= ~right: colour c gives up one castling right. */
  method DropRight(p: Position, c: Color, right: bv8)
    requires p.Valid()
    modifies p`castleWhite, p`castleBlack
    ensures p.Snapshot() == WithCastle(old(p.Snapshot()), c, CastleOf(old(p.Snapshot()), c) & !right)
  {
    ghost var st := p.Snapshot();
    var mask := if c == White then p.castleWhite else p.castleBlack;
    var cleared := mask & !right;
    assert cleared == CastleOf(st, c) & !right;
    p.SetCastleState(c, cleared);
  }

  /** moveRook: a rook leaving the last column gives up the king-side right, one leaving the
      first column the queen-side right; the board is left to movePiece. */
  method MoveRook(p: Position, m: Move) returns (captured: ColoredPiece)
    requires p.Valid()
    modifies p`castleWhite, p`castleBlack
    ensures MoveOutcome(p.Snapshot(), captured) == RookMoved(old(p.Snapshot()), m)
  {
    ghost var st := p.Snapshot();
    RookMovedCases(st, m);
    var rook := p.ReadSquare(m.from);
    captured := p.ReadSquare(m.to);
    if m.from.col == 7 {
      DropRight(p, rook.color, KingSide);
    } else if m.from.col == 0 {
      DropRight(p, rook.color, QueenSide);
    }
  }

  /** movePiece: clears the en-passant target for anything but a pawn, runs the helper of the
      piece kind, then writes the mover on the destination and empties the source. */
  method MovePiece(p: Position, m: Move) returns (captured: ColoredPiece)
    requires p.Valid()
    modifies p.board, p`enPassant, p`castleWhite, p`castleBlack
    ensures MoveOutcome(p.Snapshot(), captured) == PieceMoved(old(p.Snapshot()), m)
  {
    var moving := p.ReadSquare(m.from);
    if moving.piece != Pawn {
      p.SetEnPassantSquare(InvalidSquare);
    }
    if moving.piece == Pawn {
      captured := MovePawn(p, m);
    } else if moving.piece == King {
      captured := MoveKing(p, m);
    } else if moving.piece == Rook {
      captured := MoveRook(p, m);
    } else {
      captured := p.ReadSquare(m.to);
    }
    p.WriteSquare(m.to, moving);
    p.WriteSquare(m.from, NoPiece);
  }

  /** increaseHalfmoveClock: a pawn move or a capture resets the clock, anything else ticks it. */
  method IncreaseHalfmoveClock(p: Position, moving: ColoredPiece, captured: ColoredPiece)
    requires p.Valid()
    modifies p`halfmove
    ensures p.Snapshot() == old(p.Snapshot()).(halfmove := NextHalfmove(moving, captured, old(p.halfmove)))
  {
    if moving.piece == Pawn {
      p.halfmove := 0;
    } else if captured != NoPiece {
      p.halfmove := 0;
    } else {
      p.halfmove := p.halfmove + 1;
    }
  }

  /** MoveMaker's getMoveContext: the history beyond the cursor is dropped first (a new move
      discards the moves that could have been redone), then the context is taken.  This
      generation of the code leaves the mover and the hash of the context at their defaults,
      modelled as the empty piece and 0. */
  method GetMoveContext(p: Position, m: Move) returns (ctx: MoveContext)
    requires p.Valid() && p.HistoryInRange()
    modifies p`history
    ensures p.history == old(p.history[..p.cursor]) && p.HistoryInRange()
    ensures ctx == MakerContext(old(p.Snapshot()), m)
  {
    if p.cursor < |p.history| {
      p.history := p.history[..p.cursor];
    } else {
      assert p.history[..p.cursor] == p.history;
    }
    var captured := p.GetCapturedPiece(m);
    var ep := p.IsEnPassantMove(m);
    var castling := p.IsCastlingMove(m);
    ctx := MoveContext(m, NoPiece, captured, p.enPassant, p.castleWhite, p.castleBlack,
      p.halfmove, p.fullmove, p.whiteToMove, p.gameOver, ep, castling, 0);
  }

  /** makeMove's bookkeeping before the board move: the context goes onto the history at the
      cursor, and the cursor moves past it. */
  method PushContext(p: Position, m: Move)
    requires p.Valid() && p.HistoryInRange()
    modifies p`history, p`cursor
    ensures p.Snapshot() == old(p.Snapshot())
    ensures p.history == old(p.history[..p.cursor]) + [MakerContext(old(p.Snapshot()), m)]
    ensures p.cursor == old(p.cursor) + 1 && p.HistoryInRange()
  {
    var ctx := GetMoveContext(p, m);
    p.history := p.history + [ctx];
    p.cursor := p.cursor + 1;
  }

  /** makeMove's bookkeeping after the board move: the half-move clock, the full-move number
      (advanced after Black's move) and the turn. */
  method AdvanceClocks(p: Position, moving: ColoredPiece, captured: ColoredPiece)
    requires p.Valid()
    modifies p`halfmove, p`fullmove, p`whiteToMove
    ensures p.Snapshot() == old(p.Snapshot()).(
      halfmove := NextHalfmove(moving, captured, old(p.halfmove)),
      fullmove := old(p.fullmove) + (if old(p.whiteToMove) then 0 else 1),
      whiteToMove := !old(p.whiteToMove))
  {
    IncreaseHalfmoveClock(p, moving, captured);
    p.fullmove := p.fullmove + if p.whiteToMove then 0 else 1;
    p.whiteToMove := !p.whiteToMove;
  }

  /** makeMove: the context is pushed at the cursor, the piece moved, the clocks advanced and the
      turn handed over; the captured piece is returned. */
  method MakeMove(p: Position, m: Move) returns (captured: ColoredPiece)
    requires p.Valid() && p.HistoryInRange()
    modifies p.board, p`enPassant, p`castleWhite, p`castleBlack, p`halfmove, p`fullmove
    modifies p`whiteToMove, p`history, p`cursor
    ensures MoveOutcome(p.Snapshot(), captured) == MadeMove(old(p.Snapshot()), m)
    ensures p.history == old(p.history[..p.cursor]) + [MakerContext(old(p.Snapshot()), m)]
    ensures p.cursor == old(p.cursor) + 1 && p.HistoryInRange()
  {
    PushContext(p, m);
    var moving := p.ReadSquare(m.from);
    captured := MovePiece(p, m);
    AdvanceClocks(p, moving, captured);
  }

  /** unmovePiece's board half: the mover goes back, the captured piece returns (behind the
      destination for en passant) and a castled rook returns to its corner. */
  method UnmoveBoard(p: Position, ctx: MoveContext)
    requires p.Valid()
    modifies p.board
    ensures p.Snapshot() == UnmovedBoard(old(p.Snapshot()), ctx)
  {
    ghost var st := p.Snapshot();
    var m := ctx.move;
    var moved := p.ReadSquare(m.to);
    p.WriteSquare(m.from, moved);
    p.WriteSquare(m.to, ctx.capturedPiece);
    ghost var st1 := p.Snapshot();
    if ctx.wasEnPassantCapture {
      var colorIndex := if ctx.previousWhiteToMove then 1 else -1;
      var behind := Square(m.to.row + colorIndex, m.to.col);
      assert behind == Behind(m.to, ctx.previousWhiteToMove);
      p.WriteSquare(behind, ctx.capturedPiece);
      p.WriteSquare(m.to, NoPiece);
    }
    ghost var st2 := p.Snapshot();
    var r := m.to.row;
    if ctx.wasCastling {
      if m.to.col == 6 {
        var rook := p.ReadSquare(Square(r, 5));
        p.WriteSquare(Square(r, 7), rook);
        p.WriteSquare(Square(r, 5), NoPiece);
      } else if m.to.col == 2 {
        var rook := p.ReadSquare(Square(r, 3));
        p.WriteSquare(Square(r, 0), rook);
        p.WriteSquare(Square(r, 3), NoPiece);
      }
    }
  }

  /** unmovePiece's second half: the saved target, castling masks, turn, game-over flag and
      clocks are copied back. */
  method RestoreFields(p: Position, ctx: MoveContext)
    requires p.Valid()
    modifies p`enPassant, p`castleWhite, p`castleBlack, p`whiteToMove, p`gameOver
    modifies p`halfmove, p`fullmove
    ensures p.Snapshot() == Restored(old(p.Snapshot()), ctx)
  {
    p.enPassant := ctx.previousEnPassant;
    p.castleWhite := ctx.previousCastleWhite;
    p.castleBlack := ctx.previousCastleBlack;
    p.whiteToMove := ctx.previousWhiteToMove;
    p.gameOver := ctx.previousGameOver;
    p.halfmove := ctx.previousHalfmove;
    p.fullmove := ctx.previousFullmove;
  }

  /** unmovePiece. */
  method UnmovePiece(p: Position, ctx: MoveContext)
    requires p.Valid()
    modifies p.board, p`enPassant, p`castleWhite, p`castleBlack, p`whiteToMove, p`gameOver
    modifies p`halfmove, p`fullmove
    ensures p.Snapshot() == PieceUnmoved(old(p.Snapshot()), ctx)
  {
    UnmoveBoard(p, ctx);
    RestoreFields(p, ctx);
  }

  /** undoMove: nothing to undo at the start of the history; otherwise the cursor steps back and
      the context it now points at is unmoved.  The history itself is kept for redoMove. */
  method UndoMove(p: Position)
    requires p.Valid() && p.HistoryInRange()
    modifies p.board, p`enPassant, p`castleWhite, p`castleBlack, p`whiteToMove, p`gameOver
    modifies p`halfmove, p`fullmove, p`cursor
    ensures p.HistoryInRange() && p.history == old(p.history)
    ensures old(p.cursor) == 0 ==> p.cursor == 0 && p.Snapshot() == old(p.Snapshot())
    ensures old(p.cursor) > 0 ==>
      p.cursor == old(p.cursor) - 1 && p.Snapshot() == PieceUnmoved(old(p.Snapshot()), p.history[p.cursor])
  {
    if p.cursor == 0 {
      return;
    }
    p.cursor := p.cursor - 1;
    var ctx := p.history[p.cursor];
    UnmovePiece(p, ctx);
  }

  /** redoMove: nothing to redo at the end of the history; otherwise the context at the cursor is
      moved again, the cursor steps forward and the turn flips. */
  method RedoMove(p: Position)
    requires p.Valid() && p.HistoryInRange()
    modifies p.board, p`enPassant, p`castleWhite, p`castleBlack, p`whiteToMove, p`cursor
    ensures p.HistoryInRange() && p.history == old(p.history)
    ensures old(p.cursor) == |p.history| ==> p.cursor == old(p.cursor) && p.Snapshot() == old(p.Snapshot())
    ensures old(p.cursor) < |p.history| ==>
      p.cursor == old(p.cursor) + 1 && p.Snapshot() == Redone(old(p.Snapshot()), p.history[old(p.cursor)].move)
  {
    if p.cursor >= |p.history| {
      return;
    }
    var ctx := p.history[p.cursor];
    p.cursor := p.cursor + 1;
    var _ := MovePiece(p, ctx.move);
    p.whiteToMove := !p.whiteToMove;
  }

  /** redoMove as intended: the context at the cursor is made again with makeMove's clock and
      turn bookkeeping, so that a redo after an undo reproduces the made move. */
  method RedoMoveCorrected(p: Position)
    requires p.Valid() && p.HistoryInRange()
    modifies p.board, p`enPassant, p`castleWhite, p`castleBlack, p`halfmove, p`fullmove
    modifies p`whiteToMove, p`cursor
    ensures p.HistoryInRange() && p.history == old(p.history)
    ensures old(p.cursor) == |p.history| ==> p.cursor == old(p.cursor) && p.Snapshot() == old(p.Snapshot())
    ensures old(p.cursor) < |p.history| ==>
      p.cursor == old(p.cursor) + 1 &&
      p.Snapshot() == MadeMove(old(p.Snapshot()), p.history[old(p.cursor)].move).state
  {
    if p.cursor >= |p.history| {
      return;
    }
    var ctx := p.history[p.cursor];
    p.cursor := p.cursor + 1;
    var moving := p.ReadSquare(ctx.move.from);
    var captured := MovePiece(p, ctx.move);
    AdvanceClocks(p, moving, captured);
  }
}
