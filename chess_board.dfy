/** The game-level operations of ChessBoard (and the matching ones of Position): makeMove that
    validates first and raises the game-over flag, the checkmate, stalemate and game-over queries
    for the side to move, and undo, redo, movePiece and unmovePiece, which hand over to
    MoveMaker. */
module ChessBoards {
  import opened Types
  import opened BoardState
  import opened MoveRules
  import opened Movement
  import opened Legality
  import opened Positions
  import MoveMaker
  import Validation

  /** makeMove on a position value: a move that isValidMove rejects changes nothing and reports
      the empty piece; a valid move is made and the game-over flag is raised when the side now to
      move is checkmated or stalemated (it is never lowered here). */
  function Played(st: State, m: Move): MoveOutcome {
    if !ValidMove(st, m) then MoveOutcome(st, NoPiece)
    else
      var o := MadeMove(st, m);
      MoveOutcome(o.state.(gameOver := o.state.gameOver || GameOver(o.state)), o.captured)
  }

  /** A rejected move leaves the position and reports the empty piece; an accepted one is
      MoveMaker's move, which hands the turn over, and the flag is raised exactly when the side
      to move in the position reached has no legal move. */
  lemma PlayedEffect(st: State, m: Move)
    ensures !ValidMove(st, m) ==> Played(st, m) == MoveOutcome(st, NoPiece)
    ensures ValidMove(st, m) ==>
      var made := MadeMove(st, m);
      var after := Played(st, m).state;
      after == made.state.(gameOver := after.gameOver)
      && after.whiteToMove == !st.whiteToMove
      && Played(st, m).captured == made.captured
      && (after.gameOver <==> st.gameOver || !AnyLegalMove(made.state, SideToMove(made.state)))
  {
    if ValidMove(st, m) {
      var o := MadeMove(st, m);
      MadeMoveKeepsFlag(st, m);
      MateAndStalemate(o.state, SideToMove(o.state));
    }
  }

  /** makeMove does not touch the game-over flag itself. */
  lemma MadeMoveKeepsFlag(st: State, m: Move)
    ensures MadeMove(st, m).state.gameOver == st.gameOver
  {
    var moving := Get(st, m.from);
    var st0 := if moving.piece != Pawn then st.(enPassant := InvalidSquare) else st;
    var o :=
      if moving.piece == Pawn then PawnMoved(st0, m)
      else if moving.piece == King then KingMoved(st0, m)
      else if moving.piece == Rook then RookMoved(st0, m)
      else MoveOutcome(st0, Get(st0, m.to));
    assert o.state.gameOver == st.gameOver;
    var s1 := Set(o.state, m.to, moving);
    assert s1.gameOver == st.gameOver;
    var s2 := Set(s1, m.from, NoPiece);
    assert s2.gameOver == st.gameOver;
    assert PieceMoved(st, m) == MoveOutcome(s2, o.captured);
  }

  /** A valid move on a sane position, with a promotion only onto a last row, gives a sane
      position again, so each further query may run its probes. */
  lemma PlayedKeepsSane(st: State, m: Move)
    requires Sane(st) && PromotionOnLastRow(m)
    ensures Sane(Played(st, m).state)
  {
    if ValidMove(st, m) {
      ValidMoveKeepsSane(st, m);
    }
  }

  /** ChessBoard::makeMove: isValidMove first, then MoveMaker's makeMove, then the checkmate and
      stalemate queries for the side now to move. */
  method MakeMove(p: Position, m: Move) returns (captured: ColoredPiece)
    requires p.Valid() && p.HistoryInRange() && Sane(p.Snapshot()) && PromotionOnLastRow(m)
    modifies p.board, p`enPassant, p`castleWhite, p`castleBlack, p`halfmove, p`fullmove
    modifies p`whiteToMove, p`history, p`cursor, p`gameOver
    ensures MoveOutcome(p.Snapshot(), captured) == Played(old(p.Snapshot()), m)
    ensures p.HistoryInRange() && Sane(p.Snapshot())
    ensures !ValidMove(old(p.Snapshot()), m) ==> p.history == old(p.history) && p.cursor == old(p.cursor)
    ensures ValidMove(old(p.Snapshot()), m) ==>
      p.history == old(p.history[..p.cursor]) + [MakerContext(old(p.Snapshot()), m)]
      && p.cursor == old(p.cursor) + 1
  {
    ghost var st := p.Snapshot();
    var valid := Validation.IsValidMove(p, m);
    if !valid {
      return NoPiece;
    }
    captured := MoveMaker.MakeMove(p, m);
    ghost var made := p.Snapshot();
    ValidMoveKeepsSane(st, m);
    RaiseGameOver(p);
    PlayedFromMade(st, m, made, captured);
    PlayedKeepsSane(st, m);
  }

  /** The tail of makeMove: the flag goes up when the side to move is checkmated or stalemated. */
  method RaiseGameOver(p: Position)
    requires p.Valid() && Sane(p.Snapshot())
    modifies p.board, p`enPassant, p`castleWhite, p`castleBlack, p`whiteToMove, p`gameOver
    modifies p`halfmove, p`fullmove
    ensures p.Snapshot() == old(p.Snapshot()).(gameOver := old(p.gameOver) || GameOver(old(p.Snapshot())))
  {
    ghost var st := p.Snapshot();
    var over := IsCheckmate(p);
    if !over {
      over := IsStalemate(p);
    }
    if over {
      p.gameOver := true;
    }
  }

  /** The outcome of Played, assembled from MoveMaker's outcome and the two queries. */
  lemma PlayedFromMade(st: State, m: Move, made: State, captured: ColoredPiece)
    requires ValidMove(st, m) && MoveOutcome(made, captured) == MadeMove(st, m)
    ensures Played(st, m) == MoveOutcome(made.(gameOver := made.gameOver || GameOver(made)), captured)
  {
  }

  /** isCheckmate: the side to move is in check and has no legal move. */
  method IsCheckmate(p: Position) returns (mate: bool)
    requires p.Valid() && Sane(p.Snapshot())
    modifies p.board, p`enPassant, p`castleWhite, p`castleBlack, p`whiteToMove, p`gameOver
    modifies p`halfmove, p`fullmove
    ensures p.Snapshot() == old(p.Snapshot())
    ensures mate == InCheckmate(old(p.Snapshot()), SideToMove(old(p.Snapshot())))
  {
    var c := if p.whiteToMove then White else Black;
    mate := Validation.IsInCheckmate(p, c);
  }

  /** isStalemate: the side to move is not in check and has no legal move. */
  method IsStalemate(p: Position) returns (stalemate: bool)
    requires p.Valid() && Sane(p.Snapshot())
    modifies p.board, p`enPassant, p`castleWhite, p`castleBlack, p`whiteToMove, p`gameOver
    modifies p`halfmove, p`fullmove
    ensures p.Snapshot() == old(p.Snapshot())
    ensures stalemate == InStalemate(old(p.Snapshot()), SideToMove(old(p.Snapshot())))
  {
    var c := if p.whiteToMove then White else Black;
    stalemate := Validation.IsInStalemate(p, c);
  }

  /** Position::getIsGameOver: checkmate or stalemate of the side to move, which is the side to
      move having no legal move. */
  method GetIsGameOver(p: Position) returns (over: bool)
    requires p.Valid() && Sane(p.Snapshot())
    modifies p.board, p`enPassant, p`castleWhite, p`castleBlack, p`whiteToMove, p`gameOver
    modifies p`halfmove, p`fullmove
    ensures p.Snapshot() == old(p.Snapshot())
    ensures over == GameOver(old(p.Snapshot()))
    ensures over <==> !AnyLegalMove(old(p.Snapshot()), SideToMove(old(p.Snapshot())))
  {
    ghost var st := p.Snapshot();
    over := IsCheckmate(p);
    if !over {
      over := IsStalemate(p);
    }
    MateAndStalemate(st, SideToMove(st));
  }
}
