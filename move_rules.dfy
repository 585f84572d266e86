/** What MoveMaker does to a position, as functions of the position value: movePiece and its
    per-piece helpers, unmovePiece, and the clock and turn bookkeeping of makeMove.  The
    imperative MoveMaker methods are proved to compute exactly these. */
module MoveRules {
  import opened Types
  import opened BoardState

  /** The position after a board move, and the piece that the moving code reports as captured. */
  datatype MoveOutcome = MoveOutcome(state: State, captured: ColoredPiece)

  /** promotePawn: the promotion kind in the mover's colour goes to the destination. */
  function PawnPromoted(st: State, m: Move): MoveOutcome {
    var promoted := m.promotion.(color := Get(st, m.from).color);
    MoveOutcome(Set(Set(st, m.to, promoted), m.from, NoPiece), Get(st, m.to))
  }

  /** movePawn. */
  function PawnMoved(st: State, m: Move): MoveOutcome {
    if m.promotion != NoPiece then PawnPromoted(st, m)
    else
      var white := Get(st, m.from).color == White;
      var moving := Get(st, m.from);
      var behind := Behind(m.to, white);
      var epCapture := m.to == st.enPassant;
      var captured1 := if epCapture then Get(st, behind) else Get(st, m.to);
      var st1 := if epCapture then Set(st, behind, NoPiece) else st;
      var doubleStep := Abs(m.from.row - m.to.row) == 2;
      var st2 := st1.(enPassant := if doubleStep then behind else InvalidSquare);
      var captured := if doubleStep then NoPiece else captured1;
      var lastRow := if Get(st2, m.from).color == White then 0 else 7;
      var st3 := if m.to.row == lastRow then Set(st2, m.to, m.promotion) else st2;
      MoveOutcome(Set(Set(st3, m.from, NoPiece), m.to, moving), captured)
  }

  /** moveKing: a two-column king move also carries the rook from the corner to the square the
      king passes; the king's colour loses both castling rights. */
  function KingMoved(st: State, m: Move): MoveOutcome {
    var king := Get(st, m.from);
    var r := m.from.row;
    var st1 :=
      if Abs(m.from.col - m.to.col) == 2 then
        if m.from.col < m.to.col then
          Set(Set(st, Square(r, 7), NoPiece), Square(r, 5), Get(st, Square(r, 7)))
        else
          Set(Set(st, Square(r, 0), NoPiece), Square(r, 3), Get(st, Square(r, 0)))
      else st;
    var captured := Get(st1, m.to);
    var st2 := Set(Set(st1, m.to, Get(st1, m.from)), m.from, NoPiece);
    MoveOutcome(WithCastle(st2, king.color, NoCastling), captured)
  }

  /** moveRook: leaving column 7 drops the king-side right, leaving column 0 the queen-side one. */
  function RookMoved(st: State, m: Move): MoveOutcome {
    var c := Get(st, m.from).color;
    var st1 :=
      if m.from.col == 7 then WithCastle(st, c, CastleOf(st, c) & !KingSide)
      else if m.from.col == 0 then WithCastle(st, c, CastleOf(st, c) & !QueenSide)
      else st;
    MoveOutcome(st1, Get(st, m.to))
  }

  /** The three cases of moveRook, one per column the rook leaves. */
  lemma RookMovedCases(st: State, m: Move)
    ensures RookMoved(st, m).captured == Get(st, m.to)
    ensures m.from.col == 7 ==> (RookMoved(st, m).state ==
      WithCastle(st, Get(st, m.from).color, CastleOf(st, Get(st, m.from).color) & !KingSide))
    ensures m.from.col == 0 ==> (RookMoved(st, m).state ==
      WithCastle(st, Get(st, m.from).color, CastleOf(st, Get(st, m.from).color) & !QueenSide))
    ensures m.from.col != 7 && m.from.col != 0 ==> RookMoved(st, m).state == st
  {
  }

  /** movePiece: a non-pawn move clears the en-passant target, the per-piece helper runs, and
      finally the mover is written on the destination and the source is emptied. */
  function PieceMoved(st: State, m: Move): MoveOutcome {
    var moving := Get(st, m.from);
    var st0 := if moving.piece != Pawn then st.(enPassant := InvalidSquare) else st;
    var o :=
      if moving.piece == Pawn then PawnMoved(st0, m)
      else if moving.piece == King then KingMoved(st0, m)
      else if moving.piece == Rook then RookMoved(st0, m)
      else MoveOutcome(st0, Get(st0, m.to));
    MoveOutcome(Set(Set(o.state, m.to, moving), m.from, NoPiece), o.captured)
  }

  /** unmovePiece: the board half (UnmovedBoard), then the saved fields copied back (Restored). */
  function PieceUnmoved(st: State, ctx: MoveContext): State {
    Restored(UnmovedBoard(st, ctx), ctx)
  }

  /** unmovePiece's board half: move the piece back, restore the captured piece (behind the
      destination for en passant) and put a castled rook back in its corner. */
  function UnmovedBoard(st: State, ctx: MoveContext): State {
    var m := ctx.move;
    var st1 := Set(Set(st, m.from, Get(st, m.to)), m.to, ctx.capturedPiece);
    var st2 :=
      if ctx.wasEnPassantCapture then
        Set(Set(st1, Behind(m.to, ctx.previousWhiteToMove), ctx.capturedPiece), m.to, NoPiece)
      else st1;
    var r := m.to.row;
    if ctx.wasCastling then
      if m.to.col == 6 then Set(Set(st2, Square(r, 7), Get(st2, Square(r, 5))), Square(r, 5), NoPiece)
      else if m.to.col == 2 then Set(Set(st2, Square(r, 0), Get(st2, Square(r, 3))), Square(r, 3), NoPiece)
      else st2
    else st2
  }

  /** The fields unmovePiece copies back from a context; the board is left alone. */
  function Restored(st: State, ctx: MoveContext): State {
    st.(enPassant := ctx.previousEnPassant, castleWhite := ctx.previousCastleWhite,
        castleBlack := ctx.previousCastleBlack, whiteToMove := ctx.previousWhiteToMove,
        gameOver := ctx.previousGameOver, halfmove := ctx.previousHalfmove,
        fullmove := ctx.previousFullmove)
  }

  /** The context MoveMaker's getMoveContext records: that of the position, with the mover and
      the hash left at their defaults. */
  function MakerContext(st: State, m: Move): (ctx: MoveContext)
    ensures ctx.move == m && ctx.movedPiece == NoPiece && ctx.previousHash == 0
    ensures ctx.(movedPiece := Get(st, m.from), previousHash := 0) == ContextOf(st, 0, m)
  {
    ContextOf(st, 0, m).(movedPiece := NoPiece)
  }

  /** increaseHalfmoveClock: a pawn move or a capture resets the clock, anything else ticks it. */
  function NextHalfmove(moving: ColoredPiece, captured: ColoredPiece, halfmove: int): (h: int)
    ensures moving.piece == Pawn || captured != NoPiece ==> h == 0
    ensures moving.piece != Pawn && captured == NoPiece ==> h == halfmove + 1
  {
    if moving.piece == Pawn then 0 else if captured != NoPiece then 0 else halfmove + 1
  }

  /** makeMove's effect on the position: the board move, the half-move clock, the full-move number
      (which counts Black's moves) and the turn. */
  function MadeMove(st: State, m: Move): MoveOutcome {
    var o := PieceMoved(st, m);
    var st1 := o.state.(
      halfmove := NextHalfmove(Get(st, m.from), o.captured, st.halfmove),
      fullmove := st.fullmove + (if st.whiteToMove then 0 else 1),
      whiteToMove := !st.whiteToMove);
    MoveOutcome(st1, o.captured)
  }

  /** redoMove's effect: the board move again and a turn flip, with the clocks left as they are. */
  function Redone(st: State, m: Move): State {
    PieceMoved(st, m).state.(whiteToMove := !st.whiteToMove)
  }

  /** The moves after which unmovePiece restores the position exactly: both squares on the board
      and distinct, a two-column king move is a castling from column 4 along its row onto an
      empty rook square, and a pawn landing on the en-passant target lands on an empty square and
      belongs to the side to move. */
  predicate Reversible(st: State, m: Move) {
    var moving := Get(st, m.from);
    OnBoard(m.from) && OnBoard(m.to) && m.from != m.to
    && (moving.piece == King && Abs(m.from.col - m.to.col) == 2 ==>
          m.from.col == 4 && m.from.row == m.to.row
          && (m.to.col == 6 ==> IsEmptySquare(st, Square(m.from.row, 5)))
          && (m.to.col == 2 ==> IsEmptySquare(st, Square(m.from.row, 3))))
    && (moving.piece == Pawn && m.to == st.enPassant ==>
          IsEmptySquare(st, m.to) && ((moving.color == White) == st.whiteToMove))
  }

  // The squares after unmovePiece, one shape of context at a time.

  /** A context without en passant or castling: the destination gets the captured piece back, the
      source gets what stands on the destination, every other square is left alone. */
  lemma UnmovedPlainSquare(x: State, ctx: MoveContext, s: Square)
    requires !ctx.wasEnPassantCapture && !ctx.wasCastling
    requires OnBoard(ctx.move.from) && OnBoard(ctx.move.to) && ctx.move.from != ctx.move.to && OnBoard(s)
    ensures Get(UnmovedBoard(x, ctx), s) ==
      if s == ctx.move.to then ctx.capturedPiece
      else if s == ctx.move.from then Get(x, ctx.move.to)
      else Get(x, s)
  {
  }

  /** An en-passant context: the captured pawn returns behind the destination, which is left
      empty. */
  lemma UnmovedEnPassantSquare(x: State, ctx: MoveContext, s: Square)
    requires ctx.wasEnPassantCapture && !ctx.wasCastling
    requires OnBoard(ctx.move.from) && OnBoard(ctx.move.to) && ctx.move.from != ctx.move.to && OnBoard(s)
    ensures Get(UnmovedBoard(x, ctx), s) ==
      if s == ctx.move.to then NoPiece
      else if s == Behind(ctx.move.to, ctx.previousWhiteToMove) then ctx.capturedPiece
      else if s == ctx.move.from then Get(x, ctx.move.to)
      else Get(x, s)
  {
    var m := ctx.move;
    var st1 := Set(Set(x, m.from, Get(x, m.to)), m.to, ctx.capturedPiece);
    var behind := Behind(m.to, ctx.previousWhiteToMove);
    assert UnmovedBoard(x, ctx) == Set(Set(st1, behind, ctx.capturedPiece), m.to, NoPiece);
  }

  /** A castling context from column 4: besides the king's return, the rook goes from the square
      the king passed back to its corner. */
  lemma UnmovedCastlingSquare(x: State, ctx: MoveContext, s: Square, corner: Square, landing: Square)
    requires !ctx.wasEnPassantCapture && ctx.wasCastling
    requires OnBoard(ctx.move.from) && OnBoard(ctx.move.to) && OnBoard(s)
    requires ctx.move.from.col == 4 && ctx.move.from.row == ctx.move.to.row
    requires ctx.move.to.col == 6 || ctx.move.to.col == 2
    requires corner == Square(ctx.move.to.row, if ctx.move.to.col == 6 then 7 else 0)
    requires landing == Square(ctx.move.to.row, if ctx.move.to.col == 6 then 5 else 3)
    ensures Get(UnmovedBoard(x, ctx), s) ==
      if s == ctx.move.to then ctx.capturedPiece
      else if s == ctx.move.from then Get(x, ctx.move.to)
      else if s == corner then Get(x, landing)
      else if s == landing then NoPiece
      else Get(x, s)
  {
    var m := ctx.move;
    var st1 := Set(Set(x, m.from, Get(x, m.to)), m.to, ctx.capturedPiece);
    assert Get(st1, landing) == Get(x, landing);
    assert UnmovedBoard(x, ctx) == Set(Set(st1, corner, Get(st1, landing)), landing, NoPiece);
  }

  // The board of a move followed by its undo, piece kind by piece kind.  `moved` is any position
  // with the board the move leaves, so that the clocks and the turn do not matter.

  lemma PlainUndone(st: State, m: Move, hash: bv64, moved: State)
    requires Reversible(st, m) && Get(st, m.from).piece !in {Pawn, King}
    requires moved.board == PieceMoved(st, m).state.board
    ensures UnmovedBoard(moved, ContextOf(st, hash, m)).board == st.board
  {
    var ctx := ContextOf(st, hash, m);
    var after := UnmovedBoard(moved, ctx);
    PlainMovedBoard(st, m);
    var written := Set(Set(st.(enPassant := InvalidSquare), m.to, Get(st, m.from)), m.from, NoPiece);
    assert forall s :: Get(moved, s) == Get(written, s);
    forall s | OnBoard(s) ensures Get(after, s) == Get(st, s) {
      UnmovedPlainSquare(moved, ctx, s);
    }
    BoardExtensionality(after, st);
  }

  /** A move of a piece other than a pawn or a king changes the board by the final two writes of
      movePiece only. */
  lemma PlainMovedBoard(st: State, m: Move)
    requires Get(st, m.from).piece !in {Pawn, King}
    ensures PieceMoved(st, m).state.board ==
      Set(Set(st.(enPassant := InvalidSquare), m.to, Get(st, m.from)), m.from, NoPiece).board
  {
    var moving := Get(st, m.from);
    var st0 := st.(enPassant := InvalidSquare);
    var o := if moving.piece == Rook then RookMoved(st0, m) else MoveOutcome(st0, Get(st0, m.to));
    RookMovedCases(st0, m);
    assert o.state.board == st0.board;
    SetReadsBoard(o.state, st0, m.to, moving);
    SetReadsBoard(Set(o.state, m.to, moving), Set(st0, m.to, moving), m.from, NoPiece);
  }

  /** Two positions with the same board read alike on every square. */
  lemma SameBoardSquares(a: State, b: State)
    requires a.board == b.board
    ensures forall s :: Get(a, s) == Get(b, s)
  {
  }

  /** A board write reads only the board it writes to. */
  lemma SetReadsBoard(a: State, b: State, s: Square, cp: ColoredPiece)
    requires a.board == b.board
    ensures Set(a, s, cp).board == Set(b, s, cp).board
  {
  }

  lemma KingStepUndone(st: State, m: Move, hash: bv64, moved: State)
    requires Reversible(st, m)
    requires Get(st, m.from).piece == King && Abs(m.from.col - m.to.col) != 2
    requires moved.board == PieceMoved(st, m).state.board
    ensures UnmovedBoard(moved, ContextOf(st, hash, m)).board == st.board
  {
    var ctx := ContextOf(st, hash, m);
    var after := UnmovedBoard(moved, ctx);
    assert Get(moved, m.to) == Get(st, m.from);
    assert forall s :: s != m.from && s != m.to ==> Get(moved, s) == Get(st, s);
    forall s | OnBoard(s) ensures Get(after, s) == Get(st, s) {
      UnmovedPlainSquare(moved, ctx, s);
    }
    BoardExtensionality(after, st);
  }

  /** The board right after a castling move: king on the destination, rook on the square the
      king passed, source and corner empty, every other square untouched. */
  lemma CastlingMovedBoard(st: State, m: Move, corner: Square, landing: Square)
    requires Reversible(st, m)
    requires Get(st, m.from).piece == King && Abs(m.from.col - m.to.col) == 2
    requires corner == (if m.from.col < m.to.col then Square(m.from.row, 7) else Square(m.from.row, 0))
    requires landing == (if m.from.col < m.to.col then Square(m.from.row, 5) else Square(m.from.row, 3))
    ensures var moved := PieceMoved(st, m).state;
      Get(moved, m.to) == Get(st, m.from) && Get(moved, m.from) == NoPiece
      && Get(moved, landing) == Get(st, corner) && Get(moved, corner) == NoPiece
      && forall s :: s != m.from && s != m.to && s != corner && s != landing ==> Get(moved, s) == Get(st, s)
  {
    var st0 := st.(enPassant := InvalidSquare);
    var r := m.from.row;
    var st1 := Set(Set(st0, corner, NoPiece), landing, Get(st0, corner));
    assert Get(st1, m.from) == Get(st, m.from);
    var st2 := Set(Set(st1, m.to, Get(st1, m.from)), m.from, NoPiece);
    assert KingMoved(st0, m).state == WithCastle(st2, Get(st, m.from).color, NoCastling);
  }

  lemma CastlingUndone(st: State, m: Move, hash: bv64, moved: State)
    requires Reversible(st, m)
    requires Get(st, m.from).piece == King && Abs(m.from.col - m.to.col) == 2
    requires moved.board == PieceMoved(st, m).state.board
    ensures UnmovedBoard(moved, ContextOf(st, hash, m)).board == st.board
  {
    var r := m.from.row;
    var kingSide := m.from.col < m.to.col;
    var corner := if kingSide then Square(r, 7) else Square(r, 0);
    var landing := if kingSide then Square(r, 5) else Square(r, 3);
    CastlingMovedBoard(st, m, corner, landing);
    var pm := PieceMoved(st, m).state;
    SameBoardSquares(moved, pm);
    var ctx := ContextOf(st, hash, m);
    var after := UnmovedBoard(moved, ctx);
    forall s | OnBoard(s) ensures Get(after, s) == Get(st, s) {
      UnmovedCastlingSquare(moved, ctx, s, corner, landing);
    }
    BoardExtensionality(after, st);
  }

  lemma KingUndone(st: State, m: Move, hash: bv64, moved: State)
    requires Reversible(st, m)
    requires Get(st, m.from).piece == King
    requires moved.board == PieceMoved(st, m).state.board
    ensures UnmovedBoard(moved, ContextOf(st, hash, m)).board == st.board
  {
    if Abs(m.from.col - m.to.col) == 2 {
      CastlingUndone(st, m, hash, moved);
    } else {
      KingStepUndone(st, m, hash, moved);
    }
  }

  lemma PromotionUndone(st: State, m: Move, hash: bv64, moved: State)
    requires Reversible(st, m)
    requires Get(st, m.from).piece == Pawn && m.promotion != NoPiece
    requires moved.board == PieceMoved(st, m).state.board
    ensures UnmovedBoard(moved, ContextOf(st, hash, m)).board == st.board
  {
    var ctx := ContextOf(st, hash, m);
    assert !ctx.wasCastling;
    var after := UnmovedBoard(moved, ctx);
    assert Get(moved, m.to) == Get(st, m.from);
    assert forall s :: s != m.from && s != m.to ==> Get(moved, s) == Get(st, s);
    if ctx.wasEnPassantCapture {
      var behind := Behind(m.to, st.whiteToMove);
      assert ctx.capturedPiece == Get(st, behind);
      forall s | OnBoard(s) ensures Get(after, s) == Get(st, s) {
        UnmovedEnPassantSquare(moved, ctx, s);
      }
    } else {
      forall s | OnBoard(s) ensures Get(after, s) == Get(st, s) {
        UnmovedPlainSquare(moved, ctx, s);
      }
    }
    BoardExtensionality(after, st);
  }

  lemma PawnStepUndone(st: State, m: Move, hash: bv64, moved: State)
    requires Reversible(st, m)
    requires Get(st, m.from).piece == Pawn && m.promotion == NoPiece && m.to != st.enPassant
    requires moved.board == PieceMoved(st, m).state.board
    ensures UnmovedBoard(moved, ContextOf(st, hash, m)).board == st.board
  {
    var ctx := ContextOf(st, hash, m);
    assert !ctx.wasEnPassantCapture && !ctx.wasCastling;
    var after := UnmovedBoard(moved, ctx);
    assert Get(moved, m.to) == Get(st, m.from);
    assert forall s :: s != m.from && s != m.to ==> Get(moved, s) == Get(st, s);
    forall s | OnBoard(s) ensures Get(after, s) == Get(st, s) {
      UnmovedPlainSquare(moved, ctx, s);
    }
    BoardExtensionality(after, st);
  }

  /** One square after an en-passant capture: the pawn on the destination, its origin and the
      captured pawn's square empty, everything else as before. */
  lemma EnPassantMovedSquare(st: State, m: Move, s: Square)
    requires Reversible(st, m)
    requires Get(st, m.from).piece == Pawn && m.promotion == NoPiece && m.to == st.enPassant
    requires OnBoard(s)
    ensures Get(PieceMoved(st, m).state, s) ==
      if s == m.to then Get(st, m.from)
      else if s == m.from || s == Behind(m.to, st.whiteToMove) then NoPiece
      else Get(st, s)
  {
  }

  lemma EnPassantUndone(st: State, m: Move, hash: bv64, moved: State)
    requires Reversible(st, m)
    requires Get(st, m.from).piece == Pawn && m.promotion == NoPiece && m.to == st.enPassant
    requires moved.board == PieceMoved(st, m).state.board
    ensures UnmovedBoard(moved, ContextOf(st, hash, m)).board == st.board
  {
    var ctx := ContextOf(st, hash, m);
    assert ctx.wasEnPassantCapture && !ctx.wasCastling;
    assert ctx.capturedPiece == Get(st, Behind(m.to, st.whiteToMove));
    var after := UnmovedBoard(moved, ctx);
    forall s | OnBoard(s) ensures Get(after, s) == Get(st, s) {
      EnPassantMovedSquare(st, m, s);
      SameBoardSquares(moved, PieceMoved(st, m).state);
      UnmovedEnPassantSquare(moved, ctx, s);
    }
    BoardExtensionality(after, st);
  }

  lemma PawnUndone(st: State, m: Move, hash: bv64, moved: State)
    requires Reversible(st, m)
    requires Get(st, m.from).piece == Pawn
    requires moved.board == PieceMoved(st, m).state.board
    ensures UnmovedBoard(moved, ContextOf(st, hash, m)).board == st.board
  {
    if m.promotion != NoPiece {
      PromotionUndone(st, m, hash, moved);
    } else if m.to == st.enPassant {
      EnPassantUndone(st, m, hash, moved);
    } else {
      PawnStepUndone(st, m, hash, moved);
    }
  }

  /** The board half of unmovePiece, on any position with the board the move left, gives back
      the board before the move. */
  lemma UnmovedBoardRestores(st: State, m: Move, hash: bv64, moved: State)
    requires Reversible(st, m)
    requires moved.board == PieceMoved(st, m).state.board
    ensures UnmovedBoard(moved, ContextOf(st, hash, m)).board == st.board
  {
    var p := Get(st, m.from).piece;
    if p == Pawn {
      PawnUndone(st, m, hash, moved);
    } else if p == King {
      KingUndone(st, m, hash, moved);
    } else {
      PlainUndone(st, m, hash, moved);
    }
  }

  /** unmovePiece with the context taken before movePiece restores the whole position. */
  lemma UnmoveRestores(st: State, m: Move, hash: bv64)
    requires Reversible(st, m)
    ensures PieceUnmoved(PieceMoved(st, m).state, ContextOf(st, hash, m)) == st
  {
    UnmovedBoardRestores(st, m, hash, PieceMoved(st, m).state);
  }

  /** The same holds for makeMove followed by undoMove: undo also restores clocks and turn. */
  lemma UndoRestores(st: State, m: Move, hash: bv64)
    requires Reversible(st, m)
    ensures PieceUnmoved(MadeMove(st, m).state, ContextOf(st, hash, m)) == st
  {
    UnmovedBoardRestores(st, m, hash, MadeMove(st, m).state);
  }

  /** unmovePiece reads neither the mover nor the hash of a context. */
  lemma UnmoveIgnoresMoverAndHash(x: State, ctx: MoveContext, mover: ColoredPiece, hash: bv64)
    ensures PieceUnmoved(x, ctx.(movedPiece := mover, previousHash := hash)) == PieceUnmoved(x, ctx)
  {
  }

  /** makeMove followed by undoMove gives back the position, with the context MoveMaker
      records. */
  lemma MakeThenUndo(st: State, m: Move)
    requires Reversible(st, m)
    ensures PieceUnmoved(MadeMove(st, m).state, MakerContext(st, m)) == st
  {
    UndoRestores(st, m, 0);
    UnmoveIgnoresMoverAndHash(MadeMove(st, m).state, MakerContext(st, m), Get(st, m.from), 0);
  }

  /** redoMove as written repeats the board move and flips the turn, but leaves both clocks where
      undoMove put them: a quiet move of a piece other than a pawn or a king is redone with the
      half-move clock it had before the move, where makeMove had advanced it by one. */
  lemma RedoKeepsHalfmove(st: State, m: Move)
    requires Get(st, m.from).piece !in {Pawn, King} && IsEmptySquare(st, m.to)
    ensures Redone(st, m).halfmove == st.halfmove && Redone(st, m).fullmove == st.fullmove
    ensures MadeMove(st, m).state.halfmove == st.halfmove + 1
  {
    var moving := Get(st, m.from);
    var st0 := st.(enPassant := InvalidSquare);
    RookMovedCases(st0, m);
    assert PieceMoved(st, m).captured == NoPiece;
  }

  /** Hence undoMove then redoMove after a quiet knight, bishop, rook or queen move does not
      reproduce the position makeMove produced. */
  lemma UndoRedoDiffers(st: State, m: Move)
    requires Reversible(st, m)
    requires Get(st, m.from).piece !in {Pawn, King} && IsEmptySquare(st, m.to)
    ensures Redone(PieceUnmoved(MadeMove(st, m).state, MakerContext(st, m)), m) != MadeMove(st, m).state
  {
    MakeThenUndo(st, m);
    RedoKeepsHalfmove(st, m);
  }

  /** The redoMove the history is meant to provide makes the move again, clocks included; then
      undoMove followed by redoMove gives back exactly the position after makeMove. */
  lemma UndoRedoCorrected(st: State, m: Move)
    requires Reversible(st, m)
    ensures MadeMove(PieceUnmoved(MadeMove(st, m).state, MakerContext(st, m)), m) == MadeMove(st, m)
  {
    MakeThenUndo(st, m);
  }
}
