/** The ChessBoard-generation engine: the material evaluation with a mate score, a plain negamax
    (no pruning) whose probes use ChessBoard's movePiece and unmovePiece, and minimax to twice
    the search depth.  movePiece does not hand the turn over, so the tree this engine searches
    keeps the side to move at every level; BoardTree is that tree as written, and CorrectedTree
    is the tree with the turn handed over. */
module ChessEngines {
  import opened Types
  import opened BoardState
  import opened MoveRules
  import opened Legality
  import opened Positions
  import opened Material
  import opened GameTrees
  import opened MoveParsers
  import Engines
  import ChessBoards
  import MoveMaker
  import Validation

  /** INF is the largest 32-bit int, and the mate score is INF. */
  const Inf: int := 0x7fff_ffff
  const MateScore: int := Inf
  /** searchMoveDepth's initial value; minimax searches twice as deep. */
  const SearchMoveDepth: nat := 1

  /** evaluateBoard on a position value: minus the mate score when White is checkmated, the mate
      score when Black is, 0 in stalemate, otherwise the material balance. */
  function BoardEvaluation(st: State): int {
    Engines.Evaluation(st, -MateScore, MateScore)
  }

  /** The evaluation is White's point of view: a mate against either side scores the full mate
      score against that side, a stalemate scores 0, and any other position its material. */
  lemma BoardEvaluationMeaning(st: State)
    ensures InCheckmate(st, SideToMove(st)) ==> BoardEvaluation(st) == (if st.whiteToMove then -Inf else Inf)
    ensures InStalemate(st, SideToMove(st)) ==> BoardEvaluation(st) == 0
    ensures AnyLegalMove(st, SideToMove(st)) ==> BoardEvaluation(st) == MaterialSum(st)
  {
    Engines.EvaluationMeaning(st, -MateScore, MateScore);
  }

  /** The material loop of evaluateBoard: the empty squares are skipped, which adds nothing. */
  method BoardMaterial(p: Position) returns (score: int)
    requires p.Valid()
    ensures score == MaterialSum(p.Snapshot())
  {
    ghost var b := p.Snapshot().board;
    score := 0;
    for row := 0 to 8
      invariant score == RowsMaterial(b, row)
    {
      for col := 0 to 8
        invariant score == RowsMaterial(b, row) + RowMaterial(b, row, col)
      {
        var cp := p.GetPiece(Square(row, col));
        if cp != NoPiece {
          score := score + PieceValue(cp);
        }
      }
    }
  }

  /** evaluateBoard: the checkmate and stalemate queries of the side to move, then the loop. */
  method EvaluateBoard(p: Position) returns (score: int)
    requires p.Valid() && Sane(p.Snapshot())
    modifies p.board, p`enPassant, p`castleWhite, p`castleBlack, p`whiteToMove, p`gameOver
    modifies p`halfmove, p`fullmove
    ensures p.Snapshot() == old(p.Snapshot())
    ensures score == BoardEvaluation(old(p.Snapshot()))
  {
    var mate := ChessBoards.IsCheckmate(p);
    if mate {
      score := if p.whiteToMove then -MateScore else MateScore;
      return;
    }
    var stalemate := ChessBoards.IsStalemate(p);
    if stalemate {
      return 0;
    }
    score := BoardMaterial(p);
  }

  /** evaluateBoardForColor: the evaluation for WHITE, its negation for any other colour. */
  method EvaluateBoardForColor(p: Position, c: Color) returns (score: int)
    requires p.Valid() && Sane(p.Snapshot())
    modifies p.board, p`enPassant, p`castleWhite, p`castleBlack, p`whiteToMove, p`gameOver
    modifies p`halfmove, p`fullmove
    ensures p.Snapshot() == old(p.Snapshot())
    ensures score == Engines.EvaluationFor(old(p.Snapshot()), c, -MateScore, MateScore)
  {
    score := EvaluateBoard(p);
    if c != White {
      score := -score;
    }
  }

  /** The tree negaMax searches as written: a leaf scored by evaluateBoard at depth 0 or when the
      game-over flag is up, otherwise one subtree per legal move of the side to move, each on the
      position movePiece leaves, with the same side still to move. */
  function BoardTree(st: State, depth: nat): Tree
    decreases depth, 0
  {
    if depth == 0 || st.gameOver then Leaf(BoardEvaluation(st))
    else Node(BoardSubtrees(st, depth - 1))
  }

  function BoardSubtrees(st: State, depth: nat): (ts: seq<Tree>)
    ensures |ts| == |LegalMoves(st, SideToMove(st))|
    decreases depth, 2
  {
    var moves := LegalMoves(st, SideToMove(st));
    seq(|moves|, i requires 0 <= i < |moves| => BoardMoveTree(st, moves, i, depth))
  }

  /** The tree below the k-th of the given moves: the tree of the position movePiece reaches. */
  function BoardMoveTree(st: State, moves: seq<Move>, k: int, depth: nat): Tree
    requires 0 <= k < |moves|
    decreases depth, 1
  {
    BoardTree(PieceMoved(st, moves[k]).state, depth)
  }

  /** t is the node whose i-th child is the tree below the i-th of the given moves. */
  ghost predicate BoardChildren(t: Tree, st: State, moves: seq<Move>, depth: nat) {
    t.Node? && |t.children| == |moves|
    && forall k {:trigger BoardMoveTree(st, moves, k, depth)} :: 0 <= k < |moves| ==>
         t.children[k] == BoardMoveTree(st, moves, k, depth)
  }

  /** The subtrees of a position are the trees below its legal moves, in order. */
  lemma BoardSubtreesAreChildren(st: State, depth: nat)
    ensures BoardChildren(Node(BoardSubtrees(st, depth)), st, LegalMoves(st, SideToMove(st)), depth)
  {
  }

  /** Above depth 0 and without the flag, negaMax is the best negated score of the subtrees. */
  lemma BoardInnerNode(st: State, depth: nat) returns (t: Tree)
    requires depth > 0 && !st.gameOver
    ensures BoardChildren(t, st, LegalMoves(st, SideToMove(st)), depth - 1)
    ensures GameTrees.NegaMax(BoardTree(st, depth), Inf) == BestOfFirst(t, |t.children|, Inf)
  {
    t := Node(BoardSubtrees(st, depth - 1));
    BoardSubtreesAreChildren(st, depth - 1);
  }

  /** The move history after a search: getMoveContext erases the entries from the cursor on, so
      the history is the old one or its prefix up to the cursor. */
  ghost predicate HistoryKept(h0: seq<MoveContext>, h: seq<MoveContext>, cursor: int) {
    h == h0 || (0 <= cursor <= |h0| && h == h0[..cursor])
  }

  lemma HistoryKeptTrans(h0: seq<MoveContext>, h1: seq<MoveContext>, h2: seq<MoveContext>, cursor: int)
    requires HistoryKept(h0, h1, cursor) && HistoryKept(h1, h2, cursor)
    ensures HistoryKept(h0, h2, cursor)
  {
  }

  /** negaMax: evaluateBoard at depth 0 or when the game-over flag is up, otherwise the best
      negated score over the legal moves.  The position is left as it was found. */
  method NegaMax(p: Position, depth: nat) returns (score: int)
    requires p.Valid() && p.HistoryInRange() && Sane(p.Snapshot())
    modifies p.board, p`enPassant, p`castleWhite, p`castleBlack, p`whiteToMove, p`gameOver
    modifies p`halfmove, p`fullmove, p`history
    ensures p.Snapshot() == old(p.Snapshot()) && p.HistoryInRange()
    ensures HistoryKept(old(p.history), p.history, p.cursor)
    ensures score == GameTrees.NegaMax(BoardTree(old(p.Snapshot()), depth), Inf)
    decreases depth, 1
  {
    if depth == 0 || p.gameOver {
      score := EvaluateBoard(p);
    } else {
      score := BoardNode(p, depth);
    }
  }

  /** The inner branch of negaMax: getLegalMoves for the side to move, then the scan. */
  method BoardNode(p: Position, depth: nat) returns (score: int)
    requires p.Valid() && p.HistoryInRange() && Sane(p.Snapshot()) && depth > 0 && !p.gameOver
    modifies p.board, p`enPassant, p`castleWhite, p`castleBlack, p`whiteToMove, p`gameOver
    modifies p`halfmove, p`fullmove, p`history
    ensures p.Snapshot() == old(p.Snapshot()) && p.HistoryInRange()
    ensures HistoryKept(old(p.history), p.history, p.cursor)
    ensures score == GameTrees.NegaMax(BoardTree(old(p.Snapshot()), depth), Inf)
    decreases depth, 0
  {
    ghost var st := p.Snapshot();
    var color := if p.whiteToMove then White else Black;
    assert color == SideToMove(st);
    var moves := Validation.GetLegalMoves(p, color);
    ghost var t := BoardInnerNode(st, depth);
    score := ScanNegaMax(p, moves, t, depth - 1);
  }

  /** The loop of negaMax: max starts at -INF and rises to every strictly higher negated score. */
  method ScanNegaMax(p: Position, moves: seq<Move>, ghost t: Tree, depth: nat) returns (score: int)
    requires p.Valid() && p.HistoryInRange() && Sane(p.Snapshot())
    requires moves == LegalMoves(p.Snapshot(), SideToMove(p.Snapshot()))
    requires t.Node? && BoardChildren(t, p.Snapshot(), moves, depth)
    modifies p.board, p`enPassant, p`castleWhite, p`castleBlack, p`whiteToMove, p`gameOver
    modifies p`halfmove, p`fullmove, p`history
    ensures p.Snapshot() == old(p.Snapshot()) && p.HistoryInRange()
    ensures HistoryKept(old(p.history), p.history, p.cursor)
    ensures score == BestOfFirst(t, |t.children|, Inf)
    decreases depth, 3
  {
    ghost var st := p.Snapshot();
    score := -Inf;
    var i := 0;
    while i < |moves|
      invariant 0 <= i <= |moves| && p.Snapshot() == st && p.HistoryInRange()
      invariant HistoryKept(old(p.history), p.history, p.cursor)
      invariant score == BestOfFirst(t, i, Inf)
    {
      ghost var h := p.history;
      var s := BoardChild(p, moves, i, t, depth);
      HistoryKeptTrans(old(p.history), h, p.history, p.cursor);
      if s > score {
        score := s;
      }
      i := i + 1;
    }
  }

  /** One probe of the loops: getMoveContext, movePiece, the search below, unmovePiece; the
      result is the negated score of the i-th subtree. */
  method BoardChild(p: Position, moves: seq<Move>, i: int, ghost t: Tree, depth: nat) returns (score: int)
    requires p.Valid() && p.HistoryInRange() && Sane(p.Snapshot())
    requires moves == LegalMoves(p.Snapshot(), SideToMove(p.Snapshot()))
    requires 0 <= i < |moves| && BoardChildren(t, p.Snapshot(), moves, depth)
    modifies p.board, p`enPassant, p`castleWhite, p`castleBlack, p`whiteToMove, p`gameOver
    modifies p`halfmove, p`fullmove, p`history
    ensures p.Snapshot() == old(p.Snapshot()) && p.HistoryInRange()
    ensures HistoryKept(old(p.history), p.history, p.cursor)
    ensures score == ChildValue(t, i, Inf)
    decreases depth, 2
  {
    ghost var st := p.Snapshot();
    var m := moves[i];
    Engines.LegalProbe(st, m);
    var ctx := MoveMaker.GetMoveContext(p, m);
    ghost var h := p.history;
    var _ := MoveMaker.MovePiece(p, m);
    var r := NegaMax(p, depth);
    MoveMaker.UnmovePiece(p, ctx);
    score := -r;
    HistoryKeptTrans(old(p.history), h, p.history, p.cursor);
    UnmoveRestores(st, m, 0);
    UnmoveIgnoresMoverAndHash(PieceMoved(st, m).state, MakerContext(st, m), Get(st, m.from), 0);
    assert t.children[i] == BoardMoveTree(st, moves, i, depth);
  }

  /** The root of minimax: one subtree per legal move, searched to twice the search depth. */
  function RootTree(st: State): (t: Tree)
    ensures t.Node? && |t.children| == |LegalMoves(st, SideToMove(st))|
  {
    Node(BoardSubtrees(st, SearchMoveDepth * 2 - 1))
  }

  /** minimax's choice: no move while no move scores above -INF (bestMove is then never
      assigned), otherwise the move the root loop keeps. */
  function BestMove(st: State): Option<Move> {
    var k := RootPlain(RootTree(st), Inf);
    if k == -1 then None else Some(LegalMoves(st, SideToMove(st))[k])
  }

  /** minimax: the legal moves of the side to move, each scored by the negated negaMax one level
      down, the best replaced only on a strictly higher score.  The position is left as it was
      found. */
  method Minimax(p: Position) returns (best: Option<Move>)
    requires p.Valid() && p.HistoryInRange() && Sane(p.Snapshot())
    modifies p.board, p`enPassant, p`castleWhite, p`castleBlack, p`whiteToMove, p`gameOver
    modifies p`halfmove, p`fullmove, p`history
    ensures p.Snapshot() == old(p.Snapshot()) && p.HistoryInRange()
    ensures HistoryKept(old(p.history), p.history, p.cursor)
    ensures best == BestMove(old(p.Snapshot()))
  {
    ghost var st := p.Snapshot();
    var depth := SearchMoveDepth * 2;
    var color := if p.whiteToMove then White else Black;
    assert color == SideToMove(st);
    var moves := Validation.GetLegalMoves(p, color);
    ghost var t := RootNode(st);
    best := RootScan(p, moves, t, depth - 1);
  }

  /** The root as the node of the subtrees one level down. */
  lemma RootNode(st: State) returns (t: Tree)
    ensures BoardChildren(t, st, LegalMoves(st, SideToMove(st)), SearchMoveDepth * 2 - 1)
    ensures var k := RootPlain(t, Inf);
      BestMove(st) == if k == -1 then None else Some(LegalMoves(st, SideToMove(st))[k])
  {
    t := RootTree(st);
    BoardSubtreesAreChildren(st, SearchMoveDepth * 2 - 1);
  }

  /** The root loop of minimax. */
  method RootScan(p: Position, moves: seq<Move>, ghost t: Tree, depth: nat) returns (best: Option<Move>)
    requires p.Valid() && p.HistoryInRange() && Sane(p.Snapshot())
    requires moves == LegalMoves(p.Snapshot(), SideToMove(p.Snapshot()))
    requires t.Node? && BoardChildren(t, p.Snapshot(), moves, depth)
    modifies p.board, p`enPassant, p`castleWhite, p`castleBlack, p`whiteToMove, p`gameOver
    modifies p`halfmove, p`fullmove, p`history
    ensures p.Snapshot() == old(p.Snapshot()) && p.HistoryInRange()
    ensures HistoryKept(old(p.history), p.history, p.cursor)
    ensures var k := RootPlain(t, Inf); best == if k == -1 then None else Some(moves[k])
  {
    ghost var st := p.Snapshot();
    ghost var goal := RootPlain(t, Inf);
    ghost var k := -1;
    best := None;
    var bestValue := -Inf;
    var i := 0;
    while i < |moves|
      invariant 0 <= i <= |moves| && -1 <= k < |moves| && p.Snapshot() == st && p.HistoryInRange()
      invariant HistoryKept(old(p.history), p.history, p.cursor)
      invariant best == if k == -1 then None else Some(moves[k])
      invariant RootPlainFrom(t, i, k, bestValue, Inf) == goal
    {
      ghost var h := p.history;
      var value := BoardChild(p, moves, i, t, depth);
      HistoryKeptTrans(old(p.history), h, p.history, p.cursor);
      RootPlainFromStep(t, i, k, bestValue, Inf, -value);
      if value > bestValue {
        bestValue := value;
        best := Some(moves[i]);
        k := i;
      }
      i := i + 1;
    }
  }

  /** The value minimax compares for the k-th legal move. */
  function MoveValue(st: State, k: int): int
    requires 0 <= k < |LegalMoves(st, SideToMove(st))|
  {
    -GameTrees.NegaMax(BoardTree(PieceMoved(st, LegalMoves(st, SideToMove(st))[k]).state, SearchMoveDepth * 2 - 1), Inf)
  }

  lemma MoveValues(st: State)
    ensures forall j :: 0 <= j < |LegalMoves(st, SideToMove(st))| ==> ChildValue(RootTree(st), j, Inf) == MoveValue(st, j)
  {
  }

  /** minimax returns no move exactly when no legal move values above -INF, in particular when
      there is no legal move. */
  lemma BestMoveIsNone(st: State)
    ensures BestMove(st) == None <==> forall j :: 0 <= j < |LegalMoves(st, SideToMove(st))| ==> MoveValue(st, j) <= -Inf
  {
    RootPlainMeaning(RootTree(st), Inf);
    MoveValues(st);
  }

  /** Otherwise minimax returns the first legal move of the highest value. */
  lemma BestMoveIsFirstBest(st: State)
    requires BestMove(st) != None
    ensures var moves := LegalMoves(st, SideToMove(st));
      exists k :: 0 <= k < |moves| && BestMove(st) == Some(moves[k])
        && (forall j :: 0 <= j < |moves| ==> MoveValue(st, j) <= MoveValue(st, k))
        && (forall j :: 0 <= j < k ==> MoveValue(st, j) < MoveValue(st, k))
  {
    var moves := LegalMoves(st, SideToMove(st));
    var t := RootTree(st);
    var k := RootPlain(t, Inf);
    RootPlainBest(t, Inf);
    MoveValues(st);
    assert BestMove(st) == Some(moves[k]);
  }

  /** AStarSearch is a stub: whatever the depth and side, Move{0,0,0,0}. */
  function AStarSearch(depth: int, whitesTurn: bool): (m: Move)
    ensures m.from == m.to == Square(0, 0) && m.promotion == NoPiece
  {
    Move(Square(0, 0), Square(0, 0), NoPiece)
  }

  /** As written, a probe keeps the side to move: every move searched below the root is again a
      move of the side to move at the root, so the opponent's replies are never considered; and
      the game-over flag never goes up inside the search. */
  lemma BoardTreeKeepsMover(st: State, m: Move)
    ensures PieceMoved(st, m).state.whiteToMove == st.whiteToMove
    ensures SideToMove(PieceMoved(st, m).state) == SideToMove(st)
    ensures PieceMoved(st, m).state.gameOver == st.gameOver
  {
    var moving := Get(st, m.from);
    var st0 := if moving.piece != Pawn then st.(enPassant := InvalidSquare) else st;
    var o :=
      if moving.piece == Pawn then PawnMoved(st0, m)
      else if moving.piece == King then KingMoved(st0, m)
      else if moving.piece == Rook then RookMoved(st0, m)
      else MoveOutcome(st0, Get(st0, m.to));
    if moving.piece == Pawn {
      PawnKeepsTurn(st0, m);
    } else if moving.piece == King {
      KingKeepsTurn(st0, m);
    }
    assert PieceMoved(st, m) == MoveOutcome(Set(Set(o.state, m.to, moving), m.from, NoPiece), o.captured);
  }

  lemma PawnKeepsTurn(st: State, m: Move)
    ensures PawnMoved(st, m).state.whiteToMove == st.whiteToMove
    ensures PawnMoved(st, m).state.gameOver == st.gameOver
  {
  }

  lemma KingKeepsTurn(st: State, m: Move)
    ensures KingMoved(st, m).state.whiteToMove == st.whiteToMove
    ensures KingMoved(st, m).state.gameOver == st.gameOver
  {
  }

  /** The tree with the turn handed over after each probe and every leaf scored for the side to
      move, as engine.cpp's search does. */
  function CorrectedTree(st: State, depth: nat): Tree {
    Engines.SearchTree(st, depth, -MateScore, MateScore)
  }

  /** Corrected, each level below the root is a position of the other side, and the negamax
      value is White maximizing and Black minimizing the evaluation. */
  lemma CorrectedTreeAlternates(st: State, depth: nat, m: Move)
    ensures Engines.Probed(st, m).whiteToMove == !st.whiteToMove
    ensures GameTrees.NegaMax(CorrectedTree(st, depth), Inf) ==
      if st.whiteToMove then MiniMax(Engines.WhiteTree(st, depth, -MateScore, MateScore), true, Inf)
      else -MiniMax(Engines.WhiteTree(st, depth, -MateScore, MateScore), false, Inf)
  {
    Engines.SearchIsMiniMax(st, depth, -MateScore, MateScore, Inf);
  }
}
