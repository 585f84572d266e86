/** The engine of the Position generation (src/engine.cpp): material evaluation, the evaluation
    relative to a colour, negamax with alpha-beta pruning and the minimax root that picks the
    move.  The searches run on the shared Position with a make/unmake probe per move; each is
    proved to compute the alpha-beta score of an explicit game tree built from the position, and
    the tree theorems of GameTrees say what that score means. */
module Engines {
  import opened Types
  import opened BoardState
  import opened MoveRules
  import opened Movement
  import opened Legality
  import opened Positions
  import opened Material
  import opened GameTrees
  import ChessBoards
  import MoveMaker
  import Validation

  /** The move minimax returns when the side to move has no legal move. */
  const NullMove := Move(Square(0, 0), Square(0, 0), NoPiece)

  /** evaluatePosition: the side to move checkmated scores BLACK_WIN_SCORE when it is White and
      WHITE_WIN_SCORE when it is Black (both constants are parameters here), stalemate scores 0,
      and otherwise the material balance counts. */
  function Evaluation(st: State, blackWin: int, whiteWin: int): int {
    var c := SideToMove(st);
    if InCheckmate(st, c) then (if st.whiteToMove then blackWin else whiteWin)
    else if InStalemate(st, c) then 0
    else MaterialSum(st)
  }

  /** While the side to move has a legal move the evaluation is the material balance; without
      one it is the colour's loss score when in check and 0 otherwise. */
  lemma EvaluationMeaning(st: State, blackWin: int, whiteWin: int)
    ensures AnyLegalMove(st, SideToMove(st)) ==> Evaluation(st, blackWin, whiteWin) == MaterialSum(st)
    ensures !AnyLegalMove(st, SideToMove(st)) ==>
      Evaluation(st, blackWin, whiteWin) ==
        if !InCheck(st, SideToMove(st)) then 0 else if st.whiteToMove then blackWin else whiteWin
  {
    MateAndStalemate(st, SideToMove(st));
  }

  /** evaluatePositionForColor: the evaluation for WHITE, its negation for any other colour. */
  function EvaluationFor(st: State, c: Color, blackWin: int, whiteWin: int): int {
    var e := Evaluation(st, blackWin, whiteWin);
    if c == White then e else -e
  }

  /** The two sides see opposite scores, and an unknown colour sees Black's. */
  lemma EvaluationForSides(st: State, blackWin: int, whiteWin: int)
    ensures EvaluationFor(st, White, blackWin, whiteWin) == -EvaluationFor(st, Black, blackWin, whiteWin)
    ensures EvaluationFor(st, NoColor, blackWin, whiteWin) == EvaluationFor(st, Black, blackWin, whiteWin)
    ensures EvaluationFor(st, SideToMove(st), blackWin, whiteWin)
      == (if st.whiteToMove then 1 else -1) * Evaluation(st, blackWin, whiteWin)
  {
  }

  /** The position a probe of move m searches: movePiece, then changeTurn. */
  function Probed(st: State, m: Move): (r: State)
    ensures r.whiteToMove == !st.whiteToMove
  {
    PieceMoved(st, m).state.(whiteToMove := !st.whiteToMove)
  }

  /** The game tree negaMaxAlphaBeta explores at the given depth: a leaf at depth 0 or when the
      game is over, scored for the side to move; otherwise one subtree per legal move. */
  function SearchTree(st: State, depth: nat, blackWin: int, whiteWin: int): Tree
    decreases depth, 0
  {
    if depth == 0 || GameOver(st) then Leaf(EvaluationFor(st, SideToMove(st), blackWin, whiteWin))
    else Node(Subtrees(st, depth - 1, blackWin, whiteWin))
  }

  /** The subtrees of the legal moves, in the order getLegalMoves lists them. */
  function Subtrees(st: State, depth: nat, blackWin: int, whiteWin: int): (ts: seq<Tree>)
    ensures |ts| == |LegalMoves(st, SideToMove(st))|
    decreases depth, 2
  {
    var moves := LegalMoves(st, SideToMove(st));
    seq(|moves|, i requires 0 <= i < |moves| => MoveTree(st, moves, i, depth, blackWin, whiteWin))
  }

  /** The search tree below the k-th of the given moves: the tree of the position its probe
      reaches. */
  function MoveTree(st: State, moves: seq<Move>, k: int, depth: nat, blackWin: int, whiteWin: int): Tree
    requires 0 <= k < |moves|
    decreases depth, 1
  {
    SearchTree(Probed(st, moves[k]), depth, blackWin, whiteWin)
  }

  /** The subtree of the i-th legal move is the search tree of the position its probe reaches. */
  lemma SubtreeAt(st: State, depth: nat, i: int, blackWin: int, whiteWin: int)
    requires 0 <= i < |LegalMoves(st, SideToMove(st))|
    ensures Subtrees(st, depth, blackWin, whiteWin)[i]
      == SearchTree(Probed(st, LegalMoves(st, SideToMove(st))[i]), depth, blackWin, whiteWin)
  {
  }

  /** The same tree with every leaf scored for White: the minimax reference. */
  function WhiteTree(st: State, depth: nat, blackWin: int, whiteWin: int): Tree
    decreases depth
  {
    if depth == 0 || GameOver(st) then Leaf(Evaluation(st, blackWin, whiteWin))
    else
      var moves := LegalMoves(st, SideToMove(st));
      Node(seq(|moves|, i requires 0 <= i < |moves| => WhiteTree(Probed(st, moves[i]), depth - 1, blackWin, whiteWin)))
  }

  /** The search tree is the White tree seen from the side to move. */
  lemma {:induction false} SearchTreeIsRelative(st: State, depth: nat, blackWin: int, whiteWin: int)
    ensures SearchTree(st, depth, blackWin, whiteWin) == Relative(WhiteTree(st, depth, blackWin, whiteWin), st.whiteToMove)
    decreases depth
  {
    if !(depth == 0 || GameOver(st)) {
      var moves := LegalMoves(st, SideToMove(st));
      var w := WhiteTree(st, depth, blackWin, whiteWin);
      var a := Subtrees(st, depth - 1, blackWin, whiteWin);
      var b := Relative(w, st.whiteToMove).children;
      forall i | 0 <= i < |moves|
        ensures a[i] == b[i]
      {
        SubtreeAt(st, depth - 1, i, blackWin, whiteWin);
        SearchTreeIsRelative(Probed(st, moves[i]), depth - 1, blackWin, whiteWin);
      }
      assert a == b;
    }
  }

  /** The engine's search is minimax: White maximizes the evaluation and Black minimizes it, and
      the negamax score is that value seen from the side to move. */
  lemma SearchIsMiniMax(st: State, depth: nat, blackWin: int, whiteWin: int, inf: int)
    ensures NegaMax(SearchTree(st, depth, blackWin, whiteWin), inf) ==
      if st.whiteToMove then MiniMax(WhiteTree(st, depth, blackWin, whiteWin), true, inf)
      else -MiniMax(WhiteTree(st, depth, blackWin, whiteWin), false, inf)
  {
    SearchTreeIsRelative(st, depth, blackWin, whiteWin);
    NegaMaxIsMiniMax(WhiteTree(st, depth, blackWin, whiteWin), st.whiteToMove, inf);
  }

  /** A move getLegalMoves lists can be probed: unmovePiece takes it back exactly, and the
      position it leads to is sane again, so the search may go on from there. */
  lemma LegalProbe(st: State, m: Move)
    requires Sane(st) && m in LegalMoves(st, SideToMove(st))
    ensures Reversible(st, m) && Sane(PieceMoved(st, m).state) && Sane(Probed(st, m))
  {
    LegalMovesFacts(st, SideToMove(st), m);
    assert PromotionOnLastRow(m);
    ValidMoveKeepsSane(st, m);
    ProbeIsReversible(st, m);
  }

  /** The material loop of evaluatePosition: getPieceValue summed over the rows and columns. */
  method MaterialScore(p: Position) returns (score: int)
    requires p.Valid()
    ensures score == MaterialSum(p.Snapshot())
  {
    ghost var b := p.Snapshot().board;
    score := 0;
    for row := 0 to 8
      invariant score == RowsMaterial(b, row)
    {
      for col := 0 to 8
        invariant score == RowsMaterial(b, row) + RowMaterial(b, row, col)
      {
        var cp := p.GetPiece(Square(row, col));
        score := score + PieceValue(cp);
      }
    }
  }

  /** evaluatePosition: the checkmate and stalemate queries, then the material loop. */
  method EvaluatePosition(p: Position, blackWin: int, whiteWin: int) returns (score: int)
    requires p.Valid() && Sane(p.Snapshot())
    modifies p.board, p`enPassant, p`castleWhite, p`castleBlack, p`whiteToMove, p`gameOver
    modifies p`halfmove, p`fullmove
    ensures p.Snapshot() == old(p.Snapshot())
    ensures score == Evaluation(old(p.Snapshot()), blackWin, whiteWin)
  {
    var mate := ChessBoards.IsCheckmate(p);
    if mate {
      score := if p.whiteToMove then blackWin else whiteWin;
      return;
    }
    var stalemate := ChessBoards.IsStalemate(p);
    if stalemate {
      return 0;
    }
    score := MaterialScore(p);
  }

  /** evaluatePositionForColor. */
  method EvaluatePositionFor(p: Position, c: Color, blackWin: int, whiteWin: int) returns (score: int)
    requires p.Valid() && Sane(p.Snapshot())
    modifies p.board, p`enPassant, p`castleWhite, p`castleBlack, p`whiteToMove, p`gameOver
    modifies p`halfmove, p`fullmove
    ensures p.Snapshot() == old(p.Snapshot())
    ensures score == EvaluationFor(old(p.Snapshot()), c, blackWin, whiteWin)
  {
    score := EvaluatePosition(p, blackWin, whiteWin);
    if c != White {
      score := -score;
    }
  }

  /** negaMaxAlphaBeta: at depth 0 or when the game is over the evaluation for the side to move,
      otherwise the scan of the legal moves.  The position is left as it was found. */
  method NegaMaxAlphaBeta(p: Position, depth: nat, alpha: int, beta: int, inf: int, blackWin: int, whiteWin: int)
    returns (score: int)
    requires p.Valid() && Sane(p.Snapshot())
    modifies p.board, p`enPassant, p`castleWhite, p`castleBlack, p`whiteToMove, p`gameOver
    modifies p`halfmove, p`fullmove
    ensures p.Snapshot() == old(p.Snapshot())
    ensures score == AlphaBeta(SearchTree(old(p.Snapshot()), depth, blackWin, whiteWin), alpha, beta, inf)
    decreases depth, 1
  {
    var over := ChessBoards.GetIsGameOver(p);
    if depth == 0 || over {
      var color := if p.whiteToMove then White else Black;
      score := EvaluatePositionFor(p, color, blackWin, whiteWin);
    } else {
      score := SearchNode(p, depth, alpha, beta, inf, blackWin, whiteWin);
    }
  }

  /** The inner branch of negaMaxAlphaBeta: getLegalMoves for the side to move, then the scan. */
  method SearchNode(p: Position, depth: nat, alpha: int, beta: int, inf: int, blackWin: int, whiteWin: int)
    returns (score: int)
    requires p.Valid() && Sane(p.Snapshot()) && depth > 0 && !GameOver(p.Snapshot())
    modifies p.board, p`enPassant, p`castleWhite, p`castleBlack, p`whiteToMove, p`gameOver
    modifies p`halfmove, p`fullmove
    ensures p.Snapshot() == old(p.Snapshot())
    ensures score == AlphaBeta(SearchTree(old(p.Snapshot()), depth, blackWin, whiteWin), alpha, beta, inf)
    decreases depth, 0
  {
    ghost var st := p.Snapshot();
    var color := if p.whiteToMove then White else Black;
    assert color == SideToMove(st);
    var moves := Validation.GetLegalMoves(p, color);
    ghost var t := InnerNode(st, depth, alpha, beta, inf, blackWin, whiteWin);
    score := ScanAlphaBeta(p, moves, t, depth - 1, alpha, beta, inf, blackWin, whiteWin);
  }

  /** t is the node whose i-th child is the search tree below the i-th of the given moves. */
  ghost predicate ChildTrees(t: Tree, st: State, moves: seq<Move>, depth: nat, blackWin: int, whiteWin: int) {
    t.Node? && |t.children| == |moves|
    && forall k {:trigger MoveTree(st, moves, k, depth, blackWin, whiteWin)} :: 0 <= k < |moves| ==>
         t.children[k] == MoveTree(st, moves, k, depth, blackWin, whiteWin)
  }

  /** The subtrees of a position are the trees below its legal moves, in order. */
  lemma SubtreesAreChildTrees(st: State, depth: nat, blackWin: int, whiteWin: int)
    ensures ChildTrees(Node(Subtrees(st, depth, blackWin, whiteWin)), st, LegalMoves(st, SideToMove(st)),
                       depth, blackWin, whiteWin)
  {
    var moves := LegalMoves(st, SideToMove(st));
    forall k | 0 <= k < |moves|
      ensures Subtrees(st, depth, blackWin, whiteWin)[k] == MoveTree(st, moves, k, depth, blackWin, whiteWin)
    {
      SubtreeAt(st, depth, k, blackWin, whiteWin);
    }
  }

  /** Below depth 0 and before the game is over, the search scores the node of the subtrees. */
  lemma InnerNode(st: State, depth: nat, alpha: int, beta: int, inf: int, blackWin: int, whiteWin: int)
    returns (t: Tree)
    requires depth > 0 && !GameOver(st)
    ensures ChildTrees(t, st, LegalMoves(st, SideToMove(st)), depth - 1, blackWin, whiteWin)
    ensures AlphaBeta(SearchTree(st, depth, blackWin, whiteWin), alpha, beta, inf) == AlphaBetaFrom(t, 0, alpha, beta, -inf, inf)
  {
    t := Node(Subtrees(st, depth - 1, blackWin, whiteWin));
    SubtreesAreChildTrees(st, depth - 1, blackWin, whiteWin);
  }

  /** The loop of negaMaxAlphaBeta: each legal move is probed with the window (-beta, -alpha),
      maxScore and alpha rise with the negated scores, and the scan stops once alpha reaches
      beta. */
  method ScanAlphaBeta(p: Position, moves: seq<Move>, ghost t: Tree, depth: nat, alpha: int, beta: int, inf: int,
                       blackWin: int, whiteWin: int)
    returns (score: int)
    requires p.Valid() && Sane(p.Snapshot()) && moves == LegalMoves(p.Snapshot(), SideToMove(p.Snapshot()))
    requires t.Node? && ChildTrees(t, p.Snapshot(), moves, depth, blackWin, whiteWin)
    modifies p.board, p`enPassant, p`castleWhite, p`castleBlack, p`whiteToMove, p`gameOver
    modifies p`halfmove, p`fullmove
    ensures p.Snapshot() == old(p.Snapshot())
    ensures score == AlphaBetaFrom(t, 0, alpha, beta, -inf, inf)
    decreases depth, 3
  {
    ghost var st := p.Snapshot();
    ghost var goal := AlphaBetaFrom(t, 0, alpha, beta, -inf, inf);
    score := -inf;
    var a := alpha;
    var i := 0;
    while i < |moves|
      invariant 0 <= i <= |moves| && p.Snapshot() == st
      invariant AlphaBetaFrom(t, i, a, beta, score, inf) == goal
    {
      var r := SearchChild(p, moves, i, t, depth, -beta, -a, inf, blackWin, whiteWin);
      AlphaBetaFromStep(t, i, a, beta, score, inf, r);
      var s := -r;
      if s > score {
        score := s;
        if s > a {
          a := s;
        }
      }
      if a >= beta {
        return;
      }
      i := i + 1;
    }
  }

  /** One probe of the search loops, for the i-th legal move: movePiece and changeTurn, the
      search below, then the turn handed back and unmovePiece. */
  method SearchChild(p: Position, moves: seq<Move>, i: int, ghost t: Tree, depth: nat, alpha: int, beta: int,
                     inf: int, blackWin: int, whiteWin: int)
    returns (score: int)
    requires p.Valid() && Sane(p.Snapshot()) && moves == LegalMoves(p.Snapshot(), SideToMove(p.Snapshot()))
    requires 0 <= i < |moves| && ChildTrees(t, p.Snapshot(), moves, depth, blackWin, whiteWin)
    modifies p.board, p`enPassant, p`castleWhite, p`castleBlack, p`whiteToMove, p`gameOver
    modifies p`halfmove, p`fullmove
    ensures p.Snapshot() == old(p.Snapshot())
    ensures score == AlphaBeta(t.children[i], alpha, beta, inf)
    decreases depth, 2
  {
    ghost var st := p.Snapshot();
    var m := moves[i];
    LegalProbe(st, m);
    var ctx := p.GetMoveContext(m);
    var _ := MoveMaker.MovePiece(p, m);
    p.ChangeTurn();
    score := NegaMaxAlphaBeta(p, depth, alpha, beta, inf, blackWin, whiteWin);
    p.ChangeTurn();
    MoveMaker.UnmovePiece(p, ctx);
    UnmoveRestores(st, m, ctx.previousHash);
    assert t.children[i] == MoveTree(st, moves, i, depth, blackWin, whiteWin);
  }

  /** The root of the search: one subtree per legal move of the side to move. */
  function RootTree(st: State, depth: nat, blackWin: int, whiteWin: int): (t: Tree)
    requires depth >= 1
    ensures t.Node? && |t.children| == |LegalMoves(st, SideToMove(st))|
  {
    Node(Subtrees(st, depth - 1, blackWin, whiteWin))
  }

  /** minimax's choice: Move{0,0,0,0} without a legal move, otherwise the legal move the root
      loop keeps. */
  function BestMove(st: State, depth: nat, inf: int, blackWin: int, whiteWin: int): Move
    requires depth >= 1
  {
    var moves := LegalMoves(st, SideToMove(st));
    if |moves| == 0 then NullMove
    else moves[RootAlphaBeta(RootTree(st, depth, blackWin, whiteWin), inf)]
  }

  /** minimax: Move{0,0,0,0} when the side to move has no legal move, otherwise the root loop.
      The position is left as it was found. */
  method Minimax(p: Position, depth: nat, inf: int, blackWin: int, whiteWin: int) returns (best: Move)
    requires p.Valid() && Sane(p.Snapshot()) && depth >= 1
    modifies p.board, p`enPassant, p`castleWhite, p`castleBlack, p`whiteToMove, p`gameOver
    modifies p`halfmove, p`fullmove
    ensures p.Snapshot() == old(p.Snapshot())
    ensures best == BestMove(old(p.Snapshot()), depth, inf, blackWin, whiteWin)
  {
    ghost var st := p.Snapshot();
    var color := if p.whiteToMove then White else Black;
    assert color == SideToMove(st);
    var moves := Validation.GetLegalMoves(p, color);
    if |moves| == 0 {
      return NullMove;
    }
    ghost var t := RootNode(st, depth, inf, blackWin, whiteWin);
    best := RootScan(p, moves, t, depth - 1, inf, blackWin, whiteWin);
  }

  /** The root of minimax as the node of the subtrees one level down. */
  lemma RootNode(st: State, depth: nat, inf: int, blackWin: int, whiteWin: int) returns (t: Tree)
    requires depth >= 1 && |LegalMoves(st, SideToMove(st))| > 0
    ensures ChildTrees(t, st, LegalMoves(st, SideToMove(st)), depth - 1, blackWin, whiteWin)
    ensures BestMove(st, depth, inf, blackWin, whiteWin) == LegalMoves(st, SideToMove(st))[RootAlphaBeta(t, inf)]
  {
    t := RootTree(st, depth, blackWin, whiteWin);
    SubtreesAreChildTrees(st, depth - 1, blackWin, whiteWin);
  }

  /** The root loop of minimax: the first move as the default, each move probed with the window
      (-inf, -alpha), a strictly better score replacing the best move, alpha following the best
      score. */
  method RootScan(p: Position, moves: seq<Move>, ghost t: Tree, depth: nat, inf: int, blackWin: int, whiteWin: int)
    returns (best: Move)
    requires p.Valid() && Sane(p.Snapshot())
    requires moves == LegalMoves(p.Snapshot(), SideToMove(p.Snapshot())) && |moves| > 0
    requires t.Node? && ChildTrees(t, p.Snapshot(), moves, depth, blackWin, whiteWin)
    modifies p.board, p`enPassant, p`castleWhite, p`castleBlack, p`whiteToMove, p`gameOver
    modifies p`halfmove, p`fullmove
    ensures p.Snapshot() == old(p.Snapshot())
    ensures best == moves[RootAlphaBeta(t, inf)]
  {
    ghost var st := p.Snapshot();
    ghost var goal := RootAlphaBeta(t, inf);
    ghost var k := 0;
    best := moves[0];
    var bestValue := -inf;
    var alpha := -inf;
    var i := 0;
    while i < |moves|
      invariant 0 <= i <= |moves| && 0 <= k < |moves| && best == moves[k] && p.Snapshot() == st
      invariant RootAlphaBetaFrom(t, i, k, bestValue, alpha, inf) == goal
    {
      var r := SearchChild(p, moves, i, t, depth, -inf, -alpha, inf, blackWin, whiteWin);
      RootAlphaBetaFromStep(t, i, k, bestValue, alpha, inf, r);
      var score := -r;
      if score > bestValue {
        bestValue := score;
        best := moves[i];
        k := i;
      }
      if score > alpha {
        alpha := score;
      }
      i := i + 1;
    }
  }

  /** The value minimax compares for the k-th legal move: the negated search score of the
      position it leads to. */
  function MoveValue(st: State, depth: nat, k: int, inf: int, blackWin: int, whiteWin: int): int
    requires depth >= 1 && 0 <= k < |LegalMoves(st, SideToMove(st))|
  {
    -NegaMax(SearchTree(Probed(st, LegalMoves(st, SideToMove(st))[k]), depth - 1, blackWin, whiteWin), inf)
  }

  /** minimax returns Move{0,0,0,0} exactly when the side to move has no legal move. */
  lemma BestMoveIsNull(st: State, depth: nat, inf: int, blackWin: int, whiteWin: int)
    requires depth >= 1
    ensures BestMove(st, depth, inf, blackWin, whiteWin) == NullMove <==> |LegalMoves(st, SideToMove(st))| == 0
  {
    var moves := LegalMoves(st, SideToMove(st));
    if |moves| > 0 {
      var k := RootAlphaBeta(RootTree(st, depth, blackWin, whiteWin), inf);
      LegalMovesFacts(st, SideToMove(st), moves[k]);
    }
  }

  /** When there is a legal move and every move's score lies strictly inside (-inf, inf),
      minimax returns the first legal move whose value is the highest: no move values more, and
      every earlier move values strictly less. */
  lemma BestMoveIsFirstBest(st: State, depth: nat, inf: int, blackWin: int, whiteWin: int)
    requires depth >= 1 && |LegalMoves(st, SideToMove(st))| > 0
    requires ScoresInside(RootTree(st, depth, blackWin, whiteWin), inf)
    ensures var moves := LegalMoves(st, SideToMove(st));
      exists k :: 0 <= k < |moves| && BestMove(st, depth, inf, blackWin, whiteWin) == moves[k]
        && (forall j :: 0 <= j < |moves| ==>
              MoveValue(st, depth, j, inf, blackWin, whiteWin) <= MoveValue(st, depth, k, inf, blackWin, whiteWin))
        && (forall j :: 0 <= j < k ==>
              MoveValue(st, depth, j, inf, blackWin, whiteWin) < MoveValue(st, depth, k, inf, blackWin, whiteWin))
  {
    var moves := LegalMoves(st, SideToMove(st));
    var t := RootTree(st, depth, blackWin, whiteWin);
    var k := RootAlphaBeta(t, inf);
    RootAlphaBetaIsFirstBest(t, inf);
    FirstBestOfMeaning(t, |moves|, inf);
    ChildValues(st, depth, inf, blackWin, whiteWin);
    assert BestMove(st, depth, inf, blackWin, whiteWin) == moves[k];
  }

  /** The value of the i-th child of the root is the value of the i-th legal move. */
  lemma ChildValues(st: State, depth: nat, inf: int, blackWin: int, whiteWin: int)
    requires depth >= 1
    ensures forall j :: 0 <= j < |LegalMoves(st, SideToMove(st))| ==>
      ChildValue(RootTree(st, depth, blackWin, whiteWin), j, inf) == MoveValue(st, depth, j, inf, blackWin, whiteWin)
  {
    var moves := LegalMoves(st, SideToMove(st));
    forall j | 0 <= j < |moves|
      ensures ChildValue(RootTree(st, depth, blackWin, whiteWin), j, inf) == MoveValue(st, depth, j, inf, blackWin, whiteWin)
    {
      SubtreeAt(st, depth - 1, j, blackWin, whiteWin);
    }
  }
}
