/** The search algorithms of the two engines on an explicit game tree: a leaf carries the score
    the engine evaluates there, an inner node the subtrees of its legal moves in generation order.
    Scores are from the point of view of the side to move at the node (negamax), and inf plays
    the part of the engines' INF. */
module GameTrees {

  datatype Tree = Leaf(value: int) | Node(children: seq<Tree>)

  function Max(a: int, b: int): int {
    if a >= b then a else b
  }

  /** negaMax: a leaf's score, or the best negated child score; -inf when there are no children. */
  function NegaMax(t: Tree, inf: int): int
    decreases t, if t.Node? then |t.children| + 1 else 0
  {
    match t
    case Leaf(v) => v
    case Node(cs) => BestOfFirst(t, |cs|, inf)
  }

  /** The best negated score among the first k children of an inner node. */
  function BestOfFirst(t: Tree, k: int, inf: int): int
    requires t.Node? && 0 <= k <= |t.children|
    decreases t, k
  {
    if k == 0 then -inf
    else Max(BestOfFirst(t, k - 1, inf), -NegaMax(t.children[k - 1], inf))
  }

  /** negaMaxAlphaBeta: fail-soft alpha-beta; scanning stops as soon as alpha reaches beta. */
  function AlphaBeta(t: Tree, alpha: int, beta: int, inf: int): int
    decreases t, if t.Node? then |t.children| + 1 else 0
  {
    match t
    case Leaf(v) => v
    case Node(cs) => AlphaBetaFrom(t, 0, alpha, beta, -inf, inf)
  }

  /** The loop of negaMaxAlphaBeta from child i on, with the current alpha and maxScore. */
  function AlphaBetaFrom(t: Tree, i: int, alpha: int, beta: int, best: int, inf: int): int
    requires t.Node? && 0 <= i <= |t.children|
    decreases t, |t.children| - i
  {
    if i == |t.children| then best
    else
      var score := -AlphaBeta(t.children[i], -beta, -alpha, inf);
      var best' := if score > best then score else best;
      var alpha' := if score > best && score > alpha then score else alpha;
      if alpha' >= beta then best' else AlphaBetaFrom(t, i + 1, alpha', beta, best', inf)
  }

  /** One turn of negaMaxAlphaBeta's loop, given the score r of child i. */
  lemma AlphaBetaFromStep(t: Tree, i: int, alpha: int, beta: int, best: int, inf: int, r: int)
    requires t.Node? && 0 <= i < |t.children| && r == AlphaBeta(t.children[i], -beta, -alpha, inf)
    ensures var best' := if -r > best then -r else best;
      var alpha' := if -r > best && -r > alpha then -r else alpha;
      AlphaBetaFrom(t, i, alpha, beta, best, inf) ==
        if alpha' >= beta then best' else AlphaBetaFrom(t, i + 1, alpha', beta, best', inf)
  {
  }

  /** Adding children never lowers the best score. */
  lemma {:induction false} BestOfFirstGrows(t: Tree, j: int, k: int, inf: int)
    requires t.Node? && 0 <= j <= k <= |t.children|
    ensures BestOfFirst(t, j, inf) <= BestOfFirst(t, k, inf)
    decreases k - j
  {
    if j < k {
      BestOfFirstGrows(t, j, k - 1, inf);
    }
  }

  /** What one child's alpha-beta score says about its true score: a fail-high bounds it from
      above, a fail-low from below, and a score inside the window is exact. */
  predicate Brackets(r: int, v: int, alpha: int, beta: int) {
    (r <= alpha ==> v <= r) && (r >= beta ==> v >= r) && (alpha < r < beta ==> r == v)
  }

  /** The alpha-beta theorem: for a window inside [-inf, inf], the alpha-beta score brackets the
      negamax score; in particular it is exact when it falls strictly inside the window. */
  lemma {:induction false} AlphaBetaBrackets(t: Tree, alpha: int, beta: int, inf: int)
    requires -inf <= alpha < beta <= inf
    ensures Brackets(AlphaBeta(t, alpha, beta, inf), NegaMax(t, inf), alpha, beta)
    decreases t, if t.Node? then |t.children| + 1 else 0
  {
    if t.Node? {
      AlphaBetaFromBrackets(t, 0, alpha, beta, alpha, -inf, inf);
    }
  }

  /** The loop invariant of negaMaxAlphaBeta: the scan so far has not cut off, maxScore is at
      least the best true negated score so far and equals it once it exceeds the original alpha,
      and the current alpha is the larger of the original alpha and maxScore. */
  lemma {:induction false} AlphaBetaFromBrackets(t: Tree, i: int, alpha0: int, beta: int, alpha: int,
                                                 best: int, inf: int)
    requires t.Node? && 0 <= i <= |t.children|
    requires -inf <= alpha0 < beta <= inf && alpha == Max(alpha0, best) && alpha < beta
    requires BestOfFirst(t, i, inf) <= best && (best > alpha0 ==> best == BestOfFirst(t, i, inf))
    ensures Brackets(AlphaBetaFrom(t, i, alpha, beta, best, inf), NegaMax(t, inf), alpha0, beta)
    decreases t, |t.children| - i
  {
    var n := |t.children|;
    if i < n {
      var c := t.children[i];
      AlphaBetaBrackets(c, -beta, -alpha, inf);
      var score := -AlphaBeta(c, -beta, -alpha, inf);
      var w := -NegaMax(c, inf);
      ChildScore(score, w, alpha, beta);
      var best' := if score > best then score else best;
      var alpha' := if score > best && score > alpha then score else alpha;
      assert BestOfFirst(t, i + 1, inf) == Max(BestOfFirst(t, i, inf), w);
      if alpha' >= beta {
        BestOfFirstGrows(t, i + 1, n, inf);
      } else {
        AlphaBetaFromBrackets(t, i + 1, alpha0, beta, alpha', best', inf);
      }
    }
  }

  /** A child searched with the window (-beta, -alpha) and negated: its score bounds the
      negated true score as the window says. */
  lemma ChildScore(score: int, w: int, alpha: int, beta: int)
    requires Brackets(-score, -w, -beta, -alpha)
    ensures score >= beta ==> w >= score
    ensures score <= alpha ==> w <= score
    ensures alpha < score < beta ==> w == score
  {
  }

  /** With a window as wide as [-inf, inf] the alpha-beta score is the negamax score whenever
      the latter lies strictly inside it. */
  lemma AlphaBetaExact(t: Tree, inf: int)
    requires -inf < NegaMax(t, inf) < inf
    ensures AlphaBeta(t, -inf, inf, inf) == NegaMax(t, inf)
  {
    AlphaBetaBrackets(t, -inf, inf, inf);
  }

  /** The negated score of child k, the value the parent compares. */
  function ChildValue(t: Tree, k: int, inf: int): int
    requires t.Node? && 0 <= k < |t.children|
  {
    -NegaMax(t.children[k], inf)
  }

  /** The first of the first k children with the highest negated score. */
  function FirstBestOf(t: Tree, k: int, inf: int): (r: int)
    requires t.Node? && 1 <= k <= |t.children|
    ensures 0 <= r < k
  {
    if k == 1 then 0
    else
      var j := FirstBestOf(t, k - 1, inf);
      if ChildValue(t, k - 1, inf) > ChildValue(t, j, inf) then k - 1 else j
  }

  /** FirstBestOf is an argmax, and the first one: every earlier child scores strictly less. */
  lemma {:induction false} FirstBestOfMeaning(t: Tree, k: int, inf: int)
    requires t.Node? && 1 <= k <= |t.children|
    ensures forall j :: 0 <= j < k ==> ChildValue(t, j, inf) <= ChildValue(t, FirstBestOf(t, k, inf), inf)
    ensures forall j :: 0 <= j < FirstBestOf(t, k, inf) ==>
      ChildValue(t, j, inf) < ChildValue(t, FirstBestOf(t, k, inf), inf)
  {
    if k > 1 {
      FirstBestOfMeaning(t, k - 1, inf);
    }
  }

  /** Children whose scores lie strictly inside (-inf, inf). */
  predicate ScoresInside(t: Tree, inf: int)
    requires t.Node?
  {
    forall k :: 0 <= k < |t.children| ==> -inf < NegaMax(t.children[k], inf) < inf
  }

  /** The root loop of the alpha-beta engine's minimax: each child is searched with the window
      (-beta, -alpha) for beta = inf, and the first strictly better score replaces the best move
      (given by its index). */
  function RootAlphaBetaFrom(t: Tree, i: int, best: int, bestValue: int, alpha: int, inf: int): int
    requires t.Node? && 0 <= i <= |t.children|
    decreases |t.children| - i
  {
    if i == |t.children| then best
    else
      var score := -AlphaBeta(t.children[i], -inf, -alpha, inf);
      var alpha' := if score > alpha then score else alpha;
      if score > bestValue then RootAlphaBetaFrom(t, i + 1, i, score, alpha', inf)
      else RootAlphaBetaFrom(t, i + 1, best, bestValue, alpha', inf)
  }

  /** The index of the move minimax returns, starting from the first move with -inf. */
  function RootAlphaBeta(t: Tree, inf: int): (r: int)
    requires t.Node? && |t.children| > 0
    ensures 0 <= r < |t.children|
  {
    RootAlphaBetaInRange(t, 0, 0, -inf, -inf, inf);
    RootAlphaBetaFrom(t, 0, 0, -inf, -inf, inf)
  }

  /** The alpha-beta root returns the index of a child. */
  lemma {:induction false} RootAlphaBetaInRange(t: Tree, i: int, best: int, bestValue: int, alpha: int, inf: int)
    requires t.Node? && 0 <= i <= |t.children| && 0 <= best < |t.children|
    ensures 0 <= RootAlphaBetaFrom(t, i, best, bestValue, alpha, inf) < |t.children|
    decreases |t.children| - i
  {
    if i < |t.children| {
      var score := -AlphaBeta(t.children[i], -inf, -alpha, inf);
      var alpha' := if score > alpha then score else alpha;
      if score > bestValue {
        RootAlphaBetaInRange(t, i + 1, i, score, alpha', inf);
      } else {
        RootAlphaBetaInRange(t, i + 1, best, bestValue, alpha', inf);
      }
    }
  }

  /** One turn of minimax's root loop, given the score r of child i. */
  lemma RootAlphaBetaFromStep(t: Tree, i: int, best: int, bestValue: int, alpha: int, inf: int, r: int)
    requires t.Node? && 0 <= i < |t.children| && r == AlphaBeta(t.children[i], -inf, -alpha, inf)
    ensures var alpha' := if -r > alpha then -r else alpha;
      RootAlphaBetaFrom(t, i, best, bestValue, alpha, inf) ==
        if -r > bestValue then RootAlphaBetaFrom(t, i + 1, i, -r, alpha', inf)
        else RootAlphaBetaFrom(t, i + 1, best, bestValue, alpha', inf)
  {
  }

  /** When every child's score lies inside (-inf, inf), the alpha-beta root returns exactly the
      first child with the highest negamax score. */
  lemma RootAlphaBetaIsFirstBest(t: Tree, inf: int)
    requires t.Node? && |t.children| > 0 && ScoresInside(t, inf)
    ensures RootAlphaBeta(t, inf) == FirstBestOf(t, |t.children|, inf)
  {
    RootAlphaBetaStep(t, 0, 0, -inf, inf);
  }

  /** The root loop's invariant: after i >= 1 children, best is the first best of them and alpha
      and bestValue both hold its score; before the first child both are -inf. */
  lemma {:induction false} RootAlphaBetaStep(t: Tree, i: int, best: int, value: int, inf: int)
    requires t.Node? && 0 <= i < |t.children| && ScoresInside(t, inf)
    requires i == 0 ==> best == 0 && value == -inf
    requires i > 0 ==> best == FirstBestOf(t, i, inf) && value == ChildValue(t, best, inf)
    ensures RootAlphaBetaFrom(t, i, best, value, value, inf) == FirstBestOf(t, |t.children|, inf)
    decreases |t.children| - i
  {
    var c := t.children[i];
    assert -inf < NegaMax(c, inf) < inf;
    AlphaBetaBrackets(c, -inf, -value, inf);
    var score := -AlphaBeta(c, -inf, -value, inf);
    ChildScore(score, ChildValue(t, i, inf), value, inf);
    if i + 1 < |t.children| {
      if score > value {
        RootAlphaBetaStep(t, i + 1, i, score, inf);
      } else {
        RootAlphaBetaStep(t, i + 1, best, value, inf);
      }
    }
  }

  /** The root loop of the plain engine's minimax: the best move starts unset (-1) with -inf, and
      only a strictly higher negated score replaces it. */
  function RootPlainFrom(t: Tree, i: int, best: int, bestValue: int, inf: int): int
    requires t.Node? && 0 <= i <= |t.children|
    decreases |t.children| - i
  {
    if i == |t.children| then best
    else
      var score := -NegaMax(t.children[i], inf);
      if score > bestValue then RootPlainFrom(t, i + 1, i, score, inf)
      else RootPlainFrom(t, i + 1, best, bestValue, inf)
  }

  function RootPlain(t: Tree, inf: int): (r: int)
    requires t.Node?
    ensures -1 <= r < |t.children|
  {
    RootPlainInRange(t, 0, -1, -inf, inf);
    RootPlainFrom(t, 0, -1, -inf, inf)
  }

  /** The plain root returns -1 or the index of a child. */
  lemma {:induction false} RootPlainInRange(t: Tree, i: int, best: int, bestValue: int, inf: int)
    requires t.Node? && 0 <= i <= |t.children| && -1 <= best < |t.children|
    ensures -1 <= RootPlainFrom(t, i, best, bestValue, inf) < |t.children|
    decreases |t.children| - i
  {
    if i < |t.children| {
      var score := -NegaMax(t.children[i], inf);
      if score > bestValue {
        RootPlainInRange(t, i + 1, i, score, inf);
      } else {
        RootPlainInRange(t, i + 1, best, bestValue, inf);
      }
    }
  }

  /** One turn of the plain root loop, given the score r of child i. */
  lemma RootPlainFromStep(t: Tree, i: int, best: int, bestValue: int, inf: int, r: int)
    requires t.Node? && 0 <= i < |t.children| && r == NegaMax(t.children[i], inf)
    ensures RootPlainFrom(t, i, best, bestValue, inf) ==
      if -r > bestValue then RootPlainFrom(t, i + 1, i, -r, inf) else RootPlainFrom(t, i + 1, best, bestValue, inf)
  {
  }

  /** The plain root leaves the move unset exactly when no child scores above -inf, and otherwise
      returns the first child with the highest negated score. */
  lemma RootPlainMeaning(t: Tree, inf: int)
    requires t.Node?
    ensures RootPlain(t, inf) == -1 <==> forall k :: 0 <= k < |t.children| ==> ChildValue(t, k, inf) <= -inf
    ensures RootPlain(t, inf) != -1 ==> RootPlain(t, inf) == FirstBestOf(t, |t.children|, inf)
  {
    RootPlainStep(t, 0, -1, -inf, inf);
    if |t.children| > 0 {
      FirstBestOfMeaning(t, |t.children|, inf);
    }
  }

  /** A move the plain root sets is a child of the highest negated score, and the first such. */
  lemma RootPlainBest(t: Tree, inf: int)
    requires t.Node? && RootPlain(t, inf) != -1
    ensures var k := RootPlain(t, inf);
      0 <= k < |t.children|
      && (forall j :: 0 <= j < |t.children| ==> ChildValue(t, j, inf) <= ChildValue(t, k, inf))
      && (forall j :: 0 <= j < k ==> ChildValue(t, j, inf) < ChildValue(t, k, inf))
  {
    RootPlainMeaning(t, inf);
    FirstBestOfMeaning(t, |t.children|, inf);
  }

  /** The plain root loop's invariant: with nothing above -inf so far best is unset, and otherwise
      it is the first best so far. */
  lemma {:induction false} RootPlainStep(t: Tree, i: int, best: int, value: int, inf: int)
    requires t.Node? && 0 <= i <= |t.children|
    requires best == -1 ==> value == -inf && forall k :: 0 <= k < i ==> ChildValue(t, k, inf) <= -inf
    requires best != -1 ==>
      0 < i && best == FirstBestOf(t, i, inf) && value == ChildValue(t, best, inf) && value > -inf
    ensures var r := RootPlainFrom(t, i, best, value, inf);
      (r == -1 <==> forall k :: 0 <= k < |t.children| ==> ChildValue(t, k, inf) <= -inf)
      && (r != -1 ==> r == FirstBestOf(t, |t.children|, inf))
    decreases |t.children| - i
  {
    if i < |t.children| {
      var score := ChildValue(t, i, inf);
      if best == -1 && score > -inf {
        FirstBestOfFirstAbove(t, i + 1, inf);
      }
      if score > value {
        RootPlainStep(t, i + 1, i, score, inf);
      } else {
        RootPlainStep(t, i + 1, best, value, inf);
      }
    } else if best != -1 {
      assert ChildValue(t, best, inf) > -inf;
    }
  }

  /** When only the last of the first k children scores above -inf, it is the first best. */
  lemma FirstBestOfFirstAbove(t: Tree, k: int, inf: int)
    requires t.Node? && 1 <= k <= |t.children|
    requires forall j :: 0 <= j < k - 1 ==> ChildValue(t, j, inf) <= -inf
    requires ChildValue(t, k - 1, inf) > -inf
    ensures FirstBestOf(t, k, inf) == k - 1
  {
    if k > 1 {
      FirstBestOfMeaning(t, k - 1, inf);
    }
  }

  /** Plain minimax, as a reference: the maximizing side takes the largest child value and the
      other side the smallest, -inf and inf standing for no move. */
  function MiniMax(t: Tree, maximizing: bool, inf: int): int
    decreases t, if t.Node? then |t.children| + 1 else 0
  {
    match t
    case Leaf(v) => v
    case Node(cs) => ExtremeOfFirst(t, |cs|, maximizing, inf)
  }

  function ExtremeOfFirst(t: Tree, k: int, maximizing: bool, inf: int): int
    requires t.Node? && 0 <= k <= |t.children|
    decreases t, k
  {
    if k == 0 then (if maximizing then -inf else inf)
    else
      var rest := ExtremeOfFirst(t, k - 1, maximizing, inf);
      var v := MiniMax(t.children[k - 1], !maximizing, inf);
      if maximizing then Max(rest, v) else -Max(-rest, -v)
  }

  /** The tree seen from the side to move: leaves are negated where the minimizing side moves,
      and the sides alternate from level to level. */
  function Relative(t: Tree, maximizing: bool): (r: Tree)
    ensures t.Node? <==> r.Node?
    ensures t.Node? ==> |r.children| == |t.children|
    decreases t
  {
    match t
    case Leaf(v) => Leaf(if maximizing then v else -v)
    case Node(cs) => Node(seq(|cs|, i requires 0 <= i < |cs| => Relative(cs[i], !maximizing)))
  }

  /** Negamax on the side-relative tree is minimax: the maximizing side's value as it is, the
      minimizing side's negated. */
  lemma {:induction false} NegaMaxIsMiniMax(t: Tree, maximizing: bool, inf: int)
    ensures NegaMax(Relative(t, maximizing), inf)
      == (if maximizing then MiniMax(t, true, inf) else -MiniMax(t, false, inf))
    decreases t, if t.Node? then |t.children| + 1 else 0
  {
    if t.Node? {
      NegaMaxIsMiniMaxPrefix(t, |t.children|, maximizing, inf);
    }
  }

  lemma {:induction false} NegaMaxIsMiniMaxPrefix(t: Tree, k: int, maximizing: bool, inf: int)
    requires t.Node? && 0 <= k <= |t.children|
    ensures BestOfFirst(Relative(t, maximizing), k, inf)
      == (if maximizing then ExtremeOfFirst(t, k, true, inf) else -ExtremeOfFirst(t, k, false, inf))
    decreases t, k
  {
    if k > 0 {
      NegaMaxIsMiniMaxPrefix(t, k - 1, maximizing, inf);
      NegaMaxIsMiniMax(t.children[k - 1], !maximizing, inf);
      assert Relative(t, maximizing).children[k - 1] == Relative(t.children[k - 1], !maximizing);
    }
  }
}
