/** Move legality as MovementValidator::isValidMove decides it, the no-legal-move tests of
    CheckScanner, and the list getLegalMoves builds, all as functions of the position value. */
module Legality {
  import opened Types
  import opened BoardState
  import opened MoveRules
  import opened Movement

  /** The tests isValidMove makes before the piece rule: coordinates on the board, a piece to
      move, no capture of a piece of the mover's colour, and the mover's colour on move. */
  predicate PassesPreChecks(st: State, m: Move) {
    var moving := Get(st, m.from);
    OnBoard(m.from) && OnBoard(m.to)
    && moving != NoPiece
    && moving.color != CapturedPiece(st, m).color
    && !(moving.color == White && !st.whiteToMove)
    && !(moving.color == Black && st.whiteToMove)
  }

  /** moveLeadsIntoCheck: after movePiece the side that was to move is in check. */
  predicate LeadsIntoCheck(st: State, m: Move) {
    InCheck(PieceMoved(st, m).state, SideToMove(st))
  }

  /** isValidMove. */
  predicate ValidMove(st: State, m: Move) {
    PassesPreChecks(st, m)
    && PieceMovement(st, Get(st, m.from).piece, m, true)
    && !LeadsIntoCheck(st, m)
  }

  /** Every square holds the empty sentinel or one of the twelve real pieces. */
  predicate WellFormedBoard(st: State) {
    forall i :: 0 <= i < 64 ==> WellFormedPiece(st.board[i])
  }

  /** The en-passant target is unset, or an empty square on row 2 or row 5 (the squares a
      double push skips). */
  predicate EnPassantSane(st: State) {
    st.enPassant == InvalidSquare
    || (OnBoard(st.enPassant) && (st.enPassant.row == 2 || st.enPassant.row == 5)
        && IsEmptySquare(st, st.enPassant))
  }

  /** The positions FEN import of a well-formed record and legal play produce. */
  predicate Sane(st: State) {
    WellFormedBoard(st) && EnPassantSane(st)
  }

  /** A king move of two columns that the king rule accepts is a castling from column 4 along the
      row whose rook square is empty. */
  lemma KingTwoColumnsIsCastling(st: State, m: Move)
    requires Get(st, m.from).piece == King && Abs(m.from.col - m.to.col) == 2
    requires KingMovement(st, m, true)
    ensures CastlingShape(m)
    ensures m.to.col == 6 ==> IsEmptySquare(st, Square(m.from.row, 5))
    ensures m.to.col == 2 ==> IsEmptySquare(st, Square(m.from.row, 3))
  {
    var dc, dr := m.from.col - m.to.col, m.from.row - m.to.row;
    if dc == 2 {
      assert dc * dr == 2 * dr;
    } else {
      assert dc * dr == -2 * dr;
    }
    var color := Get(st, m.from).color;
    if m.to.col == 6 {
      assert SafeCastlingSquare(st, Square(m.from.row, 5), color);
    } else if m.to.col == 2 {
      assert SafeCastlingSquare(st, Square(m.from.row, 3), color);
    }
  }

  /** In a sane position, a move that passes the checks made before isValidMove's probe is one
      that unmovePiece undoes exactly, so the probe leaves the position as it found it. */
  lemma ProbeIsReversible(st: State, m: Move)
    requires Sane(st)
    requires PassesPreChecks(st, m) && PieceMovement(st, Get(st, m.from).piece, m, true)
    ensures Reversible(st, m)
  {
    var moving := Get(st, m.from);
    assert WellFormedPiece(st.board[Index(m.from)]);
    if moving.piece == King && Abs(m.from.col - m.to.col) == 2 {
      KingTwoColumnsIsCastling(st, m);
    }
  }

  /** The facts isValidMove guarantees about an accepted move. */
  lemma ValidMoveFacts(st: State, m: Move)
    requires ValidMove(st, m)
    ensures OnBoard(m.from) && OnBoard(m.to) && m.from != m.to
    ensures Get(st, m.from) != NoPiece
    ensures Get(st, m.from).color != CapturedPiece(st, m).color
    ensures WellFormedBoard(st) ==> Get(st, m.from).color == SideToMove(st)
    ensures !InCheck(PieceMoved(st, m).state, SideToMove(st))
  {
    if WellFormedBoard(st) {
      assert WellFormedPiece(st.board[Index(m.from)]);
    }
  }

  // areThereLegalMoves scans the squares in row-major order and, for a square holding a piece of
  // the colour asked about, the targets in the same order.  The scans are defined square by
  // square; HasValidTargetExactly and AnyLegalMoveExactly state what they find.

  /** None of the first n squares of row r takes a valid move from f without a promotion piece. */
  predicate NoTargetUpTo(st: State, f: Square, r: int, n: int)
    decreases st, n
  {
    n <= 0 || (NoTargetUpTo(st, f, r, n - 1) && !ValidMove(st, PlainMove(f, Square(r, n - 1))))
  }

  /** None of the squares of rows 0 .. n - 1 takes a valid move from f without a promotion piece. */
  predicate NoTargetBefore(st: State, f: Square, n: int)
    decreases st, n
  {
    n <= 0 || (NoTargetBefore(st, f, n - 1) && NoTargetUpTo(st, f, n - 1, 8))
  }

  /** The target scan from f finds a valid move. */
  predicate HasValidTarget(st: State, f: Square) {
    !NoTargetBefore(st, f, 8)
  }

  /** None of the first n squares of row r holds a c piece with a valid move. */
  predicate NoMoverUpTo(st: State, c: Color, r: int, n: int)
    decreases st, n
  {
    n <= 0 || (NoMoverUpTo(st, c, r, n - 1)
               && (Get(st, Square(r, n - 1)).color == c ==> !HasValidTarget(st, Square(r, n - 1))))
  }

  /** None of the squares of rows 0 .. n - 1 holds a c piece with a valid move. */
  predicate NoMoverBefore(st: State, c: Color, n: int)
    decreases st, n
  {
    n <= 0 || (NoMoverBefore(st, c, n - 1) && NoMoverUpTo(st, c, n - 1, 8))
  }

  /** areThereLegalMoves: the scan finds a square holding a c piece with a valid move. */
  predicate AnyLegalMove(st: State, c: Color) {
    !NoMoverBefore(st, c, 8)
  }

  lemma {:induction false} NoTargetUpToAt(st: State, f: Square, r: int, n: int, k: int)
    requires NoTargetUpTo(st, f, r, n) && 0 <= k < n
    ensures !ValidMove(st, PlainMove(f, Square(r, k)))
    decreases n
  {
    if k < n - 1 {
      NoTargetUpToAt(st, f, r, n - 1, k);
    }
  }

  lemma {:induction false} NoTargetBeforeAt(st: State, f: Square, n: int, r: int)
    requires NoTargetBefore(st, f, n) && 0 <= r < n
    ensures NoTargetUpTo(st, f, r, 8)
    decreases n
  {
    if r < n - 1 {
      NoTargetBeforeAt(st, f, n - 1, r);
    }
  }

  lemma {:induction false} NoMoverUpToAt(st: State, c: Color, r: int, n: int, k: int)
    requires NoMoverUpTo(st, c, r, n) && 0 <= k < n && Get(st, Square(r, k)).color == c
    ensures !HasValidTarget(st, Square(r, k))
    decreases n
  {
    if k < n - 1 {
      NoMoverUpToAt(st, c, r, n - 1, k);
    }
  }

  lemma {:induction false} NoMoverBeforeAt(st: State, c: Color, n: int, r: int)
    requires NoMoverBefore(st, c, n) && 0 <= r < n
    ensures NoMoverUpTo(st, c, r, 8)
    decreases n
  {
    if r < n - 1 {
      NoMoverBeforeAt(st, c, n - 1, r);
    }
  }

  // One step of each loop of areThereLegalMoves.

  lemma NextTarget(st: State, f: Square, r: int, n: int)
    requires 0 <= n && NoTargetUpTo(st, f, r, n) && !ValidMove(st, PlainMove(f, Square(r, n)))
    ensures NoTargetUpTo(st, f, r, n + 1)
  {
  }

  lemma NextTargetRow(st: State, f: Square, r: int, n: int)
    requires 0 <= r && n == 8 && NoTargetBefore(st, f, r) && NoTargetUpTo(st, f, r, n)
    ensures NoTargetBefore(st, f, r + 1)
  {
  }

  lemma NextMover(st: State, c: Color, r: int, n: int)
    requires 0 <= n && NoMoverUpTo(st, c, r, n)
    requires Get(st, Square(r, n)).color == c ==> !HasValidTarget(st, Square(r, n))
    ensures NoMoverUpTo(st, c, r, n + 1)
  {
  }

  lemma NextMoverRow(st: State, c: Color, r: int, n: int)
    requires 0 <= r && n == 8 && NoMoverBefore(st, c, r) && NoMoverUpTo(st, c, r, n)
    ensures NoMoverBefore(st, c, r + 1)
  {
  }

  /** A failed scan of the first n squares of row r leaves a valid target among them. */
  lemma {:induction false} TargetInRow(st: State, f: Square, r: int, n: int) returns (k: int)
    requires !NoTargetUpTo(st, f, r, n)
    ensures 0 <= k < n && ValidMove(st, PlainMove(f, Square(r, k)))
    decreases n
  {
    if NoTargetUpTo(st, f, r, n - 1) {
      k := n - 1;
    } else {
      k := TargetInRow(st, f, r, n - 1);
    }
  }

  /** A failed scan of rows 0 .. n - 1 leaves a valid target on one of them. */
  lemma {:induction false} TargetInRows(st: State, f: Square, n: int) returns (r: int, k: int)
    requires !NoTargetBefore(st, f, n)
    ensures 0 <= r < n && 0 <= k < 8 && ValidMove(st, PlainMove(f, Square(r, k)))
    decreases n
  {
    if NoTargetBefore(st, f, n - 1) {
      r := n - 1;
      k := TargetInRow(st, f, r, 8);
    } else {
      r, k := TargetInRows(st, f, n - 1);
    }
  }

  lemma {:induction false} MoverInRow(st: State, c: Color, r: int, n: int) returns (k: int)
    requires !NoMoverUpTo(st, c, r, n)
    ensures 0 <= k < n && Get(st, Square(r, k)).color == c && HasValidTarget(st, Square(r, k))
    decreases n
  {
    if NoMoverUpTo(st, c, r, n - 1) {
      k := n - 1;
    } else {
      k := MoverInRow(st, c, r, n - 1);
    }
  }

  lemma {:induction false} MoverInRows(st: State, c: Color, n: int) returns (r: int, k: int)
    requires !NoMoverBefore(st, c, n)
    ensures 0 <= r < n && 0 <= k < 8 && Get(st, Square(r, k)).color == c
      && HasValidTarget(st, Square(r, k))
    decreases n
  {
    if NoMoverBefore(st, c, n - 1) {
      r := n - 1;
      k := MoverInRow(st, c, r, 8);
    } else {
      r, k := MoverInRows(st, c, n - 1);
    }
  }

  /** The target scan finds a valid move exactly when some square of the board takes one. */
  lemma HasValidTargetExactly(st: State, f: Square)
    ensures HasValidTarget(st, f) <==>
      exists tr, tc {:trigger ValidMove(st, PlainMove(f, Square(tr, tc)))} :: 0 <= tr < 8 && 0 <= tc < 8 && ValidMove(st, PlainMove(f, Square(tr, tc)))
  {
    if HasValidTarget(st, f) {
      var tr, tc := TargetInRows(st, f, 8);
    } else {
      forall tr, tc | 0 <= tr < 8 && 0 <= tc < 8
        ensures !ValidMove(st, PlainMove(f, Square(tr, tc)))
      {
        NoTargetBeforeAt(st, f, 8, tr);
        NoTargetUpToAt(st, f, tr, 8, tc);
      }
    }
  }

  /** A c piece with a valid move without promotion onto some square of the board. */
  ghost predicate SomeValidMove(st: State, c: Color) {
    exists fr, fc, tr, tc {:trigger ValidMove(st, PlainMove(Square(fr, fc), Square(tr, tc)))} ::
      0 <= fr < 8 && 0 <= fc < 8 && 0 <= tr < 8 && 0 <= tc < 8
      && Get(st, Square(fr, fc)).color == c && ValidMove(st, PlainMove(Square(fr, fc), Square(tr, tc)))
  }

  /** What areThereLegalMoves finds is a valid move of a c piece. */
  lemma AnyLegalMoveSound(st: State, c: Color)
    requires AnyLegalMove(st, c)
    ensures SomeValidMove(st, c)
  {
    var fr, fc := MoverInRows(st, c, 8);
    var tr, tc := TargetInRows(st, Square(fr, fc), 8);
  }

  /** areThereLegalMoves finds any valid move of a c piece. */
  lemma AnyLegalMoveComplete(st: State, c: Color)
    requires SomeValidMove(st, c)
    ensures AnyLegalMove(st, c)
  {
    var fr, fc, tr, tc :| 0 <= fr < 8 && 0 <= fc < 8 && 0 <= tr < 8 && 0 <= tc < 8
      && Get(st, Square(fr, fc)).color == c && ValidMove(st, PlainMove(Square(fr, fc), Square(tr, tc)));
    TargetFound(st, Square(fr, fc), tr, tc);
    MoverFound(st, c, fr, fc);
  }

  /** A valid move found at (tr, tc) ends the target scan with a yes. */
  lemma TargetFound(st: State, f: Square, tr: int, tc: int)
    requires 0 <= tr < 8 && 0 <= tc < 8 && ValidMove(st, PlainMove(f, Square(tr, tc)))
    ensures HasValidTarget(st, f)
  {
    if NoTargetBefore(st, f, 8) {
      NoTargetBeforeAt(st, f, 8, tr);
      NoTargetUpToAt(st, f, tr, 8, tc);
      assert false;
    }
  }

  /** A c piece on (r, k) with a valid move ends the square scan with a yes. */
  lemma MoverFound(st: State, c: Color, r: int, k: int)
    requires 0 <= r < 8 && 0 <= k < 8 && Get(st, Square(r, k)).color == c
    requires HasValidTarget(st, Square(r, k))
    ensures AnyLegalMove(st, c)
  {
    if NoMoverBefore(st, c, 8) {
      NoMoverBeforeAt(st, c, 8, r);
      NoMoverUpToAt(st, c, r, 8, k);
      assert false;
    }
  }

  /** isInCheckmate. */
  predicate InCheckmate(st: State, c: Color) {
    InCheck(st, c) && !AnyLegalMove(st, c)
  }

  /** isInStalemate. */
  predicate InStalemate(st: State, c: Color) {
    !InCheck(st, c) && !AnyLegalMove(st, c)
  }

  /** getIsGameOver: the side to move is checkmated or stalemated. */
  predicate GameOver(st: State) {
    InCheckmate(st, SideToMove(st)) || InStalemate(st, SideToMove(st))
  }

  /** Checkmate and stalemate exclude each other, and together they are "no legal move". */
  lemma MateAndStalemate(st: State, c: Color)
    ensures !(InCheckmate(st, c) && InStalemate(st, c))
    ensures InCheckmate(st, c) || InStalemate(st, c) <==> !AnyLegalMove(st, c)
    ensures GameOver(st) <==> !AnyLegalMove(st, SideToMove(st))
  {
  }

  /** The promotion piece getLegalMoves attaches: the kind in colour c on c's last row, else none. */
  function PromotionFor(c: Color, target: Square, kind: Piece): (p: ColoredPiece)
    ensures target.row == (if c == White then 0 else 7) ==> p == ColoredPiece(c, kind)
    ensures target.row != (if c == White then 0 else 7) ==> p == NoPiece
  {
    if target.row == (if c == White then 0 else 7) then ColoredPiece(c, kind) else NoPiece
  }

  /** The moves getLegalMoves tries for one (from, to) pair: one per promotion kind, queen first,
      for a pawn; the plain move for any other piece. */
  function Candidates(c: Color, piece: Piece, f: Square, t: Square): seq<Move>
  {
    if piece == Pawn then
      [Move(f, t, PromotionFor(c, t, Queen)), Move(f, t, PromotionFor(c, t, Rook)),
       Move(f, t, PromotionFor(c, t, Bishop)), Move(f, t, PromotionFor(c, t, Knight))]
    else [PlainMove(f, t)]
  }

  /** The candidates that isValidMove accepts, in order. */
  function ValidAmong(st: State, ms: seq<Move>): seq<Move>
    decreases |ms|
  {
    if ms == [] then []
    else ValidAmong(st, ms[..|ms| - 1]) + (if ValidMove(st, ms[|ms| - 1]) then [ms[|ms| - 1]] else [])
  }

  /** The candidates getLegalMoves tries for the pair number k = 64 * from + to: none unless the
      from square holds a c piece. */
  function PairCandidates(st: State, c: Color, k: int): (ms: seq<Move>)
    requires 0 <= k < 4096
    ensures |ms| <= 4
  {
    var f := SquareAt(k / 64);
    if Get(st, f).color == c then Candidates(c, Get(st, f).piece, f, SquareAt(k % 64)) else []
  }

  /** What getLegalMoves has collected once the pairs 0 .. k-1 are done, in its loop order. */
  function MovesBelow(st: State, c: Color, k: int): seq<Move>
    requires 0 <= k <= 4096
    decreases st, k, 0
  {
    if k == 0 then [] else MovesThrough(st, c, k - 1)
  }

  /** What getLegalMoves has collected once the pairs 0 .. k are done: pair k appends the
      candidates isValidMove accepts. */
  function MovesThrough(st: State, c: Color, k: int): seq<Move>
    requires 0 <= k < 4096
    decreases st, k, 1
  {
    MovesBelow(st, c, k) + ValidAmong(st, PairCandidates(st, c, k))
  }

  /** getLegalMoves(c), in the order the source produces the moves. */
  function LegalMoves(st: State, c: Color): seq<Move> {
    MovesBelow(st, c, 4096)
  }

  /** ValidAmong keeps exactly the valid candidates. */
  lemma {:induction false} ValidAmongMembers(st: State, ms: seq<Move>, m: Move)
    ensures m in ValidAmong(st, ms) <==> m in ms && ValidMove(st, m)
    decreases |ms|
  {
    if ms != [] {
      ValidAmongMembers(st, ms[..|ms| - 1], m);
      assert ms == ms[..|ms| - 1] + [ms[|ms| - 1]];
    }
  }

  /** ValidAmong grows by the last candidate when isValidMove accepts it. */
  lemma ValidAmongAppend(st: State, ms: seq<Move>, m: Move)
    ensures ValidAmong(st, ms + [m]) == ValidAmong(st, ms) + (if ValidMove(st, m) then [m] else [])
  {
    assert (ms + [m])[..|ms|] == ms;
    assert (ms + [m])[|ms|] == m;
  }

  /** Pair k adds the valid ones among its candidates. */
  lemma MovesBelowStep(st: State, c: Color, k: int)
    requires 0 <= k < 4096
    ensures MovesBelow(st, c, k + 1) == MovesBelow(st, c, k) + ValidAmong(st, PairCandidates(st, c, k))
  {
    assert MovesBelow(st, c, k + 1) == MovesThrough(st, c, k);
  }

  /** Two spellings of one pair number name the same prefix; getLegalMoves's loops use it where a
      loop counter moves on. */
  lemma Renumber(st: State, c: Color, a: int, b: int)
    requires 0 <= a <= 4096 && a == b
    ensures MovesBelow(st, c, a) == MovesBelow(st, c, b)
  {
  }

  /** The pair number 64 * (8 * row + col) + (8 * tr + tc) decodes to the squares (row, col) and
      (tr, tc), the order of getLegalMoves's four loops. */
  lemma PairNumber(row: int, col: int, tr: int, tc: int)
    requires 0 <= row < 8 && 0 <= col < 8 && 0 <= tr < 8 && 0 <= tc < 8
    ensures var k := 64 * (8 * row + col) + 8 * tr + tc;
      0 <= k < 4096 && SquareAt(k / 64) == Square(row, col) && SquareAt(k % 64) == Square(tr, tc)
  {
    PairIndexDecodes(Move(Square(row, col), Square(tr, tc), NoPiece));
  }

  /** One pair of getLegalMoves's loops appends the valid ones among its candidates. */
  lemma PairStep(st: State, c: Color, piece: Piece, row: int, col: int, tr: int, tc: int, k: int,
                 moves: seq<Move>, block: seq<Move>)
    requires 0 <= row < 8 && 0 <= col < 8 && 0 <= tr < 8 && 0 <= tc < 8
    requires k == 64 * (8 * row + col) + 8 * tr + tc && Get(st, Square(row, col)) == ColoredPiece(c, piece)
    requires moves == MovesBelow(st, c, k)
    requires block == ValidAmong(st, Candidates(c, piece, Square(row, col), Square(tr, tc)))
    ensures moves + block == MovesBelow(st, c, k + 1)
  {
    PairNumber(row, col, tr, tc);
    MovesBelowStep(st, c, k);
  }

  /** A pair whose from square does not hold a c piece adds nothing. */
  lemma SkipPair(st: State, c: Color, k: int)
    requires 0 <= k < 4096 && Get(st, SquareAt(k / 64)).color != c
    ensures MovesBelow(st, c, k + 1) == MovesBelow(st, c, k)
  {
    assert PairCandidates(st, c, k) == [];
    assert MovesBelow(st, c, k + 1) == MovesThrough(st, c, k);
  }

  /** A square not holding a c piece adds nothing: the 64 pairs from it, numbered from
      base = 64 * i on, are skipped. */
  lemma SkippedSquare(st: State, c: Color, i: int, base: int, k: int)
    requires 0 <= i < 64 && base == 64 * i && base <= k <= base + 64
    requires Get(st, SquareAt(i)).color != c
    ensures MovesBelow(st, c, k) == MovesBelow(st, c, base)
  {
    var j := base;
    while j < k
      invariant base <= j <= k && MovesBelow(st, c, j) == MovesBelow(st, c, base)
    {
      assert j / 64 == i;
      SkipPair(st, c, j);
      j := j + 1;
    }
  }

  /** The same, for the square at (row, col) as getLegalMoves's loops name it. */
  lemma SkippedSquareAt(st: State, c: Color, row: int, col: int, k: int)
    requires 0 <= row < 8 && 0 <= col < 8 && k == 64 * (8 * row + col)
    requires Get(st, Square(row, col)).color != c
    ensures MovesBelow(st, c, k + 64) == MovesBelow(st, c, k)
  {
    SquareAtIndex(Square(row, col));
    SkippedSquare(st, c, Index(Square(row, col)), k, k + 64);
  }

  /** The pair number of a move. */
  function PairIndex(m: Move): int
    requires OnBoard(m.from) && OnBoard(m.to)
  {
    64 * Index(m.from) + Index(m.to)
  }

  /** What getLegalMoves may list for colour c: a valid move of a c piece, with the promotion
      piece the source attaches. */
  predicate Listed(st: State, c: Color, m: Move) {
    OnBoard(m.from) && OnBoard(m.to) && Get(st, m.from).color == c
    && m in Candidates(c, Get(st, m.from).piece, m.from, m.to) && ValidMove(st, m)
  }

  lemma PairIndexDecodes(m: Move)
    requires OnBoard(m.from) && OnBoard(m.to)
    ensures 0 <= PairIndex(m) < 4096
    ensures SquareAt(PairIndex(m) / 64) == m.from && SquareAt(PairIndex(m) % 64) == m.to
  {
    var k := PairIndex(m);
    assert k / 64 == Index(m.from);
    assert k % 64 == Index(m.to);
    SquareAtIndex(m.from);
    SquareAtIndex(m.to);
  }

  lemma PairMovesMembership(st: State, c: Color, k: int, m: Move)
    requires 0 <= k < 4096
    ensures m in ValidAmong(st, PairCandidates(st, c, k)) <==> Listed(st, c, m) && PairIndex(m) == k
  {
    var f := SquareAt(k / 64);
    var t := SquareAt(k % 64);
    assert 64 * Index(f) + Index(t) == k;
    ValidAmongMembers(st, PairCandidates(st, c, k), m);
    if m in PairCandidates(st, c, k) {
      CandidateSquares(c, Get(st, f).piece, f, t, m);
    }
    if Listed(st, c, m) && PairIndex(m) == k {
      PairIndexDecodes(m);
    }
  }

  lemma {:induction false} MovesBelowMembership(st: State, c: Color, k: int, m: Move)
    requires 0 <= k <= 4096
    ensures m in MovesBelow(st, c, k) <==> Listed(st, c, m) && PairIndex(m) < k
    decreases k
  {
    if k > 0 {
      MovesBelowMembership(st, c, k - 1, m);
      MovesBelowStep(st, c, k - 1);
      PairMovesMembership(st, c, k - 1, m);
    }
  }

  /** Every candidate of the pair (f, t) moves from f to t. */
  lemma CandidateSquares(c: Color, piece: Piece, f: Square, t: Square, m: Move)
    requires m in Candidates(c, piece, f, t)
    ensures m.from == f && m.to == t
  {
  }

  /** A candidate of a non-pawn carries no promotion piece; one of a pawn carries a promotion
      piece of colour c of one of the four kinds on c's last row, and none elsewhere. */
  lemma CandidatePromotion(c: Color, piece: Piece, f: Square, t: Square, m: Move)
    requires m in Candidates(c, piece, f, t)
    ensures piece != Pawn ==> m.promotion == NoPiece
    ensures piece == Pawn && t.row == (if c == White then 0 else 7) ==>
      m.promotion.color == c && m.promotion.piece in {Queen, Rook, Bishop, Knight}
    ensures piece == Pawn && t.row != (if c == White then 0 else 7) ==> m.promotion == NoPiece
  {
  }

  /** getLegalMoves(c) lists exactly the moves Listed describes. */
  lemma LegalMovesExactly(st: State, c: Color, m: Move)
    ensures m in LegalMoves(st, c) <==> Listed(st, c, m)
  {
    MovesBelowMembership(st, c, 4096, m);
    if OnBoard(m.from) && OnBoard(m.to) {
      PairIndexDecodes(m);
    }
  }

  /** Every move getLegalMoves(c) lists is a valid move of a c piece, with no promotion piece
      unless it is a pawn move onto c's last row, which is listed once per promotion kind. */
  lemma LegalMovesFacts(st: State, c: Color, m: Move)
    requires m in LegalMoves(st, c)
    ensures ValidMove(st, m) && Get(st, m.from).color == c
    ensures Get(st, m.from).piece != Pawn ==> m.promotion == NoPiece
    ensures Get(st, m.from).piece == Pawn && m.to.row == (if c == White then 0 else 7) ==>
      m.promotion.color == c && m.promotion.piece in {Queen, Rook, Bishop, Knight}
    ensures Get(st, m.from).piece == Pawn && m.to.row != (if c == White then 0 else 7) ==>
      m.promotion == NoPiece
  {
    LegalMovesExactly(st, c, m);
    CandidatePromotion(c, Get(st, m.from).piece, m.from, m.to, m);
  }

  // Legal play keeps a position sane.

  /** Every square holds the empty sentinel or a real piece, read square by square. */
  ghost predicate AllWellFormed(st: State) {
    forall t :: OnBoard(t) ==> WellFormedPiece(Get(st, t))
  }

  /** Every square other than `hole` holds the empty sentinel or a real piece. */
  ghost predicate WellFormedBut(st: State, hole: Square) {
    forall t :: OnBoard(t) && t != hole ==> WellFormedPiece(Get(st, t))
  }

  lemma WellFormedSquares(st: State)
    ensures WellFormedBoard(st) <==> AllWellFormed(st)
  {
    if AllWellFormed(st) {
      forall i | 0 <= i < 64 ensures WellFormedPiece(st.board[i]) {
        assert Get(st, SquareAt(i)) == st.board[i];
      }
    }
  }

  lemma ReadWellFormed(st: State, s: Square)
    requires AllWellFormed(st)
    ensures WellFormedPiece(Get(st, s))
  {
  }

  lemma WriteWellFormed(st: State, s: Square, cp: ColoredPiece)
    requires AllWellFormed(st) && WellFormedPiece(cp)
    ensures AllWellFormed(Set(st, s, cp))
  {
  }

  lemma WriteHole(st: State, s: Square, cp: ColoredPiece)
    requires AllWellFormed(st)
    ensures WellFormedBut(Set(st, s, cp), s)
  {
  }

  lemma WriteBesideHole(st: State, hole: Square, s: Square, cp: ColoredPiece)
    requires WellFormedBut(st, hole) && WellFormedPiece(cp)
    ensures WellFormedBut(Set(st, s, cp), hole)
  {
  }

  lemma FillHole(st: State, hole: Square, cp: ColoredPiece)
    requires WellFormedBut(st, hole) && WellFormedPiece(cp)
    ensures AllWellFormed(Set(st, hole, cp))
  {
  }

  lemma SameBoardWellFormed(a: State, b: State)
    requires AllWellFormed(a) && a.board == b.board
    ensures AllWellFormed(b)
  {
    assert forall t :: Get(a, t) == Get(b, t);
  }

  /** movePawn: only the destination may hold the promotion piece, which movePiece overwrites. */
  lemma PawnMovedWellFormed(st: State, m: Move)
    requires AllWellFormed(st)
    ensures WellFormedBut(PawnMoved(st, m).state, m.to)
  {
    if m.promotion != NoPiece {
      var promoted := m.promotion.(color := Get(st, m.from).color);
      WriteHole(st, m.to, promoted);
      WriteBesideHole(Set(st, m.to, promoted), m.to, m.from, NoPiece);
    } else {
      PawnStepWellFormed(st, m);
    }
  }

  lemma PawnStepWellFormed(st: State, m: Move)
    requires AllWellFormed(st) && m.promotion == NoPiece
    ensures WellFormedBut(PawnMoved(st, m).state, m.to)
  {
    ReadWellFormed(st, m.from);
    var moving := Get(st, m.from);
    var behind := Behind(m.to, moving.color == White);
    var st1 := if m.to == st.enPassant then Set(st, behind, NoPiece) else st;
    assert AllWellFormed(st1) by {
      WriteWellFormed(st, behind, NoPiece);
    }
    var st2 := st1.(enPassant := if Abs(m.from.row - m.to.row) == 2 then behind else InvalidSquare);
    assert AllWellFormed(st2) by {
      SameBoardWellFormed(st1, st2);
    }
    var lastRow := if Get(st2, m.from).color == White then 0 else 7;
    var st3 := if m.to.row == lastRow then Set(st2, m.to, m.promotion) else st2;
    assert AllWellFormed(st3) by {
      WriteWellFormed(st2, m.to, m.promotion);
    }
    var fin := Set(Set(st3, m.from, NoPiece), m.to, moving);
    assert AllWellFormed(fin) by {
      WriteWellFormed(st3, m.from, NoPiece);
      WriteWellFormed(Set(st3, m.from, NoPiece), m.to, moving);
    }
    assert PawnMoved(st, m).state == fin;
  }

  /** moveKing: the rook and the king are moved, nothing new is written. */
  lemma KingMovedWellFormed(st: State, m: Move)
    requires AllWellFormed(st)
    ensures AllWellFormed(KingMoved(st, m).state)
  {
    var r := m.from.row;
    var corner := if m.from.col < m.to.col then Square(r, 7) else Square(r, 0);
    var landing := if m.from.col < m.to.col then Square(r, 5) else Square(r, 3);
    ReadWellFormed(st, corner);
    WriteWellFormed(st, corner, NoPiece);
    WriteWellFormed(Set(st, corner, NoPiece), landing, Get(st, corner));
    var st1 := if Abs(m.from.col - m.to.col) == 2 then Set(Set(st, corner, NoPiece), landing, Get(st, corner)) else st;
    ReadWellFormed(st1, m.from);
    WriteWellFormed(st1, m.to, Get(st1, m.from));
    var st2 := Set(Set(st1, m.to, Get(st1, m.from)), m.from, NoPiece);
    WriteWellFormed(Set(st1, m.to, Get(st1, m.from)), m.from, NoPiece);
    var king := Get(st, m.from);
    assert KingMoved(st, m).state == WithCastle(st2, king.color, NoCastling);
    SameBoardWellFormed(st2, WithCastle(st2, king.color, NoCastling));
  }

  /** A board move never writes anything but pieces already on the board and the empty sentinel. */
  lemma MovedWellFormed(st: State, m: Move)
    requires WellFormedBoard(st)
    ensures WellFormedBoard(PieceMoved(st, m).state)
  {
    WellFormedSquares(st);
    var moving := Get(st, m.from);
    ReadWellFormed(st, m.from);
    var st0 := if moving.piece != Pawn then st.(enPassant := InvalidSquare) else st;
    SameBoardWellFormed(st, st0);
    var o :=
      if moving.piece == Pawn then PawnMoved(st0, m)
      else if moving.piece == King then KingMoved(st0, m)
      else if moving.piece == Rook then RookMoved(st0, m)
      else MoveOutcome(st0, Get(st0, m.to));
    if moving.piece == Pawn {
      PawnMovedWellFormed(st0, m);
    } else {
      if moving.piece == King {
        KingMovedWellFormed(st0, m);
      } else {
        RookMovedCases(st0, m);
        SameBoardWellFormed(st0, o.state);
      }
    }
    assert WellFormedBut(o.state, m.to);
    FillHole(o.state, m.to, moving);
    WriteWellFormed(Set(o.state, m.to, moving), m.from, NoPiece);
    assert PieceMoved(st, m).state == Set(Set(o.state, m.to, moving), m.from, NoPiece);
    WellFormedSquares(PieceMoved(st, m).state);
  }

  /** A promotion piece is only attached to a move onto the first or the last row, as
      getLegalMoves attaches it. */
  predicate PromotionOnLastRow(m: Move) {
    m.promotion != NoPiece ==> m.to.row == 0 || m.to.row == 7
  }

  /** The en-passant target after a move the pawn rule accepts: cleared, kept, or the square a
      double push skipped, which the pawn rule demands empty. */
  lemma MovedEnPassantSane(st: State, m: Move)
    requires Sane(st) && OnBoard(m.from) && OnBoard(m.to) && PromotionOnLastRow(m)
    requires Get(st, m.from).piece == Pawn ==> PawnMovement(st, m)
    ensures EnPassantSane(PieceMoved(st, m).state)
  {
    var moving := Get(st, m.from);
    if moving.piece != Pawn {
      NonPawnClearsTarget(st, m);
    } else if m.promotion != NoPiece {
      PromotionKeepsTarget(st, m);
    } else {
      PawnStepTarget(st, m);
    }
  }

  /** Any move of a piece other than a pawn clears the target. */
  lemma NonPawnClearsTarget(st: State, m: Move)
    requires Get(st, m.from).piece != Pawn
    ensures PieceMoved(st, m).state.enPassant == InvalidSquare
  {
    var st0 := st.(enPassant := InvalidSquare);
    if Get(st, m.from).piece == King {
      assert KingMoved(st0, m).state.enPassant == InvalidSquare;
    } else {
      RookMovedCases(st0, m);
    }
  }

  /** A promotion onto the first or last row keeps the target, which lies on neither square of
      the move. */
  lemma PromotionKeepsTarget(st: State, m: Move)
    requires Sane(st) && OnBoard(m.from) && OnBoard(m.to) && PromotionOnLastRow(m)
    requires Get(st, m.from).piece == Pawn && PawnMovement(st, m) && m.promotion != NoPiece
    ensures EnPassantSane(PieceMoved(st, m).state)
  {
    var ep := st.enPassant;
    var moving := Get(st, m.from);
    var promoted := m.promotion.(color := moving.color);
    var pm := Set(Set(st, m.to, promoted), m.from, NoPiece);
    assert PieceMoved(st, m).state == Set(Set(pm, m.to, moving), m.from, NoPiece);
    if ep != InvalidSquare {
      assert ep != m.to && ep != m.from;
      assert Get(PieceMoved(st, m).state, ep) == Get(st, ep);
    }
  }

  /** A pawn move without promotion: the target is the skipped square after a double push, and
      cleared otherwise. */
  lemma PawnStepTarget(st: State, m: Move)
    requires Sane(st) && OnBoard(m.from) && OnBoard(m.to)
    requires Get(st, m.from).piece == Pawn && PawnMovement(st, m) && m.promotion == NoPiece
    ensures EnPassantSane(PieceMoved(st, m).state)
  {
    var moving := Get(st, m.from);
    var white := moving.color == White;
    var behind := Behind(m.to, white);
    var after := PieceMoved(st, m).state;
    if Abs(m.from.row - m.to.row) == 2 {
      assert m.to != st.enPassant;
      var st2 := st.(enPassant := behind);
      var lastRow := if white then 0 else 7;
      assert m.to.row != lastRow;
      assert PawnMoved(st, m).state == Set(Set(st2, m.from, NoPiece), m.to, moving);
      assert after.enPassant == behind;
      assert behind != m.from && behind != m.to;
      assert IsEmptySquare(after, behind);
    } else {
      assert after.enPassant == InvalidSquare;
    }
  }

  /** makeMove of a valid move keeps a sane position sane. */
  lemma ValidMoveKeepsSane(st: State, m: Move)
    requires Sane(st) && ValidMove(st, m) && PromotionOnLastRow(m)
    ensures Sane(MadeMove(st, m).state)
  {
    MovedWellFormed(st, m);
    assert PieceMovement(st, Get(st, m.from).piece, m, true);
    MovedEnPassantSane(st, m);
    var after := MadeMove(st, m).state;
    assert after.board == PieceMoved(st, m).state.board;
    assert forall s :: Get(after, s) == Get(PieceMoved(st, m).state, s);
  }
}
