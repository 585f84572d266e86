/** The geometric move rules of MovementValidator and the attack queries of CheckScanner, as
    functions of the position value.  The source's recursion isSquareInCheck ->
    isValidPieceMovement -> isValidKingMovement (castling) -> isSquareInCheck is cut by the flag
    `castling`: the attack queries made while testing a castling never consider castling
    themselves, and CastlingFlagIrrelevant shows that this changes no answer. */
module Movement {
  import opened Types
  import opened BoardState

  /** The i-th square from `from` along the direction (dRow, dCol). */
  function PathSquare(from: Square, dRow: int, dCol: int, i: int): Square {
    Square(from.row + i * dRow, from.col + i * dCol)
  }

  /** Every square strictly between the start and the `steps`-th square is empty. */
  predicate PathClear(st: State, from: Square, dRow: int, dCol: int, steps: int) {
    forall i :: 1 <= i < steps ==> IsEmptySquare(st, PathSquare(from, dRow, dCol, i))
  }

  function Sign(x: int): (s: int)
    ensures s == 1 <==> x > 0
    ensures s == -1 <==> x < 0
    ensures s == 0 <==> x == 0
  {
    if x > 0 then 1 else if x < 0 then -1 else 0
  }

  /** isValidPawnMovement; White moves towards row 0, any other colour towards row 7. */
  predicate PawnMovement(st: State, m: Move) {
    var white := Get(st, m.from).color == White;
    var ci := if white then 1 else -1;
    var fromRow, fromCol, toRow, toCol := m.from.row, m.from.col, m.to.row, m.to.col;
    (fromCol == toCol && toRow == fromRow - ci && IsEmptySquare(st, m.to))
    || (fromRow == (if white then 6 else 1) && fromCol == toCol && toRow == fromRow - 2 * ci
        && IsEmptySquare(st, m.to) && IsEmptySquare(st, Behind(m.to, white)))
    || (toCol == fromCol - 1 && toRow == fromRow - ci && !IsEmptySquare(st, m.to))
    || (toCol == fromCol + 1 && toRow == fromRow - ci && !IsEmptySquare(st, m.to))
    || (m.to == st.enPassant && toCol == fromCol - 1 && toRow == fromRow - ci
        && !IsEmptySquare(st, Behind(m.to, white)))
    || (m.to == st.enPassant && toCol == fromCol + 1 && toRow == fromRow - ci
        && !IsEmptySquare(st, Behind(m.to, white)))
  }

  /** isValidKnightMovement. */
  predicate KnightMovement(m: Move) {
    Abs(m.to.col - m.from.col) * Abs(m.to.row - m.from.row) == 2
  }

  /** isValidBishopMovement: equal row and column distance, nothing in between. */
  predicate BishopMovement(st: State, m: Move) {
    Abs(m.from.col - m.to.col) == Abs(m.from.row - m.to.row)
    && PathClear(st, m.from, if m.to.row > m.from.row then 1 else -1,
                 if m.to.col > m.from.col then 1 else -1, Abs(m.to.row - m.from.row))
  }

  /** isValidRookMovement: same row or same column, nothing in between. */
  predicate RookMovement(st: State, m: Move) {
    !(m.from.row != m.to.row && m.from.col != m.to.col)
    && PathClear(st, m.from, Sign(m.to.row - m.from.row), Sign(m.to.col - m.from.col),
                 Abs(m.to.row - m.from.row + m.to.col - m.from.col))
  }

  /** isValidQueenMovement. */
  predicate QueenMovement(st: State, m: Move) {
    RookMovement(st, m) || BishopMovement(st, m)
  }

  /** The squares of a castling path, columns lo..hi of the row, are empty and not attacked. */
  predicate CastlePathSafe(st: State, row: int, lo: int, hi: int, c: Color)
    decreases st, 0, 5
  {
    forall col {:trigger SafeCastlingSquare(st, Square(row, col), c)} :: lo <= col <= hi ==> SafeCastlingSquare(st, Square(row, col), c)
  }

  /** One square of a castling path: not attacked, and empty. */
  predicate SafeCastlingSquare(st: State, sq: Square, c: Color)
    decreases st, 0, 4
  {
    !SquareAttacked(st, sq, c, false) && IsEmptySquare(st, sq)
  }

  /** The castling shape: two columns along the row from column 4. */
  predicate CastlingShape(m: Move) {
    Abs(m.from.col - m.to.col) == 2 && m.from.row == m.to.row && m.from.col == 4
  }

  /** isValidKingMovement.  The castling branch is only taken when `castling` holds. */
  predicate KingMovement(st: State, m: Move, castling: bool)
    decreases st, if castling then 1 else 0, 0
  {
    var color := Get(st, m.from).color;
    if CastlingShape(m) then
      castling && !SquareAttacked(st, Square(m.from.row, 4), color, false)
      && (if m.to.col == 6 && CastleOf(st, color) & KingSide != 0 then
            CastlePathSafe(st, m.from.row, 5, 6, color)
          else if m.to.col == 2 && CastleOf(st, color) & QueenSide != 0 then
            CastlePathSafe(st, m.from.row, 2, 3, color)
          else false)
    else
      Abs((m.from.col - m.to.col) * (m.from.row - m.to.row)) == 1
      || (m.from.col == m.to.col && Abs(m.from.row - m.to.row) == 1)
      || (m.from.row == m.to.row && Abs(m.from.col - m.to.col) == 1)
  }

  /** isValidPieceMovement: never onto the start square, otherwise the rule of the piece kind. */
  predicate PieceMovement(st: State, piece: Piece, m: Move, castling: bool)
    decreases st, if castling then 1 else 0, 1
  {
    if m.from == m.to then false
    else
      match piece
      case Pawn => PawnMovement(st, m)
      case Knight => KnightMovement(m)
      case Bishop => BishopMovement(st, m)
      case Rook => RookMovement(st, m)
      case Queen => QueenMovement(st, m)
      case King => KingMovement(st, m, castling)
      case Empty => false
  }

  /** The piece on `from` is a piece of another colour than c that could move onto sq. */
  predicate AttacksFrom(st: State, from: Square, sq: Square, c: Color, castling: bool)
    decreases st, if castling then 1 else 0, 2
  {
    var cp := Get(st, from);
    cp.color != c && cp != NoPiece && PieceMovement(st, cp.piece, Move(from, sq, NoPiece), castling)
  }

  /** isSquareInCheck: some square of the board holds such a piece. */
  predicate SquareAttacked(st: State, sq: Square, c: Color, castling: bool)
    decreases st, if castling then 1 else 0, 3
  {
    exists r, col {:trigger AttacksFrom(st, Square(r, col), sq, c, castling)} ::
      0 <= r < 8 && 0 <= col < 8 && AttacksFrom(st, Square(r, col), sq, c, castling)
  }

  /** Whether cp is the king getKingSquare looks for on behalf of colour c. */
  predicate IsKingOf(cp: ColoredPiece, c: Color) {
    (cp == ColoredPiece(White, King) && c == White) || (cp == ColoredPiece(Black, King) && c == Black)
  }

  function KingSquareFrom(st: State, c: Color, i: int): (s: Square)
    requires 0 <= i <= 64
    ensures s == InvalidSquare <==> forall j :: i <= j < 64 ==> !IsKingOf(st.board[j], c)
    ensures s != InvalidSquare ==>
      OnBoard(s) && i <= Index(s) && IsKingOf(Get(st, s), c)
      && forall j :: i <= j < Index(s) ==> !IsKingOf(st.board[j], c)
    decreases st, 64 - i
  {
    if i == 64 then InvalidSquare
    else if IsKingOf(st.board[i], c) then SquareAt(i)
    else KingSquareFrom(st, c, i + 1)
  }

  /** getKingSquare: the first square in row-major order that holds c's king, or {-1,-1}. */
  function KingSquare(st: State, c: Color): (s: Square)
    ensures s == InvalidSquare <==> forall t :: OnBoard(t) ==> !IsKingOf(Get(st, t), c)
    ensures s != InvalidSquare ==>
      OnBoard(s) && IsKingOf(Get(st, s), c)
      && forall t :: OnBoard(t) && Index(t) < Index(s) ==> !IsKingOf(Get(st, t), c)
  {
    var s := KingSquareFrom(st, c, 0);
    if s == InvalidSquare then
      assert forall t :: OnBoard(t) ==> !IsKingOf(Get(st, t), c) by {
        forall t | OnBoard(t) ensures !IsKingOf(Get(st, t), c) {
          assert !IsKingOf(st.board[Index(t)], c);
        }
      }
      s
    else
      assert forall t :: OnBoard(t) && Index(t) < Index(s) ==> !IsKingOf(Get(st, t), c) by {
        forall t | OnBoard(t) && Index(t) < Index(s) ensures !IsKingOf(Get(st, t), c) {
          assert !IsKingOf(st.board[Index(t)], c);
        }
      }
      s
  }

  /** isInCheck: the square of c's king is attacked. */
  predicate InCheck(st: State, c: Color) {
    SquareAttacked(st, KingSquare(st, c), c, true)
  }

  /** A castling "attack" by the other side's king needs an empty destination on the king's own
      row, so neither an occupied square nor a square on a row whose column 4 holds a c piece
      can be attacked that way. */
  lemma AttackFlagIrrelevant(st: State, from: Square, sq: Square, c: Color)
    requires !IsEmptySquare(st, sq) || Get(st, Square(sq.row, 4)).color == c
    ensures AttacksFrom(st, from, sq, c, false) == AttacksFrom(st, from, sq, c, true)
  {
    var m := Move(from, sq, NoPiece);
    var cp := Get(st, from);
    if cp.piece == King && CastlingShape(m) && cp.color != c {
      assert m.from == Square(sq.row, 4);
      assert sq == Square(m.from.row, sq.col);
      assert !SafeCastlingSquare(st, sq, cp.color);
      if sq.col == 6 {
        assert !CastlePathSafe(st, m.from.row, 5, 6, cp.color);
      } else {
        assert !CastlePathSafe(st, m.from.row, 2, 3, cp.color);
      }
      assert !KingMovement(st, m, true) && !KingMovement(st, m, false);
    } else if cp.piece == King && !CastlingShape(m) {
      assert KingMovement(st, m, false) == KingMovement(st, m, true);
    }
    if cp.color != c {
      assert PieceMovement(st, cp.piece, m, false) == PieceMovement(st, cp.piece, m, true);
    }
  }

  /** The flag that cuts the recursion changes no attack query the rules make: the squares of a
      castling path, on the row of the castling king, and the square of a king. */
  lemma CastlingFlagIrrelevant(st: State, sq: Square, c: Color)
    requires !IsEmptySquare(st, sq) || Get(st, Square(sq.row, 4)).color == c
    ensures SquareAttacked(st, sq, c, false) == SquareAttacked(st, sq, c, true)
  {
    forall r, col | 0 <= r < 8 && 0 <= col < 8
      ensures AttacksFrom(st, Square(r, col), sq, c, false) == AttacksFrom(st, Square(r, col), sq, c, true)
    {
      AttackFlagIrrelevant(st, Square(r, col), sq, c);
    }
  }
}
