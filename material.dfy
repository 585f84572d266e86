/** The material count both engines evaluate with: a value per piece kind, counted for White and
    against everything else, summed over the 64 squares row by row as the evaluation loops
    visit them. */
module Material {
  import opened Types
  import opened BoardState

  /** getPieceValue's table: 100, 320, 330, 500, 900 and 20000 from pawn to king, nothing for an
      empty square. */
  function Worth(k: Piece): nat {
    match k
    case Pawn => 100
    case Knight => 320
    case Bishop => 330
    case Rook => 500
    case Queen => 900
    case King => 20000
    case Empty => 0
  }

  /** getPieceValue: the worth of the kind, times 1 for WHITE and -1 for any other colour. */
  function PieceValue(cp: ColoredPiece): int {
    (if cp.color == White then 1 else -1) * Worth(cp.piece)
  }

  /** A White piece counts its worth and a Black one as much against; the empty square and a
      piece of no colour follow the "anything but WHITE" rule; the kinds are strictly ordered
      from pawn to king. */
  lemma PieceValueProperties(k: Piece)
    ensures PieceValue(ColoredPiece(White, k)) == Worth(k) >= 0
    ensures PieceValue(ColoredPiece(Black, k)) == -PieceValue(ColoredPiece(White, k))
    ensures PieceValue(ColoredPiece(NoColor, k)) == PieceValue(ColoredPiece(Black, k))
    ensures k == Empty <==> Worth(k) == 0
    ensures PieceValue(NoPiece) == 0
    ensures 0 < Worth(Pawn) < Worth(Knight) < Worth(Bishop) < Worth(Rook) < Worth(Queen) < Worth(King)
  {
  }

  /** The material on the first k squares of row r. */
  function RowMaterial(b: Grid, r: int, k: int): int
    requires 0 <= r < 8 && 0 <= k <= 8
  {
    if k == 0 then 0 else RowMaterial(b, r, k - 1) + PieceValue(b[r * 8 + k - 1])
  }

  /** The material on the first k rows. */
  function RowsMaterial(b: Grid, k: int): int
    requires 0 <= k <= 8
  {
    if k == 0 then 0 else RowsMaterial(b, k - 1) + RowMaterial(b, k - 1, 8)
  }

  /** The material balance of a position: the sum of getPieceValue over all 64 squares. */
  function MaterialSum(st: State): int {
    RowsMaterial(st.board, 8)
  }

  /** Writing one square changes the row sums by the difference of the two values there. */
  lemma {:induction false} RowMaterialUpdate(b: Grid, r: int, k: int, s: Square, cp: ColoredPiece)
    requires OnBoard(s) && 0 <= r < 8 && 0 <= k <= 8
    ensures RowMaterial(b[Index(s) := cp], r, k) == RowMaterial(b, r, k)
      + (if r == s.row && s.col < k then PieceValue(cp) - PieceValue(b[Index(s)]) else 0)
  {
    if k > 0 {
      RowMaterialUpdate(b, r, k - 1, s, cp);
      IndexInjective(s, Square(r, k - 1));
    }
  }

  lemma {:induction false} RowsMaterialUpdate(b: Grid, k: int, s: Square, cp: ColoredPiece)
    requires OnBoard(s) && 0 <= k <= 8
    ensures RowsMaterial(b[Index(s) := cp], k) == RowsMaterial(b, k)
      + (if s.row < k then PieceValue(cp) - PieceValue(b[Index(s)]) else 0)
  {
    if k > 0 {
      RowsMaterialUpdate(b, k - 1, s, cp);
      RowMaterialUpdate(b, k - 1, 8, s, cp);
    }
  }

  /** Putting cp on a square replaces the value of what stood there by the value of cp; in
      particular taking a piece off the board removes exactly its value. */
  lemma MaterialSet(st: State, s: Square, cp: ColoredPiece)
    requires OnBoard(s)
    ensures MaterialSum(Set(st, s, cp)) == MaterialSum(st) - PieceValue(Get(st, s)) + PieceValue(cp)
  {
    RowsMaterialUpdate(st.board, 8, s, cp);
  }

  /** The same piece kind in the other colour; a square of no colour is left empty. */
  function Swapped(cp: ColoredPiece): ColoredPiece {
    if cp.color == White then ColoredPiece(Black, cp.piece)
    else if cp.color == Black then ColoredPiece(White, cp.piece)
    else NoPiece
  }

  /** Every square holds a coloured piece or nothing. */
  predicate Coloured(b: Grid) {
    forall i :: 0 <= i < 64 ==> b[i].color != NoColor || b[i].piece == Empty
  }

  /** Row 7 - r is row r with the colours exchanged, square for square. */
  predicate Mirrored(b: Grid) {
    forall r, c {:trigger b[r * 8 + c]} :: 0 <= r < 8 && 0 <= c < 8 ==> b[(7 - r) * 8 + c] == Swapped(b[r * 8 + c])
  }

  lemma {:induction false} MirroredRows(b: Grid, r: int, k: int)
    requires Coloured(b) && Mirrored(b) && 0 <= r < 8 && 0 <= k <= 8
    ensures RowMaterial(b, 7 - r, k) == -RowMaterial(b, r, k)
  {
    if k > 0 {
      MirroredRows(b, r, k - 1);
      var cp := b[r * 8 + k - 1];
      assert b[(7 - r) * 8 + (k - 1)] == Swapped(cp);
      assert cp.color != NoColor || cp.piece == Empty;
    }
  }

  /** A position that is the colour-exchanged mirror of itself is materially balanced. */
  lemma MirroredBalanced(st: State)
    requires Coloured(st.board) && Mirrored(st.board)
    ensures MaterialSum(st) == 0
  {
    var b := st.board;
    MirroredRows(b, 0, 8);
    MirroredRows(b, 1, 8);
    MirroredRows(b, 2, 8);
    MirroredRows(b, 3, 8);
    assert RowsMaterial(b, 1) == RowMaterial(b, 0, 8);
    assert RowsMaterial(b, 2) == RowsMaterial(b, 1) + RowMaterial(b, 1, 8);
    assert RowsMaterial(b, 3) == RowsMaterial(b, 2) + RowMaterial(b, 2, 8);
    assert RowsMaterial(b, 4) == RowsMaterial(b, 3) + RowMaterial(b, 3, 8);
    assert RowsMaterial(b, 5) == RowsMaterial(b, 4) + RowMaterial(b, 4, 8);
    assert RowsMaterial(b, 6) == RowsMaterial(b, 5) + RowMaterial(b, 5, 8);
    assert RowsMaterial(b, 7) == RowsMaterial(b, 6) + RowMaterial(b, 6, 8);
    assert RowsMaterial(b, 8) == RowsMaterial(b, 7) + RowMaterial(b, 7, 8);
  }

  /** The back-rank order of the start position, from the a-file to the h-file. */
  function BackRank(col: int): Piece {
    if col == 0 || col == 7 then Rook
    else if col == 1 || col == 6 then Knight
    else if col == 2 || col == 5 then Bishop
    else if col == 3 then Queen
    else King
  }

  /** The start position square by square, as the FEN
      rnbqkbnr/pppppppp/8/8/8/8/PPPPPPPP/RNBQKBNR places it (row 0 is rank 8). */
  function StartSquare(i: int): ColoredPiece
    requires 0 <= i < 64
  {
    var r, c := i / 8, i % 8;
    if r == 0 then ColoredPiece(Black, BackRank(c))
    else if r == 1 then ColoredPiece(Black, Pawn)
    else if r == 6 then ColoredPiece(White, Pawn)
    else if r == 7 then ColoredPiece(White, BackRank(c))
    else NoPiece
  }

  function StartGrid(): (b: Grid) {
    seq(64, i requires 0 <= i < 64 => StartSquare(i))
  }

  /** The start position evaluates to 0. */
  lemma StartBalanced(st: State)
    requires st.board == StartGrid()
    ensures MaterialSum(st) == 0
  {
    var b := st.board;
    forall r, c {:trigger b[r * 8 + c]} | 0 <= r < 8 && 0 <= c < 8
      ensures b[(7 - r) * 8 + c] == Swapped(b[r * 8 + c])
    {
      assert (r * 8 + c) / 8 == r && (r * 8 + c) % 8 == c;
      assert ((7 - r) * 8 + c) / 8 == 7 - r && ((7 - r) * 8 + c) % 8 == c;
    }
    MirroredBalanced(st);
  }

  /** Without Black's b8 knight the start position evaluates to 320. */
  lemma StartWithoutKnight(st: State)
    requires st.board == StartGrid()
    ensures MaterialSum(Set(st, Square(0, 1), NoPiece)) == 320
  {
    StartBalanced(st);
    MaterialSet(st, Square(0, 1), NoPiece);
    assert Get(st, Square(0, 1)) == ColoredPiece(Black, Knight);
  }
}
