/** The Zobrist hash of a position: the XOR of one 64-bit key per occupied square, the
    side-to-move key when White is to move, the key of the castling-rights index and the key of
    the en-passant file.  The key table is a parameter: its pseudo-random generation is not part
    of this model. */
module Zobrist {
  import opened Types
  import opened BoardState

  /** The key table: pieceKeys[12][64], sideToMoveKey, castlingRightsKey[16], enPassantFileKey[8]. */
  datatype Keys = Keys(
    pieceKeys: seq<seq<bv64>>,
    sideToMove: bv64,
    castling: seq<bv64>,
    enPassantFile: seq<bv64>)

  predicate WellSized(k: Keys) {
    |k.pieceKeys| == 12 && (forall p :: 0 <= p < 12 ==> |k.pieceKeys[p]| == 64)
    && |k.castling| == 16 && |k.enPassantFile| == 8
  }

  /** The 64-bit exclusive or that combines keys. */
  function Xor(a: bv64, b: bv64): bv64 {
    a ^ b
  }

  /** Exclusive or is associative and commutative, 0 is its unit, and every key is its own
      inverse: the algebra every incremental update of the hash relies on. */
  lemma XorAlgebra(a: bv64, b: bv64, c: bv64)
    ensures Xor(Xor(a, b), c) == Xor(a, Xor(b, c))
    ensures Xor(a, b) == Xor(b, a)
    ensures Xor(a, 0) == a && Xor(Xor(a, b), b) == a
  {
  }

  /** 0 is the unit of exclusive or. */
  lemma XorUnit(a: bv64)
    ensures Xor(a, 0) == a
  {
  }

  /** The row of the key table that a piece uses: White pawn .. king are 0 .. 5, Black pawn ..
      king 6 .. 11, and anything that is not one of the twelve pieces has no row (-1). */
  function PieceIndex(cp: ColoredPiece): (index: int)
    ensures -1 <= index < 12
    ensures index == -1 <==> !IsRealPiece(cp)
  {
    if !IsRealPiece(cp) then -1
    else PieceCode(cp.piece) - 1 + (if cp.color == White then 0 else 6)
  }

  /** Different pieces use different rows of the table. */
  lemma PieceIndexInjective(a: ColoredPiece, b: ColoredPiece)
    requires IsRealPiece(a) && IsRealPiece(b)
    ensures PieceIndex(a) == PieceIndex(b) <==> a == b
  {
  }

  /** The key square i contributes when it holds cp: none for an empty square. */
  function SquareKey(k: Keys, cp: ColoredPiece, i: int): bv64
    requires WellSized(k) && 0 <= i < 64
  {
    var index := PieceIndex(cp);
    if index == -1 then 0 else k.pieceKeys[index][i]
  }

  /** The XOR of the square keys of squares 0 .. n - 1, in the order initZobristHash visits them. */
  function PieceHash(k: Keys, g: Grid, n: int): bv64
    requires WellSized(k) && 0 <= n <= 64
  {
    if n == 0 then 0 else Xor(PieceHash(k, g, n - 1), SquareKey(k, g[n - 1], n - 1))
  }

  /** The en-passant term: the key of the target's file when a target is set.  A set target off
      the files a .. h (an out-of-range read in the source) adds nothing. */
  function EnPassantKey(k: Keys, ep: Square): bv64
    requires WellSized(k)
  {
    if ep != InvalidSquare && 0 <= ep.col < 8 then k.enPassantFile[ep.col] else 0
  }

  /** initZobristHash. */
  function Hash(k: Keys, st: State): bv64
    requires WellSized(k)
  {
    Xor(Xor(Xor(PieceHash(k, st.board, 64), if st.whiteToMove then k.sideToMove else 0),
            k.castling[CastlingRightsIndex(st.castleWhite, st.castleBlack)]),
        EnPassantKey(k, st.enPassant))
  }

  /** Changing a square at or after n leaves the XOR of squares 0 .. n - 1 alone. */
  lemma {:induction false} PieceHashBelow(k: Keys, g: Grid, i: int, cp: ColoredPiece, n: int)
    requires WellSized(k) && 0 <= n <= i < 64
    ensures PieceHash(k, g[i := cp], n) == PieceHash(k, g, n)
    decreases n
  {
    if n > 0 {
      PieceHashBelow(k, g, i, cp, n - 1);
    }
  }

  /** Replacing the piece on square i < n changes the XOR of squares 0 .. n - 1 by exactly the
      old and the new piece's keys of that square, whatever the other squares hold. */
  lemma {:induction false} PieceHashUpdate(k: Keys, g: Grid, i: int, cp: ColoredPiece, n: int)
    requires WellSized(k) && 0 <= i < n <= 64
    ensures PieceHash(k, g[i := cp], n) == Xor(PieceHash(k, g, n), Xor(SquareKey(k, g[i], i), SquareKey(k, cp, i)))
    decreases n
  {
    var x, y := SquareKey(k, g[i], i), SquareKey(k, cp, i);
    if n - 1 == i {
      PieceHashBelow(k, g, i, cp, i);
      var b := PieceHash(k, g, i);
      XorAlgebra(b, x, Xor(x, y));
      XorAlgebra(x, x, y);
      XorAlgebra(y, x, x);
      XorAlgebra(b, y, 0);
    } else {
      PieceHashUpdate(k, g, i, cp, n - 1);
      var b, l := PieceHash(k, g, n - 1), SquareKey(k, g[n - 1], n - 1);
      XorAlgebra(b, Xor(x, y), l);
      XorAlgebra(Xor(x, y), l, 0);
      XorAlgebra(b, l, Xor(x, y));
    }
  }

  /** The hash of a position after one square changes, from the hash before: the old piece's
      key of that square is XORed out and the new one's XORed in. */
  lemma HashAfterSet(k: Keys, st: State, s: Square, cp: ColoredPiece)
    requires WellSized(k) && OnBoard(s)
    ensures Hash(k, Set(st, s, cp)) ==
      Xor(Hash(k, st), Xor(SquareKey(k, Get(st, s), Index(s)), SquareKey(k, cp, Index(s))))
  {
    var d := Xor(SquareKey(k, Get(st, s), Index(s)), SquareKey(k, cp, Index(s)));
    PieceHashUpdate(k, st.board, Index(s), cp, 64);
    var p := PieceHash(k, st.board, 64);
    var side := if st.whiteToMove then k.sideToMove else 0;
    var c := k.castling[CastlingRightsIndex(st.castleWhite, st.castleBlack)];
    var e := EnPassantKey(k, st.enPassant);
    XorMovesOut(p, d, side, c, e);
  }

  /** The last two of a chain of XORed terms can trade places. */
  lemma XorSwapLast(a: bv64, d: bv64, x: bv64)
    ensures Xor(Xor(a, d), x) == Xor(Xor(a, x), d)
  {
    XorAlgebra(a, d, x);
    XorAlgebra(d, x, 0);
    XorAlgebra(a, x, d);
  }

  /** A term XORed into the first of four XORed terms can be moved to the outside. */
  lemma XorMovesOut(p: bv64, d: bv64, x: bv64, y: bv64, z: bv64)
    ensures Xor(Xor(Xor(Xor(p, d), x), y), z) == Xor(Xor(Xor(Xor(p, x), y), z), d)
  {
    XorSwapLast(p, d, x);
    XorSwapLast(Xor(p, x), d, y);
    XorSwapLast(Xor(Xor(p, x), y), d, z);
  }

  /** Handing the move to the other side toggles exactly the side-to-move key. */
  lemma HashAfterTurn(k: Keys, st: State)
    requires WellSized(k)
    ensures Hash(k, st.(whiteToMove := !st.whiteToMove)) == Xor(Hash(k, st), k.sideToMove)
  {
    var p := PieceHash(k, st.board, 64);
    var c := k.castling[CastlingRightsIndex(st.castleWhite, st.castleBlack)];
    var e := EnPassantKey(k, st.enPassant);
    var key := k.sideToMove;
    // With the key: Xor(Xor(Xor(p, key), c), e) is Xor(Xor(Xor(p, c), e), key).
    XorMovesOut(p, key, c, e, 0);
    XorAlgebra(p, 0, 0);
    XorAlgebra(Xor(p, c), 0, 0);
    XorAlgebra(Xor(Xor(p, c), e), 0, 0);
    XorAlgebra(Xor(Xor(Xor(p, key), c), e), 0, 0);
    XorAlgebra(Xor(Xor(p, c), e), key, key);
  }

  /** The clocks and the game-over flag do not enter the hash. */
  lemma HashIgnoresClocks(k: Keys, st: State, halfmove: int, fullmove: int, gameOver: bool)
    requires WellSized(k)
    ensures Hash(k, st.(halfmove := halfmove, fullmove := fullmove, gameOver := gameOver)) == Hash(k, st)
  {
  }
}
