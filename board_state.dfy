/** The value of a position: the 64 squares (row-major, row 0 = rank 8), side to move, the two
    castling masks, the en-passant target, the clocks and the game-over flag.  The imperative
    Position class mirrors these fields; every rule of the game is a function of this value. */
module BoardState {
  import opened Types

  type Grid = b: seq<ColoredPiece> | |b| == 64 witness seq(64, _ => NoPiece)

  datatype State = State(
    board: Grid,
    whiteToMove: bool,
    castleWhite: bv8,
    castleBlack: bv8,
    enPassant: Square,
    halfmove: int,
    fullmove: int,
    gameOver: bool)

  function Index(s: Square): (i: int)
    requires OnBoard(s)
    ensures 0 <= i < 64
  {
    s.row * 8 + s.col
  }

  lemma IndexInjective(s: Square, t: Square)
    requires OnBoard(s) && OnBoard(t)
    ensures Index(s) == Index(t) <==> s == t
  {
  }

  function SquareAt(i: int): (s: Square)
    requires 0 <= i < 64
    ensures OnBoard(s) && Index(s) == i
  {
    Square(i / 8, i % 8)
  }

  /** getPiece; a square off the board reads as empty (the source leaves such reads undefined). */
  function Get(st: State, s: Square): ColoredPiece {
    if OnBoard(s) then st.board[Index(s)] else NoPiece
  }

  predicate IsEmptySquare(st: State, s: Square) {
    Get(st, s) == NoPiece
  }

  /** A board write; a write off the board is dropped (the source leaves it undefined). */
  function Set(st: State, s: Square, cp: ColoredPiece): (r: State)
    ensures OnBoard(s) ==> Get(r, s) == cp
    ensures forall t :: t != s ==> Get(r, t) == Get(st, t)
    ensures !OnBoard(s) ==> r == st
    ensures r.(board := st.board) == st
  {
    if OnBoard(s) then st.(board := st.board[Index(s) := cp]) else st
  }

  /** Two states whose squares all read alike have the same board. */
  lemma BoardExtensionality(a: State, b: State)
    requires forall s :: OnBoard(s) ==> Get(a, s) == Get(b, s)
    ensures a.board == b.board
  {
    forall i | 0 <= i < 64
      ensures a.board[i] == b.board[i]
    {
      var s := SquareAt(i);
      assert Get(a, s) == Get(b, s);
    }
  }

  /** The colour whose move it is. */
  function SideToMove(st: State): (c: Color)
    ensures c == White <==> st.whiteToMove
    ensures c != NoColor
  {
    if st.whiteToMove then White else Black
  }

  /** castleState[c == WHITE ? 0 : 1]: every colour other than WHITE selects Black's mask. */
  function CastleOf(st: State, c: Color): bv8 {
    if c == White then st.castleWhite else st.castleBlack
  }

  function WithCastle(st: State, c: Color, mask: bv8): (r: State)
    ensures CastleOf(r, c) == mask
    ensures c == White ==> r.castleBlack == st.castleBlack
    ensures c != White ==> r.castleWhite == st.castleWhite
    ensures r.board == st.board && r.enPassant == st.enPassant && r.whiteToMove == st.whiteToMove
    ensures r.halfmove == st.halfmove && r.fullmove == st.fullmove && r.gameOver == st.gameOver
  {
    if c == White then st.(castleWhite := mask) else st.(castleBlack := mask)
  }

  /** The square one row behind a pawn's destination, towards the mover's side. */
  function Behind(to: Square, white: bool): Square {
    Square(to.row + (if white then 1 else -1), to.col)
  }

  /** isEnPassant: the mover is a pawn and lands on the en-passant target. */
  predicate IsEnPassant(st: State, m: Move) {
    Get(st, m.from).piece == Pawn && m.to == st.enPassant
  }

  function Abs(x: int): (a: int)
    ensures a >= 0 && (a == x || a == -x)
  {
    if x < 0 then -x else x
  }

  /** isCastling: the mover is a king and travels two columns. */
  predicate IsCastling(st: State, m: Move) {
    Get(st, m.from).piece == King && Abs(m.from.col - m.to.col) == 2
  }

  /** getCapturedPiece: the destination's piece, or for en passant the piece behind it. */
  function CapturedPiece(st: State, m: Move): (cp: ColoredPiece)
    ensures !IsEnPassant(st, m) ==> cp == Get(st, m.to)
    ensures IsEnPassant(st, m) ==> cp == Get(st, Behind(m.to, Get(st, m.from).color == White))
  {
    if IsEnPassant(st, m) then Get(st, Behind(m.to, Get(st, m.from).color == White)) else Get(st, m.to)
  }

  /** getCastlingRightsAsIndex: white king side, white queen side, black king side, black queen
      side in bits 0..3. */
  function CastlingRightsIndex(white: bv8, black: bv8): (index: int)
    ensures 0 <= index < 16
  {
    (if white & KingSide != 0 then 1 else 0)
    + (if white & QueenSide != 0 then 2 else 0)
    + (if black & KingSide != 0 then 4 else 0)
    + (if black & QueenSide != 0 then 8 else 0)
  }

  /** The index records exactly the four rights, so it tells any two sets of rights apart. */
  lemma CastlingRightsIndexInjective(w1: bv8, b1: bv8, w2: bv8, b2: bv8)
    ensures CastlingRightsIndex(w1, b1) == CastlingRightsIndex(w2, b2) <==>
      ((w1 & KingSide != 0) == (w2 & KingSide != 0) && (w1 & QueenSide != 0) == (w2 & QueenSide != 0)
       && (b1 & KingSide != 0) == (b2 & KingSide != 0) && (b1 & QueenSide != 0) == (b2 & QueenSide != 0))
  {
    var i1 := CastlingRightsIndex(w1, b1);
    var i2 := CastlingRightsIndex(w2, b2);
    assert i1 % 2 == (if w1 & KingSide != 0 then 1 else 0);
    assert i2 % 2 == (if w2 & KingSide != 0 then 1 else 0);
    assert i1 / 2 % 2 == (if w1 & QueenSide != 0 then 1 else 0);
    assert i2 / 2 % 2 == (if w2 & QueenSide != 0 then 1 else 0);
    assert i1 / 4 % 2 == (if b1 & KingSide != 0 then 1 else 0);
    assert i2 / 4 % 2 == (if b2 & KingSide != 0 then 1 else 0);
    assert i1 / 8 == (if b1 & QueenSide != 0 then 1 else 0);
    assert i2 / 8 == (if b2 & QueenSide != 0 then 1 else 0);
  }

  /** The undo snapshot taken before a move (the float tensor is not modelled). */
  datatype MoveContext = MoveContext(
    move: Move,
    movedPiece: ColoredPiece,
    capturedPiece: ColoredPiece,
    previousEnPassant: Square,
    previousCastleWhite: bv8,
    previousCastleBlack: bv8,
    previousHalfmove: int,
    previousFullmove: int,
    previousWhiteToMove: bool,
    previousGameOver: bool,
    wasEnPassantCapture: bool,
    wasCastling: bool,
    previousHash: bv64)

  /** getMoveContext: the move, the mover and what it captures, every field the move can change,
      and the move's two special-case flags. */
  function ContextOf(st: State, hash: bv64, m: Move): (ctx: MoveContext)
    ensures ctx.move == m && ctx.capturedPiece == CapturedPiece(st, m)
    ensures ctx.wasEnPassantCapture <==> IsEnPassant(st, m)
    ensures ctx.wasCastling <==> IsCastling(st, m)
    ensures ctx.previousEnPassant == st.enPassant && ctx.previousWhiteToMove == st.whiteToMove
    ensures ctx.previousCastleWhite == st.castleWhite && ctx.previousCastleBlack == st.castleBlack
    ensures ctx.previousHalfmove == st.halfmove && ctx.previousFullmove == st.fullmove
    ensures ctx.previousGameOver == st.gameOver && ctx.previousHash == hash
  {
    MoveContext(m, Get(st, m.from), CapturedPiece(st, m), st.enPassant, st.castleWhite,
      st.castleBlack, st.halfmove, st.fullmove, st.whiteToMove, st.gameOver,
      IsEnPassant(st, m), IsCastling(st, m), hash)
  }

  /** Contexts are equal exactly when every recorded field is; in particular two contexts of moves
      that differ only in the promotion piece are different. */
  lemma ContextEquality(a: MoveContext, b: MoveContext)
    ensures a.move.promotion != b.move.promotion ==> a != b
    ensures a == b <==> (a.move == b.move && a.movedPiece == b.movedPiece
      && a.capturedPiece == b.capturedPiece && a.previousEnPassant == b.previousEnPassant
      && a.previousCastleWhite == b.previousCastleWhite && a.previousCastleBlack == b.previousCastleBlack
      && a.previousHalfmove == b.previousHalfmove && a.previousFullmove == b.previousFullmove
      && a.previousWhiteToMove == b.previousWhiteToMove && a.previousGameOver == b.previousGameOver
      && a.wasEnPassantCapture == b.wasEnPassantCapture && a.wasCastling == b.wasCastling
      && a.previousHash == b.previousHash)
  {
  }

  /** The squares among the first n in row-major order that hold pieces of colour c. */
  function SquaresBelow(g: Grid, c: Color, n: int): set<Square>
    requires 0 <= n <= 64
  {
    if n == 0 then {}
    else SquaresBelow(g, c, n - 1) + (if g[n - 1].color == c then {SquareAt(n - 1)} else {})
  }

  /** The squares holding pieces of colour c. */
  function SquaresOf(st: State, c: Color): set<Square> {
    SquaresBelow(st.board, c, 64)
  }

  /** Taking one more square in row-major order adds it exactly when it holds a c piece. */
  lemma SquaresBelowStep(g: Grid, c: Color, n: int)
    requires 0 <= n < 64
    ensures SquaresBelow(g, c, n + 1) ==
      SquaresBelow(g, c, n) + (if g[n].color == c then {SquareAt(n)} else {})
  {
  }

  /** Decoding a square's index gives the square back. */
  lemma SquareAtIndex(s: Square)
    requires OnBoard(s)
    ensures SquareAt(Index(s)) == s
  {
  }

  /** A square is among the first n taken exactly when it is on the board, comes before n in
      row-major order and holds a piece of colour c. */
  lemma {:induction false} SquaresBelowMembership(g: Grid, c: Color, n: int, s: Square)
    requires 0 <= n <= 64
    ensures s in SquaresBelow(g, c, n) <==> OnBoard(s) && Index(s) < n && g[Index(s)].color == c
  {
    if n > 0 {
      SquaresBelowMembership(g, c, n - 1, s);
      if OnBoard(s) {
        SquareAtIndex(s);
      }
    }
  }

  lemma SquaresOfMembership(st: State, c: Color, s: Square)
    ensures s in SquaresOf(st, c) <==> OnBoard(s) && Get(st, s).color == c
  {
    SquaresBelowMembership(st.board, c, 64, s);
  }

  /** Writing cp on square s puts s into the squares of cp's colour and takes it out of every
      other colour's squares; no other square changes colour. */
  lemma SquaresAfterSet(st: State, s: Square, cp: ColoredPiece, c: Color)
    requires OnBoard(s)
    ensures SquaresOf(Set(st, s, cp), c) ==
      if cp.color == c then SquaresOf(st, c) + {s} else SquaresOf(st, c) - {s}
  {
    var after := Set(st, s, cp);
    var rhs := if cp.color == c then SquaresOf(st, c) + {s} else SquaresOf(st, c) - {s};
    forall t ensures t in SquaresOf(after, c) <==> t in rhs {
      SquaresOfMembership(after, c, t);
      SquaresOfMembership(st, c, t);
    }
  }
}
