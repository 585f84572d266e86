/** The Java generation's GUI piece classes (model/pieces): each piece knows its square, its
    colour and whether it has moved, and asks the board it sits on which squares are occupied.
    That board is not part of this model; it is the value Tiles below. */
module JavaPieces {
  import opened JavaRules

  /** The fields of Piece the movement rules read. */
  datatype Piece = Piece(col: int, row: int, isWhite: bool, isFirstMove: bool)

  /** What the pieces ask of their board: getPiece(c, r) is the lookup in pieces (null when the
      square is not a key), getTileNum and enPassantTile are taken as they come, and
      kingChecked(c, r) is the answer of checkScanner.isKingChecked for the king moved to (c, r). */
  datatype Tiles = Tiles(pieces: map<(int, int), Piece>, tileNum: (int, int) -> int,
                         enPassantTile: int, kingChecked: (int, int) -> bool)

  /** getPiece(c, r) != null. */
  predicate Occupied(t: Tiles, c: int, r: int) {
    (c, r) in t.pieces
  }

  // ---------------------------------------------------------------------------------------------
  // Knight

  /** Knight.isValidMovement. */
  predicate KnightValid(p: Piece, col: int, row: int) {
    Abs(col - p.col) * Abs(row - p.row) == 2
  }

  /** The eight jumps of a knight. */
  const KnightJumps: set<(int, int)> :=
    {(1, 2), (2, 1), (-1, 2), (-2, 1), (1, -2), (2, -1), (-1, -2), (-2, -1)}

  lemma ProductTwo(a: nat, b: nat)
    ensures a * b == 2 <==> (a == 1 && b == 2) || (a == 2 && b == 1)
  {
    if a == 0 || b == 0 {
      assert a * b == 0;
    } else if a >= 3 {
      assert a * b >= 3 * b;
    } else if b >= 3 {
      assert a * b >= a * 3;
    } else if a == 2 && b == 2 {
      assert a * b == 4;
    }
  }

  /** The product test accepts exactly the eight jumps. */
  lemma KnightTargets(p: Piece, col: int, row: int)
    ensures KnightValid(p, col, row) <==> (col - p.col, row - p.row) in KnightJumps
  {
    ProductTwo(Abs(col - p.col), Abs(row - p.row));
  }

  /** Staying put, a straight line and a diagonal are never a knight's move. */
  lemma KnightRejectsLines(p: Piece, col: int, row: int)
    requires col == p.col || row == p.row || Abs(col - p.col) == Abs(row - p.row)
    ensures !KnightValid(p, col, row)
  {
    ProductTwo(Abs(col - p.col), Abs(row - p.row));
  }

  /** A knight can jump from a to b exactly when it can jump back. */
  lemma KnightSymmetric(a: Piece, b: Piece)
    ensures KnightValid(a, b.col, b.row) <==> KnightValid(b, a.col, a.row)
  {
    assert Abs(b.col - a.col) == Abs(a.col - b.col) && Abs(b.row - a.row) == Abs(a.row - b.row);
  }

  /** A knight always lands on a square of the other colour. */
  lemma KnightChangesSquareColour(p: Piece, col: int, row: int)
    requires KnightValid(p, col, row)
    ensures (col + row) % 2 != (p.col + p.row) % 2
  {
    KnightTargets(p, col, row);
  }

  // ---------------------------------------------------------------------------------------------
  // Bishop, rook and queen: the shapes

  /** Bishop.isValidMovement. */
  predicate BishopValid(p: Piece, col: int, row: int) {
    Abs(p.col - col) == Abs(p.row - row)
  }

  /** Rook.isValidMovement. */
  predicate RookValid(p: Piece, col: int, row: int) {
    p.col == col || p.row == row
  }

  /** Queen.isValidMovement. */
  predicate QueenValid(p: Piece, col: int, row: int) {
    p.col == col || p.row == row || Abs(p.col - col) == Abs(p.row - row)
  }

  /** A bishop stays on its square colour. */
  lemma BishopKeepsSquareColour(p: Piece, col: int, row: int)
    requires BishopValid(p, col, row)
    ensures (col + row) % 2 == (p.col + p.row) % 2
  {
    if col - p.col == row - p.row {
      assert col + row == p.col + p.row + 2 * (col - p.col);
    } else {
      assert col - p.col == p.row - row;
      assert col + row == p.col + p.row;
    }
  }

  /** The queen moves exactly like a rook or like a bishop. */
  lemma QueenIsRookOrBishop(p: Piece, col: int, row: int)
    ensures QueenValid(p, col, row) <==> RookValid(p, col, row) || BishopValid(p, col, row)
  {
  }

  // ---------------------------------------------------------------------------------------------
  // Collision scans

  /** The coordinate i steps of d from x. */
  function Along(x: int, d: int, i: int): int {
    x + i * d
  }

  /** Some of the n squares after (col, row) in direction (dc, dr) is occupied. */
  predicate Blocked(t: Tiles, col: int, row: int, dc: int, dr: int, n: int)
    decreases n
  {
    n > 0 && (Occupied(t, col + dc, row + dr) || Blocked(t, col + dc, row + dr, dc, dr, n - 1))
  }

  lemma AlongUnit(x: int, d: int, i: int)
    requires -1 <= d <= 1
    ensures Along(x, d, i) == if d == 1 then x + i else if d == -1 then x - i else x
  {
  }

  lemma AlongNext(x: int, d: int, i: int)
    ensures Along(x + d, d, i) == Along(x, d, i + 1)
  {
    assert (i + 1) * d == i * d + d;
  }

  lemma {:induction false} BlockedMeaning(t: Tiles, col: int, row: int, dc: int, dr: int, n: int)
    ensures Blocked(t, col, row, dc, dr, n) <==>
      exists i :: 1 <= i <= n && Occupied(t, Along(col, dc, i), Along(row, dr, i))
    decreases n
  {
    if n > 0 {
      var c1, r1 := col + dc, row + dr;
      BlockedMeaning(t, c1, r1, dc, dr, n - 1);
      assert Along(col, dc, 1) == c1 && Along(row, dr, 1) == r1;
      if exists i :: 1 <= i <= n && Occupied(t, Along(col, dc, i), Along(row, dr, i)) {
        var i :| 1 <= i <= n && Occupied(t, Along(col, dc, i), Along(row, dr, i));
        if i > 1 {
          AlongNext(col, dc, i - 1);
          AlongNext(row, dr, i - 1);
          assert Occupied(t, Along(c1, dc, i - 1), Along(r1, dr, i - 1));
        }
      }
      if Blocked(t, c1, r1, dc, dr, n - 1) {
        var i :| 1 <= i <= n - 1 && Occupied(t, Along(c1, dc, i), Along(r1, dr, i));
        AlongNext(col, dc, i);
        AlongNext(row, dr, i);
        assert Occupied(t, Along(col, dc, i + 1), Along(row, dr, i + 1));
      }
    }
  }

  /** Two boards that agree on every scanned square give the same answer. */
  lemma BlockedFrame(t: Tiles, u: Tiles, col: int, row: int, dc: int, dr: int, n: int)
    requires forall i :: 1 <= i <= n ==>
      (Occupied(t, Along(col, dc, i), Along(row, dr, i)) <==> Occupied(u, Along(col, dc, i), Along(row, dr, i)))
    ensures Blocked(t, col, row, dc, dr, n) == Blocked(u, col, row, dc, dr, n)
  {
    BlockedMeaning(t, col, row, dc, dr, n);
    BlockedMeaning(u, col, row, dc, dr, n);
  }

  /** One of the for loops of moveCollidesWithPiece: it returns true at the first occupied one of
      the n squares after (col, row) in direction (dc, dr). */
  method ScanPath(t: Tiles, col: int, row: int, dc: int, dr: int, n: int) returns (hit: bool)
    ensures hit == Blocked(t, col, row, dc, dr, n)
  {
    var c, r, i := col + dc, row + dr, 1;
    while i <= n
      invariant Blocked(t, col, row, dc, dr, n) == Blocked(t, c - dc, r - dr, dc, dr, n - i + 1)
      decreases n - i
    {
      if Occupied(t, c, r) {
        return true;
      }
      c, r, i := c + dc, r + dr, i + 1;
    }
    return false;
  }

  /** Bishop.moveCollidesWithPiece: whichever of the four diagonal quadrants the target lies in,
      the Abs(p.col - col) - 1 squares walked towards it from the bishop. */
  predicate BishopCollision(t: Tiles, p: Piece, col: int, row: int) {
    var n := Abs(p.col - col) - 1;
    || (p.col > col && p.row > row && Blocked(t, p.col, p.row, -1, -1, n))
    || (p.col < col && p.row > row && Blocked(t, p.col, p.row, 1, -1, n))
    || (p.col > col && p.row < row && Blocked(t, p.col, p.row, -1, 1, n))
    || (p.col < col && p.row < row && Blocked(t, p.col, p.row, 1, 1, n))
  }

  /** Rook.moveCollidesWithPiece: the squares strictly between the rook and the target's column
      along the rook's row, then those strictly between it and the target's row along its
      column. */
  predicate RookCollision(t: Tiles, p: Piece, col: int, row: int) {
    || (p.col > col && Blocked(t, p.col, p.row, -1, 0, p.col - col - 1))
    || (p.col < col && Blocked(t, p.col, p.row, 1, 0, col - p.col - 1))
    || (p.row > row && Blocked(t, p.col, p.row, 0, -1, p.row - row - 1))
    || (p.row < row && Blocked(t, p.col, p.row, 0, 1, row - p.row - 1))
  }

  /** Queen.moveCollidesWithPiece: the rook's loops for a target on its row or column, the
      bishop's otherwise. */
  predicate QueenCollision(t: Tiles, p: Piece, col: int, row: int) {
    if p.col == col || p.row == row then RookCollision(t, p, col, row) else BishopCollision(t, p, col, row)
  }

  method BishopCollides(t: Tiles, p: Piece, col: int, row: int) returns (hit: bool)
    ensures hit == BishopCollision(t, p, col, row)
  {
    var n := Abs(p.col - col) - 1;
    if p.col > col && p.row > row {
      hit := ScanPath(t, p.col, p.row, -1, -1, n);
      if hit { return; }
    }
    if p.col < col && p.row > row {
      hit := ScanPath(t, p.col, p.row, 1, -1, n);
      if hit { return; }
    }
    if p.col > col && p.row < row {
      hit := ScanPath(t, p.col, p.row, -1, 1, n);
      if hit { return; }
    }
    if p.col < col && p.row < row {
      hit := ScanPath(t, p.col, p.row, 1, 1, n);
      if hit { return; }
    }
    return false;
  }

  method RookCollides(t: Tiles, p: Piece, col: int, row: int) returns (hit: bool)
    ensures hit == RookCollision(t, p, col, row)
  {
    if p.col > col {
      hit := ScanPath(t, p.col, p.row, -1, 0, p.col - col - 1);
      if hit { return; }
    }
    if p.col < col {
      hit := ScanPath(t, p.col, p.row, 1, 0, col - p.col - 1);
      if hit { return; }
    }
    if p.row > row {
      hit := ScanPath(t, p.col, p.row, 0, -1, p.row - row - 1);
      if hit { return; }
    }
    if p.row < row {
      hit := ScanPath(t, p.col, p.row, 0, 1, row - p.row - 1);
      if hit { return; }
    }
    return false;
  }

  method QueenCollides(t: Tiles, p: Piece, col: int, row: int) returns (hit: bool)
    ensures hit == QueenCollision(t, p, col, row)
  {
    if p.col == col || p.row == row {
      hit := RookCollides(t, p, col, row);
    } else {
      hit := BishopCollides(t, p, col, row);
    }
  }

  /** x lies strictly between a and b. */
  predicate Between(a: int, x: int, b: int) {
    (a < x < b) || (b < x < a)
  }

  /** The squares strictly between (p.col, p.row) and (col, row) on their common diagonal. */
  ghost predicate InsideDiagonal(p: Piece, col: int, row: int, c: int, r: int) {
    Between(p.col, c, col) && Between(p.row, r, row) && Abs(c - p.col) == Abs(r - p.row)
  }

  /** The squares strictly between (p.col, p.row) and (col, row) on their common row or column. */
  ghost predicate InsideLine(p: Piece, col: int, row: int, c: int, r: int) {
    (row == p.row && r == row && Between(p.col, c, col))
    || (col == p.col && c == col && Between(p.row, r, row))
  }

  lemma DiagonalSquares(p: Piece, col: int, row: int, dc: int, dr: int, n: int)
    requires (dc == 1 || dc == -1) && (dr == 1 || dr == -1)
    requires n >= 0 && col == Along(p.col, dc, n + 1) && row == Along(p.row, dr, n + 1)
    ensures forall c, r :: InsideDiagonal(p, col, row, c, r) <==>
      exists i :: 1 <= i <= n && c == Along(p.col, dc, i) && r == Along(p.row, dr, i)
  {
    AlongUnit(p.col, dc, n + 1);
    AlongUnit(p.row, dr, n + 1);
    forall c, r | InsideDiagonal(p, col, row, c, r)
      ensures exists i :: 1 <= i <= n && c == Along(p.col, dc, i) && r == Along(p.row, dr, i)
    {
      var i := Abs(c - p.col);
      AlongUnit(p.col, dc, i);
      AlongUnit(p.row, dr, i);
      assert 1 <= i <= n && c == Along(p.col, dc, i) && r == Along(p.row, dr, i);
    }
    forall c, r, i | 1 <= i <= n && c == Along(p.col, dc, i) && r == Along(p.row, dr, i)
      ensures InsideDiagonal(p, col, row, c, r)
    {
      AlongUnit(p.col, dc, i);
      AlongUnit(p.row, dr, i);
    }
  }

  /** For a diagonal target, the bishop collides exactly when a square strictly between is
      occupied. */
  lemma BishopCollisionMeaning(t: Tiles, p: Piece, col: int, row: int)
    requires BishopValid(p, col, row)
    ensures BishopCollision(t, p, col, row) <==>
      exists c, r :: InsideDiagonal(p, col, row, c, r) && Occupied(t, c, r)
  {
    var n := Abs(p.col - col) - 1;
    var dc := if col > p.col then 1 else -1;
    var dr := if row > p.row then 1 else -1;
    if col != p.col {
      AlongUnit(p.col, dc, n + 1);
      AlongUnit(p.row, dr, n + 1);
      BlockedMeaning(t, p.col, p.row, dc, dr, n);
      DiagonalSquares(p, col, row, dc, dr, n);
    }
  }

  lemma LineSquares(p: Piece, col: int, row: int, dc: int, dr: int, n: int)
    requires (dc == 0 && (dr == 1 || dr == -1)) || (dr == 0 && (dc == 1 || dc == -1))
    requires n >= 0 && col == Along(p.col, dc, n + 1) && row == Along(p.row, dr, n + 1)
    ensures forall c, r :: InsideLine(p, col, row, c, r) <==>
      exists i :: 1 <= i <= n && c == Along(p.col, dc, i) && r == Along(p.row, dr, i)
  {
    AlongUnit(p.col, dc, n + 1);
    AlongUnit(p.row, dr, n + 1);
    forall c, r | InsideLine(p, col, row, c, r)
      ensures exists i :: 1 <= i <= n && c == Along(p.col, dc, i) && r == Along(p.row, dr, i)
    {
      var i := Abs(c - p.col) + Abs(r - p.row);
      AlongUnit(p.col, dc, i);
      AlongUnit(p.row, dr, i);
      assert 1 <= i <= n && c == Along(p.col, dc, i) && r == Along(p.row, dr, i);
    }
    forall c, r, i | 1 <= i <= n && c == Along(p.col, dc, i) && r == Along(p.row, dr, i)
      ensures InsideLine(p, col, row, c, r)
    {
      AlongUnit(p.col, dc, i);
      AlongUnit(p.row, dr, i);
    }
  }

  /** For a target on its row or column, the rook collides exactly when a square strictly
      between is occupied. */
  lemma RookCollisionMeaning(t: Tiles, p: Piece, col: int, row: int)
    requires RookValid(p, col, row)
    ensures RookCollision(t, p, col, row) <==>
      exists c, r :: InsideLine(p, col, row, c, r) && Occupied(t, c, r)
  {
    if row == p.row && col != p.col {
      var dc := if col > p.col then 1 else -1;
      var n := Abs(col - p.col) - 1;
      AlongUnit(p.col, dc, n + 1);
      AlongUnit(p.row, 0, n + 1);
      BlockedMeaning(t, p.col, p.row, dc, 0, n);
      LineSquares(p, col, row, dc, 0, n);
    } else if col == p.col && row != p.row {
      var dr := if row > p.row then 1 else -1;
      var n := Abs(row - p.row) - 1;
      AlongUnit(p.col, 0, n + 1);
      AlongUnit(p.row, dr, n + 1);
      BlockedMeaning(t, p.col, p.row, 0, dr, n);
      LineSquares(p, col, row, 0, dr, n);
    }
  }

  /** The queen collides exactly when a square strictly between it and the target, on their row,
      column or diagonal, is occupied. */
  lemma QueenCollisionMeaning(t: Tiles, p: Piece, col: int, row: int)
    requires QueenValid(p, col, row)
    ensures QueenCollision(t, p, col, row) <==>
      exists c, r :: (InsideLine(p, col, row, c, r) || InsideDiagonal(p, col, row, c, r)) && Occupied(t, c, r)
  {
    if p.col == col || p.row == row {
      RookCollisionMeaning(t, p, col, row);
      assert forall c, r :: !InsideDiagonal(p, col, row, c, r);
    } else {
      BishopCollisionMeaning(t, p, col, row);
      assert forall c, r :: !InsideLine(p, col, row, c, r);
    }
  }

  /** Two boards that agree on every square other than the piece's own and the target. */
  ghost predicate SameElsewhere(t: Tiles, u: Tiles, p: Piece, col: int, row: int) {
    forall c, r :: (c, r) != (p.col, p.row) && (c, r) != (col, row) ==> (Occupied(t, c, r) <==> Occupied(u, c, r))
  }

  /** The scans of a path never look at its endpoints, whatever the target. */
  lemma PathAvoidsEnds(t: Tiles, u: Tiles, p: Piece, col: int, row: int, dc: int, dr: int, n: int)
    requires SameElsewhere(t, u, p, col, row)
    requires -1 <= dc <= 1 && -1 <= dr <= 1 && (dc, dr) != (0, 0)
    requires dc != 0 ==> n < Abs(col - p.col) && (col - p.col) * dc > 0
    requires dc == 0 ==> n < Abs(row - p.row) && (row - p.row) * dr > 0
    ensures Blocked(t, p.col, p.row, dc, dr, n) == Blocked(u, p.col, p.row, dc, dr, n)
  {
    forall i | 1 <= i <= n
      ensures Occupied(t, Along(p.col, dc, i), Along(p.row, dr, i)) <==> Occupied(u, Along(p.col, dc, i), Along(p.row, dr, i))
    {
      AlongUnit(p.col, dc, i);
      AlongUnit(p.row, dr, i);
    }
    BlockedFrame(t, u, p.col, p.row, dc, dr, n);
  }

  /** Bishop.moveCollidesWithPiece never inspects the bishop's square or the target. */
  lemma BishopIgnoresEnds(t: Tiles, u: Tiles, p: Piece, col: int, row: int)
    requires SameElsewhere(t, u, p, col, row)
    ensures BishopCollision(t, p, col, row) == BishopCollision(u, p, col, row)
  {
    var n := Abs(p.col - col) - 1;
    if col < p.col {
      PathAvoidsEnds(t, u, p, col, row, -1, -1, n);
      PathAvoidsEnds(t, u, p, col, row, -1, 1, n);
    } else if col > p.col {
      PathAvoidsEnds(t, u, p, col, row, 1, -1, n);
      PathAvoidsEnds(t, u, p, col, row, 1, 1, n);
    }
  }

  /** Rook.moveCollidesWithPiece never inspects the rook's square or the target. */
  lemma RookIgnoresEnds(t: Tiles, u: Tiles, p: Piece, col: int, row: int)
    requires SameElsewhere(t, u, p, col, row)
    ensures RookCollision(t, p, col, row) == RookCollision(u, p, col, row)
  {
    if col < p.col {
      PathAvoidsEnds(t, u, p, col, row, -1, 0, p.col - col - 1);
    } else if col > p.col {
      PathAvoidsEnds(t, u, p, col, row, 1, 0, col - p.col - 1);
    }
    if row < p.row {
      PathAvoidsEnds(t, u, p, col, row, 0, -1, p.row - row - 1);
    } else if row > p.row {
      PathAvoidsEnds(t, u, p, col, row, 0, 1, row - p.row - 1);
    }
  }

  /** Queen.moveCollidesWithPiece never inspects the queen's square or the target. */
  lemma QueenIgnoresEnds(t: Tiles, u: Tiles, p: Piece, col: int, row: int)
    requires SameElsewhere(t, u, p, col, row)
    ensures QueenCollision(t, p, col, row) == QueenCollision(u, p, col, row)
  {
    RookIgnoresEnds(t, u, p, col, row);
    BishopIgnoresEnds(t, u, p, col, row);
  }

  /** A target on the piece's own square or a neighbouring one never collides. */
  lemma NeighboursNeverCollide(t: Tiles, p: Piece, col: int, row: int)
    requires Abs(col - p.col) <= 1 && Abs(row - p.row) <= 1
    ensures !BishopCollision(t, p, col, row) && !RookCollision(t, p, col, row) && !QueenCollision(t, p, col, row)
  {
  }

  // ---------------------------------------------------------------------------------------------
  // Pawn

  /** The row a pawn's double push starts from. */
  function PawnStartRow(isWhite: bool): int {
    if isWhite then 6 else 1
  }

  /** Pawn.isValidMovement: White moves towards row 0 (colorIndex 1), Black towards row 7. */
  predicate PawnValid(t: Tiles, p: Piece, col: int, row: int) {
    var ci := if p.isWhite then 1 else -1;
    || (p.col == col && row == p.row - ci && !Occupied(t, col, row))
    || (p.row == PawnStartRow(p.isWhite) && p.col == col && row == p.row - 2 * ci
        && !Occupied(t, col, row) && !Occupied(t, col, row + ci))
    || (col == p.col - 1 && row == p.row - ci && Occupied(t, col, row))
    || (col == p.col + 1 && row == p.row - ci && Occupied(t, col, row))
    || (t.tileNum(col, row) == t.enPassantTile && col == p.col - 1 && row == p.row - ci && Occupied(t, col, row + ci))
    || (t.tileNum(col, row) == t.enPassantTile && col == p.col + 1 && row == p.row - ci && Occupied(t, col, row + ci))
  }

  /** The one-row forward step of a pawn. */
  function Forward(p: Piece): int {
    if p.isWhite then -1 else 1
  }

  /** A pawn only ever moves forward: one row, or two rows straight from its start row. */
  lemma PawnMovesForward(t: Tiles, p: Piece, col: int, row: int)
    requires PawnValid(t, p, col, row)
    ensures (row == p.row + Forward(p) && Abs(col - p.col) <= 1)
      || (col == p.col && row == p.row + 2 * Forward(p) && p.row == PawnStartRow(p.isWhite))
  {
  }

  /** One step straight ahead is allowed exactly onto an empty square. */
  lemma PawnPush(t: Tiles, p: Piece)
    ensures PawnValid(t, p, p.col, p.row + Forward(p)) <==> !Occupied(t, p.col, p.row + Forward(p))
  {
  }

  /** Two steps straight ahead are allowed exactly from the start row with both squares empty. */
  lemma PawnDoublePush(t: Tiles, p: Piece)
    ensures PawnValid(t, p, p.col, p.row + 2 * Forward(p)) <==>
      p.row == PawnStartRow(p.isWhite) && !Occupied(t, p.col, p.row + 2 * Forward(p))
      && !Occupied(t, p.col, p.row + Forward(p))
  {
  }

  /** One step diagonally forward is allowed exactly onto an occupied square, or onto the
      en-passant tile when the square beside the pawn, which the captured pawn would stand on,
      is occupied. */
  lemma PawnDiagonal(t: Tiles, p: Piece, dc: int)
    requires dc == 1 || dc == -1
    ensures var col, row := p.col + dc, p.row + Forward(p);
      PawnValid(t, p, col, row) <==>
        Occupied(t, col, row) || (t.tileNum(col, row) == t.enPassantTile && Occupied(t, col, p.row))
  {
  }

  // ---------------------------------------------------------------------------------------------
  // King

  /** The first two operands of King.isValidMovement. */
  predicate KingStep(p: Piece, col: int, row: int) {
    Abs((p.col - col) * (p.row - row)) == 1 || Abs(col - p.col) + Abs(row - p.row) == 1
  }

  /** King.canCastle: along the king's own row only, to column 6 past an unmoved piece on column
      7, or to column 2 past an unmoved piece on column 0, over empty squares, with the king not
      in check on the square it crosses. */
  predicate CanCastle(t: Tiles, p: Piece, col: int, row: int) {
    p.row == row &&
    if col == 6 then
      && (7, row) in t.pieces && t.pieces[(7, row)].isFirstMove && p.isFirstMove
      && !Occupied(t, 5, row) && !Occupied(t, 6, row) && !t.kingChecked(5, row)
    else if col == 2 then
      && (0, row) in t.pieces && t.pieces[(0, row)].isFirstMove && p.isFirstMove
      && !Occupied(t, 3, row) && !Occupied(t, 2, row) && !Occupied(t, 1, row) && !t.kingChecked(3, row)
    else
      false
  }

  /** King.isValidMovement. */
  predicate KingValid(t: Tiles, p: Piece, col: int, row: int) {
    KingStep(p, col, row) || CanCastle(t, p, col, row)
  }

  lemma AbsProduct(a: int, b: int)
    ensures Abs(a * b) == Abs(a) * Abs(b)
  {
    if a < 0 && b < 0 {
      assert a * b == (-a) * (-b);
    } else if a < 0 {
      assert -(a * b) == (-a) * b;
    } else if b < 0 {
      assert -(a * b) == a * (-b);
    }
  }

  lemma ProductOne(x: nat, y: nat)
    ensures x * y == 1 <==> x == 1 && y == 1
  {
    if x == 0 || y == 0 {
      assert x * y == 0;
    } else if x >= 2 {
      assert x * y >= 2 * y;
    } else if y >= 2 {
      assert x * y >= x * 2;
    }
  }

  /** The two tests accept exactly the eight neighbouring squares. */
  lemma KingStepMeaning(p: Piece, col: int, row: int)
    ensures KingStep(p, col, row) <==>
      Abs(col - p.col) <= 1 && Abs(row - p.row) <= 1 && (col, row) != (p.col, p.row)
  {
    AbsProduct(p.col - col, p.row - row);
    ProductOne(Abs(p.col - col), Abs(p.row - row));
  }

  /** A king moves to a neighbouring square or castles two columns along its row onto column 2
      or 6, having not moved, past an unmoved corner piece. */
  lemma KingMoves(t: Tiles, p: Piece, col: int, row: int)
    requires KingValid(t, p, col, row)
    ensures (Abs(col - p.col) <= 1 && Abs(row - p.row) <= 1 && (col, row) != (p.col, p.row))
      || (row == p.row && (col == 2 || col == 6) && p.isFirstMove
          && !Occupied(t, col, row) && !t.kingChecked(if col == 6 then 5 else 3, row))
  {
    KingStepMeaning(p, col, row);
  }
}
