/** The Java generation's Move: four board coordinates, fixed at construction.  The constructor
    refuses any coordinate outside 0..7 by throwing BoardSquareOutOfBoundsException, so every move
    that exists has all four coordinates on the board. */
module JavaMoves {
  /** A value or its absence; also the outcome of a Java call that may throw. */
  datatype Option<T> = None | Some(value: T)

  /** A coordinate of the 8x8 board. */
  predicate InRange(x: int) {
    0 <= x <= 7
  }

  /** The four final fields; the getters are the destructors. */
  datatype MoveFields = MoveFields(fromCol: int, fromRow: int, toCol: int, toRow: int)

  /** The class invariant: every constructed move lies on the board. */
  predicate OnBoard(m: MoveFields) {
    InRange(m.fromCol) && InRange(m.fromRow) && InRange(m.toCol) && InRange(m.toRow)
  }

  /** A Move as the rest of the Java generation sees it: one the constructor accepted. */
  type Move = m: MoveFields | OnBoard(m) witness MoveFields(0, 0, 0, 0)

  /** The outcome of `new Move(...)`: the move, or the exception. */
  datatype Construction = Built(move: Move) | SquareOutOfBounds

  /** Move(fromCol, fromRow, toCol, toRow): the constructor succeeds exactly when all four
      coordinates are in 0..7, and then each getter returns its argument. */
  function NewMove(fromCol: int, fromRow: int, toCol: int, toRow: int): (r: Construction)
    ensures r.Built? <==> InRange(fromCol) && InRange(fromRow) && InRange(toCol) && InRange(toRow)
    ensures r.Built? ==> r.move.fromCol == fromCol && r.move.fromRow == fromRow
                         && r.move.toCol == toCol && r.move.toRow == toRow
  {
    if fromCol < 0 || fromCol > 7 || fromRow < 0 || fromRow > 7
       || toCol < 0 || toCol > 7 || toRow < 0 || toRow > 7
    then SquareOutOfBounds
    else Built(MoveFields(fromCol, fromRow, toCol, toRow))
  }

  /** Reading a move's four getters and constructing again gives the same move: the
      constructor loses nothing and accepts every move it can produce. */
  lemma RebuildMove(m: Move)
    ensures NewMove(m.fromCol, m.fromRow, m.toCol, m.toRow) == Built(m)
  {
  }

  /** One coordinate off the board is enough for the constructor to throw, whatever the other
      three are. */
  lemma OneBadCoordinate(fromCol: int, fromRow: int, toCol: int, toRow: int)
    requires !InRange(fromCol) || !InRange(fromRow) || !InRange(toCol) || !InRange(toRow)
    ensures NewMove(fromCol, fromRow, toCol, toRow) == SquareOutOfBounds
  {
  }
}
