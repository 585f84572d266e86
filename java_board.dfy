/** The Java generation's Board: an 8x8 array of piece codes indexed [col][row], the name, the
    side to move, the two castling strings and the en-passant column.  Each method is proved
    against the rules in JavaRules on the board's value State(). */
module JavaBoards {
  import opened JavaMoves
  import opened JavaRules

  /** An 8x8 array of piece codes as a value: entry col * 8 + row is a[col][row]. */
  function GridOf(a: array2<int>): (g: Grid)
    reads a
    requires a.Length0 == 8 && a.Length1 == 8
    ensures forall c, r :: InRange(c) && InRange(r) ==> Cell(g, c, r) == a[c, r]
  {
    seq(64, k requires 0 <= k < 64 reads a => a[k / 8, k % 8])
  }

  class Board {
    var position: array2<int>
    var name: string
    var isWhitesTurn: bool
    var canWhiteCastle: string
    var canBlackCastle: string
    var enPassantCol: int

    ghost predicate Valid()
      reads this`position
    {
      position.Length0 == 8 && position.Length1 == 8
    }

    /** The position as a value: entry col * 8 + row is position[col][row]. */
    function Cells(): (g: Grid)
      reads this`position, position
      requires Valid()
      ensures forall c, r :: InRange(c) && InRange(r) ==> Cell(g, c, r) == position[c, r]
    {
      GridOf(position)
    }

    function State(): BoardState
      reads this`position, position, this`isWhitesTurn, this`canWhiteCastle, this`canBlackCastle, this`enPassantCol
      requires Valid()
    {
      BoardState(Cells(), isWhitesTurn, canWhiteCastle, canBlackCastle, enPassantCol)
    }

    /** Board(): the new board named "New Board". */
    constructor ()
      ensures Valid() && fresh(position)
      ensures State() == NewBoardState() && name == "New Board"
    {
      position := new int[0, 0];
      name := "New Board";
      isWhitesTurn := true;
      canWhiteCastle := "RKR";
      canBlackCastle := "RKR";
      enPassantCol := -1;
      new;
      CreateNewBoard();
    }

    /** Board(name): the new board with the given name. */
    constructor Named(name: string)
      ensures Valid() && fresh(position)
      ensures State() == NewBoardState() && this.name == name
    {
      position := new int[0, 0];
      this.name := name;
      isWhitesTurn := true;
      canWhiteCastle := "RKR";
      canBlackCastle := "RKR";
      enPassantCol := -1;
      new;
      CreateNewBoard();
    }

    /** createNewBoard: a fresh zeroed array filled square by square. */
    method CreateNewBoard()
      modifies this`position
      ensures Valid() && fresh(position)
      ensures Cells() == StartGrid()
    {
      position := new int[8, 8]((_, _) => 0);
      var i := 0;
      while i < 8
        invariant 0 <= i <= 8 && Valid() && fresh(position)
        invariant forall c, r :: 0 <= c < i && 0 <= r < 8 ==> position[c, r] == StartCell(c, r)
      {
        var j := 0;
        while j < 8
          invariant 0 <= j <= 8 && Valid() && fresh(position)
          invariant forall c, r :: 0 <= c < 8 && 0 <= r < 8 && (c < i || (c == i && r < j))
                      ==> position[c, r] == StartCell(c, r)
        {
          var color := 0;
          if 2 <= j && j <= 5 {
            position[i, j] := NoneCode;
          } else if j < 2 {
            color := WhiteSign;
          } else {
            color := BlackSign;
          }
          AssignPieceToSquare(i, j, color);
          j := j + 1;
        }
        i := i + 1;
      }
      forall c, r | InRange(c) && InRange(r)
        ensures Cell(Cells(), c, r) == Cell(StartGrid(), c, r)
      {
        assert (c * 8 + r) / 8 == c && (c * 8 + r) % 8 == r;
      }
      GridsEqual(Cells(), StartGrid());
    }

    /** assignPieceToSquare. */
    method AssignPieceToSquare(i: int, j: int, color: int)
      requires Valid() && InRange(i) && InRange(j)
      modifies position
      ensures position[i, j] == AssignedPiece(i, j, color)
      ensures forall c, r :: 0 <= c < 8 && 0 <= r < 8 && (c != i || r != j) ==> position[c, r] == old(position[c, r])
    {
      if j == 1 || j == 6 {
        position[i, j] := PawnCode * color;
      } else {
        var piece := i % 7;
        if piece == 0 {
          position[i, j] := RookCode * color;
        } else if piece == 1 || piece == 6 {
          position[i, j] := KnightCode * color;
        } else if piece == 2 || piece == 5 {
          position[i, j] := BishopCode * color;
        } else if piece == 3 {
          position[i, j] := QueenCode * color;
        } else {
          position[i, j] := KingCode * color;
        }
      }
    }

    /** placePiece: one square written, every other square kept. */
    method PlacePiece(col: int, row: int, piece: int)
      requires Valid() && InRange(col) && InRange(row)
      modifies position
      ensures Cells() == Put(old(Cells()), col, row, piece)
    {
      ghost var g := Cells();
      position[col, row] := piece;
      forall c, r | InRange(c) && InRange(r)
        ensures Cell(Cells(), c, r) == Cell(Put(g, col, row, piece), c, r)
      {
        CellPut(g, col, row, piece, c, r);
      }
      GridsEqual(Cells(), Put(g, col, row, piece));
    }

    /** makeMove: the move is made exactly when isLegalMove accepts it. */
    method MakeMove(m: Move)
      requires Valid()
      modifies this, position
      ensures Valid() && position == old(position) && name == old(name)
      ensures State() == MadeMove(old(State()), m)
    {
      var fromCol := m.fromCol;
      var fromRow := m.fromRow;
      var toRow := m.toRow;
      var piece := position[fromCol, fromRow];
      var legal := IsLegalMove(m);
      if legal {
        ghost var s := State();
        MovePiece(piece, m);
        NextTurn();
        UpdateCastling(fromCol, fromRow, piece);
        enPassantCol := UpdateEnPassantCol(piece, fromCol, fromRow, toRow);
        assert State() == MadeMove(s, m);
      }
    }

    /** isLegalMove. */
    method IsLegalMove(m: Move) returns (legal: bool)
      requires Valid()
      ensures legal == LegalMove(State(), m)
    {
      var piece := position[m.fromCol, m.fromRow];
      var rightTurnToMove := (piece > 0 && isWhitesTurn) || (piece < 0 && !isWhitesTurn);
      var hasPieceMoved := m.fromCol != m.toCol || m.fromRow != m.toRow;
      var toEnemyOrEmptySquare := piece * position[m.toCol, m.toRow] <= 0;
      var isValidMoveForPiece := false;
      if piece == -PawnCode || piece == PawnCode {
        isValidMoveForPiece := PawnRule(State(), m);
      } else if piece == -KnightCode || piece == KnightCode {
        isValidMoveForPiece := KnightRule(m);
      } else if piece == -BishopCode || piece == BishopCode {
        isValidMoveForPiece := IsLegalBishopMove(m);
      } else if piece == -RookCode || piece == RookCode {
        isValidMoveForPiece := IsLegalRookMove(m);
      } else if piece == -QueenCode || piece == QueenCode {
        isValidMoveForPiece := IsLegalQueenMove(m);
      } else if piece == -KingCode || piece == KingCode {
        isValidMoveForPiece := KingRule(State(), m);
      }
      legal := rightTurnToMove && hasPieceMoved && toEnemyOrEmptySquare && isValidMoveForPiece;
    }

    /** movePiece: the en-passant capture first, then the two squares of the move. */
    method MovePiece(piece: int, m: Move)
      requires Valid()
      modifies position
      ensures Cells() == Moved(old(State()), m, piece)
    {
      EnPassantCaptures(m);
      PlacePiece(m.fromCol, m.fromRow, NoneCode);
      PlacePiece(m.toCol, m.toRow, piece);
    }

    /** enPassantCaptures. */
    method EnPassantCaptures(m: Move)
      requires Valid()
      modifies position
      ensures Cells() == EnPassantCaptured(old(State()), m)
    {
      if PawnRule(State(), m) {
        var pawn := position[m.fromCol, m.fromRow];
        var enPassantRow := if pawn > 0 then 4 else 3;
        var enPassant := enPassantCol == m.toCol && enPassantRow == m.fromRow;
        if enPassant {
          PlacePiece(enPassantCol, enPassantRow, NoneCode);
        }
      }
    }

    /** updateEnPassantCol: stores the column it returns. */
    method UpdateEnPassantCol(piece: int, col: int, fromRow: int, toRow: int) returns (r: int)
      modifies this`enPassantCol
      ensures r == enPassantCol == EnPassantColAfter(piece, col, fromRow, toRow)
    {
      enPassantCol := -1;
      var pawn := Abs(piece);
      if pawn == 1 {
        if fromRow + 2 * piece == toRow {
          enPassantCol := col;
        }
      }
      r := enPassantCol;
    }

    /** isLegalBishopMove; the path is scanned only for a diagonal move, where the scan stays on
        the board. */
    method IsLegalBishopMove(m: Move) returns (legal: bool)
      requires Valid()
      ensures legal == BishopRule(Cells(), m)
    {
      var goodBishopMove := Abs(m.fromCol - m.toCol) == Abs(m.fromRow - m.toRow);
      var colDir := Signum(m.toCol - m.fromCol);
      var rowDir := Signum(m.toRow - m.fromRow);
      var throughEmptySquares := false;
      if goodBishopMove {
        throughEmptySquares := IsBishopPathEmpty(m.fromCol, m.fromRow, m.toCol, colDir, rowDir, m.toRow);
      }
      legal := goodBishopMove && throughEmptySquares;
    }

    /** isBishopPathEmpty, for a diagonal path ending on (toCol, toRow). */
    method IsBishopPathEmpty(fromCol: int, fromRow: int, toCol: int, colDir: int, rowDir: int, ghost toRow: int)
      returns (empty: bool)
      requires Valid() && InRange(fromCol) && InRange(fromRow) && InRange(toCol) && InRange(toRow)
      requires Abs(fromCol - toCol) == Abs(fromRow - toRow)
      requires colDir == Signum(toCol - fromCol) && rowDir == Signum(toRow - fromRow)
      ensures empty == LineClear(Cells(), fromCol, fromRow, colDir, rowDir, Abs(toCol - fromCol))
    {
      ghost var g := Cells();
      ghost var n := Abs(toCol - fromCol);
      ghost var k: int := 1;
      empty := true;
      var col, row := fromCol + colDir, fromRow + rowDir;
      if n > 0 {
        WalkTowards(fromCol, toCol, 0);
        WalkTowards(fromRow, toRow, 0);
      }
      while col != toCol
        invariant (n == 0 && col == toCol) || 1 <= k <= n
        invariant col == Walk(fromCol, colDir, k) && row == Walk(fromRow, rowDir, k)
        invariant empty && LineClear(g, fromCol, fromRow, colDir, rowDir, k)
        decreases n - k
      {
        WalkTowards(fromCol, toCol, k);
        WalkTowards(fromRow, toRow, k);
        assert Cell(g, col, row) == position[col, row];
        if position[col, row] != NoneCode {
          LineBlocked(g, fromCol, fromRow, colDir, rowDir, k, n);
          empty := false;
          break;
        }
        LineClearStep(g, fromCol, fromRow, colDir, rowDir, k);
        col, row, k := col + colDir, row + rowDir, k + 1;
      }
      if empty && n > 0 {
        WalkTowards(fromCol, toCol, k);
      }
    }

    /** isLegalRookMove. */
    method IsLegalRookMove(m: Move) returns (legal: bool)
      requires Valid()
      ensures legal == RookRule(Cells(), m)
    {
      var goodRookMove := m.fromCol == m.toCol || m.fromRow == m.toRow;
      var colDir := Signum(m.toCol - m.fromCol);
      var rowDir := Signum(m.toRow - m.fromRow);
      var throughEmptySquares := IsRookPathEmpty(m.fromCol, m.fromRow, m.toCol, m.toRow, colDir, rowDir);
      legal := goodRookMove && throughEmptySquares;
    }

    /** isRookPathEmpty. */
    method IsRookPathEmpty(fromCol: int, fromRow: int, toCol: int, toRow: int, colDir: int, rowDir: int)
      returns (empty: bool)
      requires Valid() && InRange(fromCol) && InRange(fromRow) && InRange(toCol) && InRange(toRow)
      requires colDir == Signum(toCol - fromCol) && rowDir == Signum(toRow - fromRow)
      ensures empty == RookPathEmpty(Cells(), MoveFields(fromCol, fromRow, toCol, toRow))
    {
      ghost var g := Cells();
      empty := true;
      if rowDir == 0 {
        ghost var n := Abs(toCol - fromCol);
        ghost var k: int := 1;
        var col := fromCol + colDir;
        if n > 0 {
          WalkTowards(fromCol, toCol, 0);
        }
        while col != toCol
          invariant (n == 0 && col == toCol) || 1 <= k <= n
          invariant col == Walk(fromCol, colDir, k)
          invariant empty && LineClear(g, fromCol, fromRow, colDir, 0, k)
          decreases n - k
        {
          WalkTowards(fromCol, toCol, k);
          assert Cell(g, col, fromRow) == position[col, fromRow];
          if position[col, fromRow] != NoneCode {
            LineBlocked(g, fromCol, fromRow, colDir, 0, k, n);
            empty := false;
            break;
          }
          LineClearStep(g, fromCol, fromRow, colDir, 0, k);
          col, k := col + colDir, k + 1;
        }
        if empty && n > 0 {
          WalkTowards(fromCol, toCol, k);
        }
      } else {
        ghost var n := Abs(toRow - fromRow);
        ghost var k: int := 1;
        var row := fromRow + rowDir;
        WalkTowards(fromRow, toRow, 0);
        while row != toRow
          invariant 1 <= k <= n
          invariant row == Walk(fromRow, rowDir, k)
          invariant empty && LineClear(g, fromCol, fromRow, 0, rowDir, k)
          decreases n - k
        {
          WalkTowards(fromRow, toRow, k);
          assert Cell(g, fromCol, row) == position[fromCol, row];
          if position[fromCol, row] != NoneCode {
            LineBlocked(g, fromCol, fromRow, 0, rowDir, k, n);
            empty := false;
            break;
          }
          LineClearStep(g, fromCol, fromRow, 0, rowDir, k);
          row, k := row + rowDir, k + 1;
        }
        if empty {
          WalkTowards(fromRow, toRow, k);
        }
      }
    }

    /** isLegalQueenMove: the bishop's rule, else the rook's. */
    method IsLegalQueenMove(m: Move) returns (legal: bool)
      requires Valid()
      ensures legal == QueenRule(Cells(), m)
    {
      legal := IsLegalBishopMove(m);
      if !legal {
        legal := IsLegalRookMove(m);
      }
    }

    /** nextTurn. */
    method NextTurn()
      modifies this`isWhitesTurn
      ensures isWhitesTurn == !old(isWhitesTurn)
    {
      isWhitesTurn := !isWhitesTurn;
    }

    /** updateCastling: the mover's colour by the sign of its code (0 counts as Black). */
    method UpdateCastling(col: int, row: int, piece: int)
      modifies this`canWhiteCastle, this`canBlackCastle
      ensures canWhiteCastle == if piece > 0 then WhiteCastlingAfter(old(canWhiteCastle), col, row, piece) else old(canWhiteCastle)
      ensures canBlackCastle == if piece > 0 then old(canBlackCastle) else BlackCastlingAfter(old(canBlackCastle), col, row, piece)
    {
      if piece > 0 {
        UpdateWhiteCastling(col, row, piece);
      } else {
        UpdateBlackCastling(col, row, piece);
      }
    }

    /** updateWhiteCastling. */
    method UpdateWhiteCastling(col: int, row: int, piece: int)
      modifies this`canWhiteCastle
      ensures canWhiteCastle == WhiteCastlingAfter(old(canWhiteCastle), col, row, piece)
    {
      if piece == 6 {
        canWhiteCastle := "";
      } else if piece == 4 {
        if col == 0 && row == 0 {
          if canWhiteCastle == "RKR" {
            canWhiteCastle := "KR";
          } else if canWhiteCastle == "RK" {
            canWhiteCastle := "";
          }
        } else if col == 7 && row == 0 {
          if canWhiteCastle == "RKR" {
            canWhiteCastle := "RK";
          } else if canWhiteCastle == "KR" {
            canWhiteCastle := "";
          }
        }
      }
    }

    /** updateBlackCastling. */
    method UpdateBlackCastling(col: int, row: int, piece: int)
      modifies this`canBlackCastle
      ensures canBlackCastle == BlackCastlingAfter(old(canBlackCastle), col, row, piece)
    {
      if piece == -6 {
        canBlackCastle := "";
      } else if piece == -4 {
        if col == 0 && row == 7 {
          if canBlackCastle == "RKR" {
            canBlackCastle := "KR";
          } else if canBlackCastle == "RK" {
            canBlackCastle := "";
          }
        } else if col == 7 && row == 7 {
          if canBlackCastle == "RKR" {
            canBlackCastle := "RK";
          } else if canBlackCastle == "KR" {
            canBlackCastle := "";
          }
        }
      }
    }

    /** evaluatePos: pieceToVal summed over the 64 squares. */
    method EvaluatePos() returns (eval: int)
      requires Valid()
      ensures eval == Evaluation(Cells())
    {
      eval := 0;
      var i := 0;
      while i < 8
        invariant 0 <= i <= 8
        invariant eval == EvalPrefix(Cells(), i * 8)
      {
        var j := 0;
        while j < 8
          invariant 0 <= j <= 8
          invariant eval == EvalPrefix(Cells(), i * 8 + j)
        {
          assert Cell(Cells(), i, j) == position[i, j];
          eval := eval + PieceToVal(position[i, j]);
          j := j + 1;
        }
        i := i + 1;
      }
    }

    /** clearBoard: every square emptied. */
    method ClearBoard()
      requires Valid()
      modifies position
      ensures Cells() == EmptyGrid()
    {
      var i := 0;
      while i < 8
        invariant 0 <= i <= 8
        invariant forall c, r :: 0 <= c < i && 0 <= r < 8 ==> position[c, r] == NoneCode
      {
        var j := 0;
        while j < 8
          invariant 0 <= j <= 8
          invariant forall c, r :: 0 <= c < 8 && 0 <= r < 8 && (c < i || (c == i && r < j)) ==> position[c, r] == NoneCode
        {
          position[i, j] := 0;
          j := j + 1;
        }
        i := i + 1;
      }
      GridsEqual(Cells(), EmptyGrid());
    }

    /** isEmpty: true exactly when no square holds a piece (the break leaves only the inner
        loop, which does not change the answer). */
    method IsEmpty() returns (isEmpty: bool)
      requires Valid()
      ensures isEmpty <==> Cells() == EmptyGrid()
    {
      isEmpty := true;
      var i := 0;
      while i < 8
        invariant 0 <= i <= 8
        invariant isEmpty <==> forall c, r :: 0 <= c < i && 0 <= r < 8 ==> position[c, r] == NoneCode
      {
        var j := 0;
        while j < 8
          invariant 0 <= j <= 8
          invariant isEmpty <==> forall c, r :: 0 <= c < 8 && 0 <= r < 8 && (c < i || (c == i && r < j)) ==> position[c, r] == NoneCode
        {
          if position[i, j] != NoneCode {
            isEmpty := false;
            break;
          }
          j := j + 1;
        }
        i := i + 1;
      }
      if isEmpty {
        GridsEqual(Cells(), EmptyGrid());
      } else {
        assert Cells() != EmptyGrid() by {
          var c, r :| 0 <= c < 8 && 0 <= r < 8 && position[c, r] != NoneCode;
          assert Cell(Cells(), c, r) != Cell(EmptyGrid(), c, r);
        }
      }
    }

    /** positionToOneDArray: entry col * 8 + row of a fresh array is position[col][row]. */
    method PositionToOneDArray() returns (oneD: array<int>)
      requires Valid()
      ensures fresh(oneD) && oneD.Length == 64 && oneD[..] == Cells()
    {
      oneD := new int[64];
      var i := 0;
      while i < 8
        invariant 0 <= i <= 8
        invariant forall k :: 0 <= k < i * 8 ==> oneD[k] == Cells()[k]
      {
        var j := 0;
        while j < 8
          invariant 0 <= j <= 8
          invariant forall k :: 0 <= k < i * 8 + j ==> oneD[k] == Cells()[k]
        {
          assert Cell(Cells(), i, j) == position[i, j];
          oneD[i * 8 + j] := position[i, j];
          j := j + 1;
        }
        i := i + 1;
      }
    }

    /** samePosition: true exactly when the other array agrees on every square. */
    method SamePosition(otherPosition: array2<int>) returns (same: bool)
      requires Valid() && otherPosition.Length0 >= 8 && otherPosition.Length1 >= 8
      ensures same <==> forall c, r :: 0 <= c < 8 && 0 <= r < 8 ==> position[c, r] == otherPosition[c, r]
    {
      var i := 0;
      while i < 8
        invariant 0 <= i <= 8
        invariant forall c, r :: 0 <= c < i && 0 <= r < 8 ==> position[c, r] == otherPosition[c, r]
      {
        var j := 0;
        while j < 8
          invariant 0 <= j <= 8
          invariant forall c, r :: 0 <= c < 8 && 0 <= r < 8 && (c < i || (c == i && r < j)) ==> position[c, r] == otherPosition[c, r]
        {
          if position[i, j] != otherPosition[i, j] {
            return false;
          }
          j := j + 1;
        }
        i := i + 1;
      }
      return true;
    }

    /** boardToStringBoard: display row i, column j shows the piece on column j, row 7 - i, so
        row 7 (Black's back rank) comes first and column 0 on the left.  The three loops of the
        method are the three steps below. */
    method BoardToStringBoard() returns (straight: array2<string>)
      requires Valid()
      ensures fresh(straight) && straight.Length0 == 8 && straight.Length1 == 8
      ensures forall i, j :: 0 <= i < 8 && 0 <= j < 8 ==> straight[i, j] == PieceToString(position[j, 7 - i])
    {
      var stringBoard := PieceStrings();
      straight := Rotated(stringBoard);
      ReverseRows(straight);
    }

    /** The first loop: stringBoard[i][j] = pieceToString(position[i][j]). */
    method PieceStrings() returns (stringBoard: array2<string>)
      requires Valid()
      ensures fresh(stringBoard) && stringBoard.Length0 == 8 && stringBoard.Length1 == 8
      ensures forall c, r :: 0 <= c < 8 && 0 <= r < 8 ==> stringBoard[c, r] == PieceToString(position[c, r])
    {
      stringBoard := new string[8, 8];
      var i := 0;
      while i < 8
        invariant 0 <= i <= 8
        invariant forall c, r :: 0 <= c < i && 0 <= r < 8 ==> stringBoard[c, r] == PieceToString(position[c, r])
      {
        var j := 0;
        while j < 8
          invariant 0 <= j <= 8
          invariant forall c, r :: 0 <= c < 8 && 0 <= r < 8 && (c < i || (c == i && r < j)) ==> stringBoard[c, r] == PieceToString(position[c, r])
        {
          stringBoard[i, j] := PieceToString(position[i, j]);
          j := j + 1;
        }
        i := i + 1;
      }
    }

    /** setPosition: the board takes the given array itself. */
    method SetPosition(position: array2<int>)
      requires position.Length0 == 8 && position.Length1 == 8
      modifies this`position
      ensures Valid() && this.position == position
    {
      this.position := position;
    }
  }

  /** The second loop of boardToStringBoard: straight[7 - j][7 - i] = stringBoard[i][j]. */
  method Rotated(stringBoard: array2<string>) returns (straight: array2<string>)
    requires stringBoard.Length0 == 8 && stringBoard.Length1 == 8
    ensures fresh(straight) && straight.Length0 == 8 && straight.Length1 == 8
    ensures forall a, b :: 0 <= a < 8 && 0 <= b < 8 ==> straight[a, b] == stringBoard[7 - b, 7 - a]
  {
    straight := new string[8, 8];
    var i := 0;
    while i < 8
      invariant 0 <= i <= 8
      invariant forall a, b :: 0 <= a < 8 && 7 - i < b < 8 ==> straight[a, b] == stringBoard[7 - b, 7 - a]
    {
      var col := 7 - i;
      var j := 0;
      while j < 8
        invariant 0 <= j <= 8
        invariant forall a, b :: 0 <= a < 8 && 7 - i < b < 8 ==> straight[a, b] == stringBoard[7 - b, 7 - a]
        invariant forall a :: 7 - j < a < 8 ==> straight[a, col] == stringBoard[i, 7 - a]
      {
        straight[7 - j, col] := stringBoard[i, j];
        j := j + 1;
      }
      i := i + 1;
    }
  }

  /** The third loop of boardToStringBoard: each row reversed in place by swapping its ends. */
  method ReverseRows(straight: array2<string>)
    requires straight.Length0 == 8 && straight.Length1 == 8
    modifies straight
    ensures forall a, b :: 0 <= a < 8 && 0 <= b < 8 ==> straight[a, b] == old(straight[a, 7 - b])
  {
    var i := 0;
    while i < 8
      invariant 0 <= i <= 8
      invariant forall a, b :: 0 <= a < i && 0 <= b < 8 ==> straight[a, b] == old(straight[a, 7 - b])
      invariant forall a, b :: i <= a < 8 && 0 <= b < 8 ==> straight[a, b] == old(straight[a, b])
    {
      var j := 0;
      while j < 4
        invariant 0 <= j <= 4
        invariant forall a, b :: 0 <= a < i && 0 <= b < 8 ==> straight[a, b] == old(straight[a, 7 - b])
        invariant forall a, b :: i < a < 8 && 0 <= b < 8 ==> straight[a, b] == old(straight[a, b])
        invariant forall b :: 0 <= b < 8 && (b < j || 7 - j < b) ==> straight[i, b] == old(straight[i, 7 - b])
        invariant forall b :: j <= b <= 7 - j ==> straight[i, b] == old(straight[i, b])
      {
        var stick := straight[i, j];
        straight[i, j] := straight[i, 7 - j];
        straight[i, 7 - j] := stick;
        j := j + 1;
      }
      i := i + 1;
    }
  }
}
