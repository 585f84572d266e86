/** The Java generation's CheckScanner: it reads the board's position array (the same array,
    not a copy), the side to move and that side's king square, and its attack scans record the
    first checking piece and any double check in four fields.  Each method is proved against the
    functions of JavaScanRules on the position's value. */
module JavaScanners {
  import opened JavaMoves
  import opened JavaRules
  import opened JavaScanRules
  import opened JavaBoards

  class CheckScanner {
    var board: Board
    var position: array2<int>
    var isWhitesTurn: bool
    var kingColor: int
    var kingCol: int
    var kingRow: int
    var checkingPieceCol: int
    var checkingPieceRow: int
    var checkingPieceVal: int
    var isDoubleCheck: bool

    ghost predicate Valid()
      reads this`position
    {
      position.Length0 == 8 && position.Length1 == 8
    }

    /** The position as a value. */
    function Cells(): Grid
      reads this`position, position
      requires Valid()
    {
      GridOf(position)
    }

    /** The four fields setCheckingPiece writes. */
    function Checks(): Checking
      reads this`checkingPieceCol, this`checkingPieceRow, this`checkingPieceVal, this`isDoubleCheck
    {
      Checking(checkingPieceCol, checkingPieceRow, checkingPieceVal, isDoubleCheck)
    }

    /** CheckScanner(b): the scanner of the board, freshly updated. */
    constructor (b: Board)
      requires b.Valid()
      ensures board == b && Valid() && position == b.position
      ensures isWhitesTurn == b.isWhitesTurn && kingColor == (if b.isWhitesTurn then WhiteSign else BlackSign)
      ensures kingCol == KingCol(Cells(), kingColor) && kingRow == KingRow(Cells(), kingColor)
      ensures Checks() == Reset()
    {
      board := b;
      position := b.position;
      new;
      Update();
    }

    /** update: takes the board's array and turn, the king of the side to move, and clears the
        checking piece and the double check. */
    method Update()
      requires board.Valid()
      modifies this`position, this`isWhitesTurn, this`kingColor, this`kingCol, this`kingRow
      modifies this`checkingPieceCol, this`checkingPieceRow, this`checkingPieceVal, this`isDoubleCheck
      ensures Valid() && position == board.position
      ensures isWhitesTurn == board.isWhitesTurn && kingColor == (if isWhitesTurn then WhiteSign else BlackSign)
      ensures kingCol == KingCol(Cells(), kingColor) && kingRow == KingRow(Cells(), kingColor)
      ensures Checks() == Reset()
    {
      position := board.position;
      isWhitesTurn := board.isWhitesTurn;
      kingColor := if isWhitesTurn then WhiteSign else BlackSign;
      ClearChecks();
      FindKings();
    }

    /** The king's square, by findKingCol and findKingRow. */
    method FindKings()
      requires Valid()
      modifies this`kingCol, this`kingRow
      ensures kingCol == KingCol(Cells(), kingColor) && kingRow == KingRow(Cells(), kingColor)
    {
      kingCol := FindKingCol(kingColor);
      kingRow := FindKingRow(kingColor);
    }

    /** The last four assignments of update; they touch none of the fields FindKings reads or
        writes, so the order of the two steps does not matter. */
    method ClearChecks()
      modifies this`checkingPieceCol, this`checkingPieceRow, this`checkingPieceVal, this`isDoubleCheck
      ensures Checks() == Reset()
    {
      checkingPieceCol := -1;
      checkingPieceRow := -1;
      checkingPieceVal := -1;
      isDoubleCheck := false;
    }

    /** isCheckMated: isChecked() && noLegalMoves(); the second operand, not part of this model,
        is the parameter and is consulted only when the king is in check. */
    method IsCheckMated(noLegalMoves: bool) returns (mated: bool)
      requires Valid() && InRange(kingCol) && InRange(kingRow)
      modifies this`checkingPieceCol, this`checkingPieceRow, this`checkingPieceVal, this`isDoubleCheck
      ensures mated <==> SquareAttacked(Cells(), kingCol, kingRow, kingColor) && noLegalMoves
      ensures Checks() == RecordAll(old(Checks()), Hits(Cells(), kingCol, kingRow, kingColor))
    {
      mated := IsChecked();
      mated := mated && noLegalMoves;
    }

    /** isChecked: isInCheck on the king's square. */
    method IsChecked() returns (checked: bool)
      requires Valid() && InRange(kingCol) && InRange(kingRow)
      modifies this`checkingPieceCol, this`checkingPieceRow, this`checkingPieceVal, this`isDoubleCheck
      ensures checked <==> SquareAttacked(Cells(), kingCol, kingRow, kingColor)
      ensures Checks() == RecordAll(old(Checks()), Hits(Cells(), kingCol, kingRow, kingColor))
    {
      checked := IsInCheck(kingCol, kingRow, kingColor);
      InCheckMeaning(Cells(), kingCol, kingRow, kingColor);
    }

    /** findKingCol: the column of the first square, column by column, holding the king. */
    method FindKingCol(color: int) returns (col: int)
      requires Valid()
      ensures col == KingCol(Cells(), color)
    {
      var k := FindKing(color);
      col := if k == -1 then -1 else k / 8;
    }

    /** findKingRow: the row of that square. */
    method FindKingRow(color: int) returns (row: int)
      requires Valid()
      ensures row == KingRow(Cells(), color)
    {
      var k := FindKing(color);
      row := if k == -1 then -1 else k % 8;
    }

    /** The double loop findKingCol and findKingRow share, returning i * 8 + j where they return i
        and j. */
    method FindKing(color: int) returns (k: int)
      requires Valid()
      ensures k == KingIndex(Cells(), color, 0)
    {
      ghost var g := Cells();
      var i := 0;
      while i < 8
        invariant 0 <= i <= 8
        invariant KingIndex(g, color, 0) == KingIndex(g, color, i * 8)
      {
        var j := 0;
        while j < 8
          invariant 0 <= j <= 8
          invariant KingIndex(g, color, 0) == KingIndex(g, color, i * 8 + j)
        {
          assert g[i * 8 + j] == position[i, j];
          if position[i, j] == KingCode * color {
            return i * 8 + j;
          }
          j := j + 1;
        }
        i := i + 1;
      }
      return -1;
    }

    /** isInCheck: the rook, bishop, knight and pawn scans, all four run. */
    method IsInCheck(col: int, row: int, color: int) returns (inCheck: bool)
      requires Valid() && InRange(col) && InRange(row)
      modifies this`checkingPieceCol, this`checkingPieceRow, this`checkingPieceVal, this`isDoubleCheck
      ensures inCheck <==> |Hits(Cells(), col, row, color)| > 0
      ensures Checks() == RecordAll(old(Checks()), Hits(Cells(), col, row, color))
    {
      ghost var g := Cells();
      ghost var c0 := Checks();
      var rook := IsAttackedByRook(col, row, color);
      ghost var c1 := Checks();
      var bishop := IsAttackedByBishop(col, row, color);
      ghost var c2 := Checks();
      var knight := IsAttackedByKnight(col, row, color);
      ghost var c3 := Checks();
      var pawn := IsAttackedByPawn(col, row, color);
      inCheck := rook || bishop || knight || pawn;
      var s1 := OptSeq(RookHit(g, col, row, color));
      var s2 := OptSeq(BishopHit(g, col, row, color));
      var s3 := OptSeq(KnightHit(g, col, row, color));
      var s4 := PawnHits(g, col, row, color);
      RecordAllAppend(c0, s1, s2);
      RecordAllAppend(c0, s1 + s2, s3);
      RecordAllAppend(c0, s1 + s2 + s3, s4);
    }

    /** isAttackedByPawn. */
    method IsAttackedByPawn(col: int, row: int, color: int) returns (attacked: bool)
      requires Valid() && InRange(col) && InRange(row)
      modifies this`checkingPieceCol, this`checkingPieceRow, this`checkingPieceVal, this`isDoubleCheck
      ensures attacked <==> |PawnHits(Cells(), col, row, color)| > 0
      ensures Checks() == RecordAll(old(Checks()), PawnHits(Cells(), col, row, color))
    {
      ghost var g := Cells();
      ghost var c0 := Checks();
      var plusCol := false;
      var minusCol := false;
      if row + color < 0 || row + color > 7 {
        return false;
      }
      if col - 1 >= 0 {
        minusCol := position[col - 1, row + color] == color * -PawnCode;
        if minusCol {
          SetCheckingPiece(col - 1, row + color, PawnCode);
        }
      }
      ghost var c1 := Checks();
      ghost var left := if minusCol then [Hit(col - 1, row + color, PawnCode)] else [];
      assert c1 == RecordAll(c0, left);
      if col + 1 <= 7 {
        plusCol := position[col + 1, row + color] == color * -PawnCode;
        if plusCol {
          SetCheckingPiece(col + 1, row + color, PawnCode);
        }
      }
      ghost var right := if plusCol then [Hit(col + 1, row + color, PawnCode)] else [];
      assert Checks() == RecordAll(c1, right);
      RecordAllAppend(c0, left, right);
      assert PawnHits(g, col, row, color) == left + right;
      attacked := minusCol || plusCol;
    }

    /** isAttackedByKnight: the offsets with colDel * rowDel == 2 or -2, in the loops' order; an
        off-board offset is skipped (the source catches the IndexOutOfBoundsException). */
    method IsAttackedByKnight(col: int, row: int, color: int) returns (attacked: bool)
      requires Valid()
      modifies this`checkingPieceCol, this`checkingPieceRow, this`checkingPieceVal, this`isDoubleCheck
      ensures attacked <==> KnightHit(Cells(), col, row, color).Some?
      ensures Checks() == RecordAll(old(Checks()), OptSeq(KnightHit(Cells(), col, row, color)))
    {
      ghost var g := Cells();
      var colDel := -2;
      while colDel <= 2
        invariant -2 <= colDel <= 3
        invariant KnightScan(g, col, row, color, -2, -2) == KnightScan(g, col, row, color, colDel, -2)
        invariant Checks() == old(Checks())
      {
        var rowDel := -2;
        while rowDel <= 2
          invariant -2 <= rowDel <= 3
          invariant KnightScan(g, col, row, color, -2, -2) == KnightScan(g, col, row, color, colDel, rowDel)
          invariant Checks() == old(Checks())
        {
          if colDel * rowDel == 2 || colDel * rowDel == -2 {
            if 0 <= col + colDel <= 7 && 0 <= row + rowDel <= 7 {
              assert g[(col + colDel) * 8 + row + rowDel] == position[col + colDel, row + rowDel];
              if position[col + colDel, row + rowDel] == KnightCode * color * -1 {
                SetCheckingPiece(col + colDel, row + rowDel, KnightCode);
                return true;
              }
            }
          }
          rowDel := rowDel + 1;
        }
        colDel := colDel + 1;
      }
      return false;
    }

    /** isAttackedByRook: the scan along the row first, along the column only if that found
        nothing. */
    method IsAttackedByRook(col: int, row: int, color: int) returns (attacked: bool)
      requires Valid() && InRange(col) && InRange(row)
      modifies this`checkingPieceCol, this`checkingPieceRow, this`checkingPieceVal, this`isDoubleCheck
      ensures attacked <==> RookHit(Cells(), col, row, color).Some?
      ensures Checks() == RecordAll(old(Checks()), OptSeq(RookHit(Cells(), col, row, color)))
    {
      attacked := IsAttackedByRookCol(col, row, color);
      if !attacked {
        attacked := IsAttackedByRookRow(col, row, color);
      }
    }

    /** isAttackedByRookCol: the two loops over the column delta. */
    method IsAttackedByRookCol(col: int, row: int, color: int) returns (attacked: bool)
      requires Valid() && InRange(col) && InRange(row)
      modifies this`checkingPieceCol, this`checkingPieceRow, this`checkingPieceVal, this`isDoubleCheck
      ensures attacked <==> RookColHit(Cells(), col, row, color).Some?
      ensures Checks() == RecordAll(old(Checks()), OptSeq(RookColHit(Cells(), col, row, color)))
    {
      attacked := ScanRay(col, row, 1, 0, RookCode * color * -1, QueenCode * color * -1, RookCode);
      if !attacked {
        attacked := ScanRay(col, row, -1, 0, RookCode * color * -1, QueenCode * color * -1, RookCode);
      }
    }

    /** isAttackedByRookRow: the two loops over the row delta. */
    method IsAttackedByRookRow(col: int, row: int, color: int) returns (attacked: bool)
      requires Valid() && InRange(col) && InRange(row)
      modifies this`checkingPieceCol, this`checkingPieceRow, this`checkingPieceVal, this`isDoubleCheck
      ensures attacked <==> RookRowHit(Cells(), col, row, color).Some?
      ensures Checks() == RecordAll(old(Checks()), OptSeq(RookRowHit(Cells(), col, row, color)))
    {
      attacked := ScanRay(col, row, 0, 1, RookCode * color * -1, QueenCode * color * -1, RookCode);
      if !attacked {
        attacked := ScanRay(col, row, 0, -1, RookCode * color * -1, QueenCode * color * -1, RookCode);
      }
    }

    /** isAttackedByBishop: the up scan first, the down scan only if that found nothing. */
    method IsAttackedByBishop(col: int, row: int, color: int) returns (attacked: bool)
      requires Valid() && InRange(col) && InRange(row)
      modifies this`checkingPieceCol, this`checkingPieceRow, this`checkingPieceVal, this`isDoubleCheck
      ensures attacked <==> BishopHit(Cells(), col, row, color).Some?
      ensures Checks() == RecordAll(old(Checks()), OptSeq(BishopHit(Cells(), col, row, color)))
    {
      attacked := IsAttackedByBishopUp(col, row, color);
      if !attacked {
        attacked := IsAttackedByBishopDown(col, row, color);
      }
    }

    /** isAttackedByBishopUp: up-right, then down-left. */
    method IsAttackedByBishopUp(col: int, row: int, color: int) returns (attacked: bool)
      requires Valid() && InRange(col) && InRange(row)
      modifies this`checkingPieceCol, this`checkingPieceRow, this`checkingPieceVal, this`isDoubleCheck
      ensures attacked <==> BishopUpHit(Cells(), col, row, color).Some?
      ensures Checks() == RecordAll(old(Checks()), OptSeq(BishopUpHit(Cells(), col, row, color)))
    {
      attacked := ScanRay(col, row, 1, 1, BishopCode * color * -1, QueenCode * color * -1, BishopCode);
      if !attacked {
        attacked := ScanRay(col, row, -1, -1, BishopCode * color * -1, QueenCode * color * -1, BishopCode);
      }
    }

    /** isAttackedByBishopDown: up-left, then down-right. */
    method IsAttackedByBishopDown(col: int, row: int, color: int) returns (attacked: bool)
      requires Valid() && InRange(col) && InRange(row)
      modifies this`checkingPieceCol, this`checkingPieceRow, this`checkingPieceVal, this`isDoubleCheck
      ensures attacked <==> BishopDownHit(Cells(), col, row, color).Some?
      ensures Checks() == RecordAll(old(Checks()), OptSeq(BishopDownHit(Cells(), col, row, color)))
    {
      attacked := ScanRay(col, row, -1, 1, BishopCode * color * -1, QueenCode * color * -1, BishopCode);
      if !attacked {
        attacked := ScanRay(col, row, 1, -1, BishopCode * color * -1, QueenCode * color * -1, BishopCode);
      }
    }

    /** One loop of the sliding scans: step along (dc, dr) while on the board; a square holding
        code a or b is recorded as a `val` attacker and ends the scan, any other occupied square
        ends it with nothing found. */
    method ScanRay(col: int, row: int, dc: int, dr: int, a: int, b: int, val: int) returns (found: bool)
      requires Valid() && InRange(col) && InRange(row) && Direction(dc, dr)
      modifies this`checkingPieceCol, this`checkingPieceRow, this`checkingPieceVal, this`isDoubleCheck
      ensures found <==> Ray(Cells(), col, row, dc, dr, a, b, val).Some?
      ensures Checks() == RecordAll(old(Checks()), OptSeq(Ray(Cells(), col, row, dc, dr, a, b, val)))
    {
      ghost var g := Cells();
      var k := 1;
      while InRange(Walk(col, dc, k)) && InRange(Walk(row, dr, k))
        invariant 1 <= k <= 8
        invariant Ray(g, col, row, dc, dr, a, b, val) == RayFrom(g, col, row, dc, dr, a, b, val, k)
        invariant Checks() == old(Checks())
        decreases 8 - k
      {
        var c := Walk(col, dc, k);
        var r := Walk(row, dr, k);
        assert g[c * 8 + r] == position[c, r];
        if position[c, r] == a || position[c, r] == b {
          SetCheckingPiece(c, r, val);
          return true;
        } else if position[c, r] != NoneCode {
          return false;
        }
        k := k + 1;
      }
      return false;
    }

    /** setCheckingPiece. */
    method SetCheckingPiece(col: int, row: int, piece: int)
      modifies this`checkingPieceCol, this`checkingPieceRow, this`checkingPieceVal, this`isDoubleCheck
      ensures Checks() == SetChecking(old(Checks()), Hit(col, row, piece))
    {
      if checkingPieceVal != -1 {
        isDoubleCheck := true;
      } else {
        checkingPieceCol := col;
        checkingPieceRow := row;
        checkingPieceVal := piece;
      }
    }
  }
}
