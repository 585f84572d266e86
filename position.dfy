/** The Position aggregate: the 64 squares in an array (row-major, row 0 = rank 8), the side to
    move, the castling masks, the en-passant target, the clocks, the game-over flag, the two
    per-colour square sets, the Zobrist hash and the move history with its cursor.  Every method
    is proved against the pure functions of the position value (Snapshot). */
module Positions {
  import opened Types
  import opened BoardState
  import opened Fen
  import opened Zobrist

  /** The record the constructor loads. */
  const StartFen: string := "rnbqkbnr/pppppppp/8/8/8/8/PPPPPPPP/RNBQKBNR w KQkq - 0 1"

  class Position {
    const board: array<ColoredPiece>
    var whiteToMove: bool
    var castleWhite: bv8
    var castleBlack: bv8
    var enPassant: Square
    var halfmove: int
    var fullmove: int
    var gameOver: bool
    var whiteSquares: set<Square>
    var blackSquares: set<Square>
    var hash: bv64
    const keys: Keys
    var history: seq<MoveContext>
    var cursor: int

    /** The board has 64 squares and the key table its full size; both are fixed at creation. */
    ghost predicate Valid() {
      board.Length == 64 && WellSized(keys)
    }

    /** The cursor points into the history: contexts before it can be undone, those after it
        redone. */
    ghost predicate HistoryInRange()
      reads this
    {
      0 <= cursor <= |history|
    }

    /** The position as a value. */
    function Snapshot(): (st: State)
      reads this, board
      requires Valid()
      ensures st.board == board[..]
    {
      State(board[..], whiteToMove, castleWhite, castleBlack, enPassant, halfmove, fullmove, gameOver)
    }

    /** Each colour's square set is exactly the set of squares holding that colour's pieces. */
    ghost predicate SquaresInStep()
      reads this, board
      requires Valid()
    {
      whiteSquares == SquaresOf(Snapshot(), White) && blackSquares == SquaresOf(Snapshot(), Black)
    }

    /** Position(): the start record, with the game not over. */
    constructor(keys: Keys)
      requires WellSized(keys)
      ensures Valid() && fresh(board)
      ensures Snapshot() == Loaded(ParseFen(StartFen), false)
      ensures history == [] && cursor == 0
      ensures hash == Hash(keys, Snapshot()) && SquaresInStep()
    {
      this.keys := keys;
      board := new ColoredPiece[64](_ => NoPiece);
      history, cursor := [], 0;
      // loadFEN leaves the flag alone, so clearing it first is clearing it after.
      gameOver := false;
      new;
      LoadFen(StartFen);
    }

    /** getPiece. */
    method GetPiece(s: Square) returns (cp: ColoredPiece)
      requires Valid() && OnBoard(s)
      ensures cp == Get(Snapshot(), s)
    {
      cp := board[s.row * 8 + s.col];
    }

    /** isSquareEmpty / isEmpty: the square holds the empty sentinel. */
    method IsEmpty(s: Square) returns (empty: bool)
      requires Valid() && OnBoard(s)
      ensures empty <==> IsEmptySquare(Snapshot(), s)
    {
      var cp := GetPiece(s);
      empty := cp == NoPiece;
    }

    /** A read of a square the move names; a square off the board reads as empty. */
    function ReadSquare(s: Square): (cp: ColoredPiece)
      reads this, board
      requires Valid()
      ensures cp == Get(Snapshot(), s)
    {
      if OnBoard(s) then board[s.row * 8 + s.col] else NoPiece
    }

    /** A write to a square the move names; a write off the board is dropped. */
    method WriteSquare(s: Square, cp: ColoredPiece)
      requires Valid()
      modifies board
      ensures Snapshot() == Set(old(Snapshot()), s, cp)
    {
      if OnBoard(s) {
        board[s.row * 8 + s.col] := cp;
      }
    }

    /** addPieceSquare: only WHITE and BLACK have a set. */
    method AddPieceSquare(s: Square, c: Color)
      modifies this`whiteSquares, this`blackSquares
      ensures whiteSquares == if c == White then old(whiteSquares) + {s} else old(whiteSquares)
      ensures blackSquares == if c == Black then old(blackSquares) + {s} else old(blackSquares)
    {
      if c == White {
        whiteSquares := whiteSquares + {s};
      } else if c == Black {
        blackSquares := blackSquares + {s};
      }
    }

    /** removePieceSquare. */
    method RemovePieceSquare(s: Square, c: Color)
      modifies this`whiteSquares, this`blackSquares
      ensures whiteSquares == if c == White then old(whiteSquares) - {s} else old(whiteSquares)
      ensures blackSquares == if c == Black then old(blackSquares) - {s} else old(blackSquares)
    {
      if c == White {
        whiteSquares := whiteSquares - {s};
      } else if c == Black {
        blackSquares := blackSquares - {s};
      }
    }

    /** setPiece: writes the square and moves it into the set of cp's colour, out of the other
        one (out of both for the empty piece), so the sets stay in step with the board. */
    method SetPiece(s: Square, cp: ColoredPiece)
      requires Valid() && OnBoard(s)
      modifies board, this`whiteSquares, this`blackSquares
      ensures Snapshot() == Set(old(Snapshot()), s, cp)
      ensures whiteSquares == if cp.color == White then old(whiteSquares) + {s} else old(whiteSquares) - {s}
      ensures blackSquares == if cp.color == Black then old(blackSquares) + {s} else old(blackSquares) - {s}
      ensures old(SquaresInStep()) ==> SquaresInStep()
    {
      ghost var before := Snapshot();
      board[s.row * 8 + s.col] := cp;
      if cp.color == NoColor {
        RemovePieceSquare(s, Black);
        RemovePieceSquare(s, White);
        assert SquaresInStep() <== old(SquaresInStep()) by {
          SquaresAfterSet(before, s, cp, White);
          SquaresAfterSet(before, s, cp, Black);
        }
        return;
      }
      if cp.color == White {
        RemovePieceSquare(s, Black);
      } else if cp.color == Black {
        RemovePieceSquare(s, White);
      }
      AddPieceSquare(s, cp.color);
      SquaresAfterSet(before, s, cp, White);
      SquaresAfterSet(before, s, cp, Black);
    }

    /** loadPiecesSquares: both sets rebuilt from the board. */
    method LoadPiecesSquares()
      requires Valid()
      modifies this`whiteSquares, this`blackSquares
      ensures SquaresInStep()
    {
      ghost var g := board[..];
      whiteSquares, blackSquares := {}, {};
      for row := 0 to 8
        invariant whiteSquares == SquaresBelow(g, White, row * 8)
        invariant blackSquares == SquaresBelow(g, Black, row * 8)
      {
        for col := 0 to 8
          invariant whiteSquares == SquaresBelow(g, White, row * 8 + col)
          invariant blackSquares == SquaresBelow(g, Black, row * 8 + col)
        {
          var s := Square(row, col);
          var cp := board[row * 8 + col];
          SquaresBelowStep(g, White, row * 8 + col);
          SquaresBelowStep(g, Black, row * 8 + col);
          assert SquareAt(row * 8 + col) == s;
          if cp.color == White {
            AddPieceSquare(s, White);
          } else if cp.color == Black {
            AddPieceSquare(s, Black);
          }
        }
      }
    }

    /** initZobristHash's square loop: the piece keys of the occupied squares, row by row. */
    method PieceKeys() returns (h: bv64)
      requires Valid()
      ensures h == PieceHash(keys, board[..], 64)
    {
      ghost var g := board[..];
      h := 0;
      for row := 0 to 8
        invariant h == PieceHash(keys, g, row * 8)
      {
        for col := 0 to 8
          invariant h == PieceHash(keys, g, row * 8 + col)
        {
          var sq := row * 8 + col;
          var index := PieceIndex(board[sq]);
          XorUnit(h);
          if index != -1 {
            h := Xor(h, keys.pieceKeys[index][sq]);
          }
        }
      }
    }

    /** initZobristHash: the piece keys of the occupied squares, the side key when White is to
        move, the key of the castling index and the en-passant file key. */
    method InitZobristHash()
      requires Valid()
      modifies this`hash
      ensures hash == Hash(keys, Snapshot())
    {
      hash := PieceKeys();
      XorUnit(hash);
      if whiteToMove {
        hash := Xor(hash, keys.sideToMove);
      }
      hash := Xor(hash, keys.castling[CastlingRightsIndex(castleWhite, castleBlack)]);
      XorUnit(hash);
      if enPassant != InvalidSquare && 0 <= enPassant.col < 8 {
        hash := Xor(hash, keys.enPassantFile[enPassant.col]);
      }
    }

    /** clearMoveHistory. */
    method ClearMoveHistory()
      modifies this`history, this`cursor
      ensures history == [] && cursor == 0
    {
      history, cursor := [], 0;
    }

    /** setEnPassantSquare (the tensor plane it also writes is not modelled). */
    method SetEnPassantSquare(s: Square)
      modifies this`enPassant
      ensures enPassant == s
    {
      enPassant := s;
    }

    /** loadFEN's first loop: every square emptied. */
    method ClearBoard()
      requires Valid()
      modifies board
      ensures board[..] == EmptyGrid()
    {
      for i := 0 to 64
        invariant forall j :: 0 <= j < i ==> board[j] == NoPiece
      {
        board[i] := NoPiece;
      }
      GridExtensionality(board[..], EmptyGrid());
    }

    /** loadFEN's placement loop over a cleared board: '/' starts the next row, a digit skips
        columns, any other character is decoded and written at the cursor. */
    method ScanPlacement(part: string)
      requires Valid() && board[..] == EmptyGrid()
      modifies board
      ensures board[..] == ParseBoard(part)
    {
      var row, col := 0, 0;
      for k := 0 to |part|
        invariant Cursor(row, col, board[..]) == Scan(Cursor(0, 0, EmptyGrid()), part[..k])
      {
        var c := part[k];
        assert part[..k + 1][..k] == part[..k];
        if c == '/' {
          row := row + 1;
          col := 0;
        } else if IsDigit(c) {
          col := col + DigitValue(c);
        } else {
          WriteSquare(Square(row, col), CharToColoredPiece(c));
          col := col + 1;
        }
      }
      assert part[..|part|] == part;
    }

    /** loadFEN's castling loop: K and Q set White's bits, k and q Black's, anything else
        (including '-') is skipped. */
    static method ReadCastling(field: string) returns (white: bv8, black: bv8)
      ensures white == RightsIn(field, 'K', 'Q') && black == RightsIn(field, 'k', 'q')
    {
      white, black := 0, 0;
      for k := 0 to |field|
        invariant white == RightsIn(field[..k], 'K', 'Q')
        invariant black == RightsIn(field[..k], 'k', 'q')
      {
        var c := field[k];
        assert field[..k + 1] == field[..k] + [c];
        RightsStep(field[..k], c, 'K', 'Q');
        RightsStep(field[..k], c, 'k', 'q');
        if c == 'K' {
          white := white | KingSide;
        } else if c == 'Q' {
          white := white | QueenSide;
        } else if c == 'k' {
          black := black | KingSide;
        } else if c == 'q' {
          black := black | QueenSide;
        }
      }
      assert field[..|field|] == field;
    }

    /** loadFEN up to the hash: clear the board, read the six fields, scan the placement, set
        turn, castling rights, en-passant target and clocks, and clear the history. */
    method ReadRecord(fen: string)
      requires Valid()
      modifies this`whiteToMove, this`castleWhite, this`castleBlack, this`enPassant
      modifies this`halfmove, this`fullmove, this`history, this`cursor, board
      ensures Valid()
      ensures Snapshot() == Loaded(ParseFen(fen), old(gameOver))
      ensures history == [] && cursor == 0
    {
      ClearBoard();
      var ts := Tokens(fen);
      ScanPlacement(Field(ts, 0));
      var white, black := ReadCastling(Field(ts, 2));
      var square := ParseEnPassant(Field(ts, 3));
      whiteToMove, castleWhite, castleBlack, enPassant := Field(ts, 1) == "w", white, black, square;
      halfmove, fullmove := ParseInt(Field(ts, 4)), ParseInt(Field(ts, 5));
      history, cursor := [], 0;
    }

    /** loadFEN: the record read as above, then the hash and the square sets recomputed.  The
        game-over flag is not touched. */
    method LoadFen(fen: string)
      requires Valid()
      modifies this, board
      ensures Valid()
      ensures Snapshot() == Loaded(ParseFen(fen), old(gameOver))
      ensures history == [] && cursor == 0
      ensures hash == Hash(keys, Snapshot()) && SquaresInStep()
    {
      ReadRecord(fen);
      InitZobristHash();
      LoadPiecesSquares();
    }
  
    /** getFEN's loop over one row: pieces as letters, each run of empty squares as its count. */
    method RowText(row: int) returns (text: string)
      requires Valid() && 0 <= row < 8
      ensures text == RowString(Snapshot(), row)
    {
      ghost var st := Snapshot();
      text := "";
      var empties := 0;
      for col := 0 to 8
        invariant 0 <= empties
        invariant text + RowFrom(st, row, col, empties) == RowString(st, row)
      {
        var cp := board[row * 8 + col];
        assert cp == Get(st, Square(row, col));
        RowFromStep(st, row, col, empties, cp);
        if cp == NoPiece {
          empties := empties + 1;
        } else {
          var letter := [PieceToChar(cp)];
          var run := "";
          if empties > 0 {
            run := IntString(empties);
          }
          FlushRun(text, run, letter, RowFrom(st, row, col + 1, 0));
          text := text + run + letter;
          empties := 0;
        }
      }
      if empties > 0 {
        text := text + IntString(empties);
      }
    }

    /** getFEN's loop over the rows, separated by '/'. */
    method PlacementText() returns (text: string)
      requires Valid()
      ensures text == BoardFrom(Snapshot(), 0)
    {
      ghost var st := Snapshot();
      text := "";
      EmptyPrefix(BoardFrom(st, 0));
      for row := 0 to 8
        invariant row < 8 ==> text + BoardFrom(st, row) == BoardFrom(st, 0)
        invariant row == 8 ==> text == BoardFrom(st, 0)
      {
        var line := RowText(row);
        BoardFromStep(st, row, text, line);
        text := text + line;
        if row < 7 {
          text := text + "/";
        }
      }
    }

    /** getFEN: the placement, then side to move, castling rights, en-passant target and the two
        clocks, separated by single spaces. */
    method GetFen() returns (fen: string)
      requires Valid()
      ensures fen == FenString(Snapshot())
    {
      ghost var p := PartsOf(Snapshot());
      var placement := PlacementText();
      var side := if whiteToMove then "w" else "b";
      assert side == p.side;
      var castling := CastlingText(castleWhite, castleBlack);
      var target := EnPassantText(enPassant);
      fen := placement + " " + side + " " + castling + " " + target + " " + IntString(halfmove)
        + " " + IntString(fullmove);
      JoinOfParts(p);
    }

    /** getFEN's castling field: a letter per right held, '-' when neither side holds any. */
    static method CastlingText(white: bv8, black: bv8) returns (text: string)
      ensures text == CastlingString(white, black)
    {
      text := "";
      if white & KingSide != 0 { text := text + "K"; }
      assert text == (if white & KingSide != 0 then "K" else "");
      ghost var done := text;
      if white & QueenSide != 0 { text := text + "Q"; } else { assert text == text + ""; }
      assert text == done + (if white & QueenSide != 0 then "Q" else "");
      done := text;
      if black & KingSide != 0 { text := text + "k"; } else { assert text == text + ""; }
      assert text == done + (if black & KingSide != 0 then "k" else "");
      done := text;
      if black & QueenSide != 0 { text := text + "q"; } else { assert text == text + ""; }
      assert text == done + (if black & QueenSide != 0 then "q" else "");
      done := text;
      if white | black == 0 { text := text + "-"; } else { assert text == text + ""; }
      assert text == done + (if white | black == 0 then "-" else "");
    }

    /** getFEN's en-passant field: '-' for {-1,-1}, otherwise the file letter and the rank digit. */
    static method EnPassantText(ep: Square) returns (text: string)
      ensures text == EnPassantString(ep)
    {
      if ep.row == -1 && ep.col == -1 {
        text := "-";
      } else {
        var file := Chr('a' as int + ep.col);
        var rank := Chr('8' as int - ep.row);
        text := [file, rank];
      }
    }

    /** getCapturedPiece. */
    method GetCapturedPiece(m: Move) returns (cp: ColoredPiece)
      requires Valid()
      ensures cp == CapturedPiece(Snapshot(), m)
    {
      cp := ReadSquare(m.to);
      var ep := IsEnPassantMove(m);
      if ep {
        var mover := ReadSquare(m.from);
        var colorIndex := if mover.color == White then 1 else -1;
        cp := ReadSquare(Square(m.to.row + colorIndex, m.to.col));
      }
    }

    /** isEnPassant. */
    method IsEnPassantMove(m: Move) returns (b: bool)
      requires Valid()
      ensures b <==> IsEnPassant(Snapshot(), m)
    {
      var mover := ReadSquare(m.from);
      if mover.piece != Pawn {
        return false;
      }
      b := m.to == enPassant;
    }

    /** isCastling. */
    method IsCastlingMove(m: Move) returns (b: bool)
      requires Valid()
      ensures b <==> IsCastling(Snapshot(), m)
    {
      var mover := ReadSquare(m.from);
      if mover.piece != King {
        return false;
      }
      b := Abs(m.from.col - m.to.col) == 2;
    }

    /** getMoveContext: the snapshot of everything a move can change, with the mover and the
        current hash, taken without touching the history. */
    method GetMoveContext(m: Move) returns (ctx: MoveContext)
      requires Valid()
      ensures ctx == ContextOf(Snapshot(), hash, m)
    {
      var mover := ReadSquare(m.from);
      var captured := GetCapturedPiece(m);
      var ep := IsEnPassantMove(m);
      var castling := IsCastlingMove(m);
      ctx := MoveContext(m, mover, captured, enPassant, castleWhite, castleBlack, halfmove,
        fullmove, whiteToMove, gameOver, ep, castling, hash);
    }

    /** changeTurn: the move passes to the other side; nothing else changes (the tensor plane it
        also fills is not modelled). */
    method ChangeTurn()
      requires Valid()
      modifies this`whiteToMove
      ensures Snapshot() == old(Snapshot()).(whiteToMove := !old(whiteToMove))
    {
      whiteToMove := !whiteToMove;
    }

    /** setCastleState: the colour's mask is replaced; any colour other than White sets Black's. */
    method SetCastleState(c: Color, mask: bv8)
      requires Valid()
      modifies this`castleWhite, this`castleBlack
      ensures Snapshot() == WithCastle(old(Snapshot()), c, mask)
    {
      if c == White {
        castleWhite := mask;
      } else {
        castleBlack := mask;
      }
    }
  }
}
