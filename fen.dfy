/** FEN records as loadFEN reads them and getFEN writes them (section 16.1 of the PGN Standard,
    1994): the six space-separated fields, the run-length board, and the decimal clocks.  The
    imperative loadFEN and getFEN of the Position class are proved to compute these functions. */
module Fen {
  import opened Types
  import opened BoardState

  /** The characters the C++ stream extraction skips as white space. */
  predicate IsSpace(c: char) {
    c == ' ' || (9 <= c as int <= 13)
  }

  predicate NoSpace(s: string) {
    forall i :: 0 <= i < |s| ==> !IsSpace(s[i])
  }

  /** A non-empty run of non-space characters. */
  predicate Word(s: string) {
    |s| > 0 && NoSpace(s)
  }

  /** The length of the leading run of non-space characters. */
  function WordLength(s: string): (n: nat)
    ensures n <= |s|
    ensures forall i :: 0 <= i < n ==> !IsSpace(s[i])
    ensures n < |s| ==> IsSpace(s[n])
  {
    if |s| == 0 || IsSpace(s[0]) then 0 else 1 + WordLength(s[1..])
  }

  /** Repeated `>> std::string`: the maximal runs of non-space characters, in order. */
  function Tokens(s: string): seq<string>
    decreases |s|
  {
    if |s| == 0 then []
    else if IsSpace(s[0]) then Tokens(s[1..])
    else
      var n := WordLength(s);
      [s[..n]] + Tokens(s[n..])
  }

  /** The i-th field, or the empty string the extraction leaves when the record is shorter. */
  function Field(ts: seq<string>, i: nat): string {
    if i < |ts| then ts[i] else ""
  }

  /** Words separated by single spaces, as the stream output writes the six fields. */
  function Join(ws: seq<string>): string
    decreases |ws|
  {
    if |ws| == 0 then "" else if |ws| == 1 then ws[0] else ws[0] + " " + Join(ws[1..])
  }

  lemma {:induction false} WordLengthOfJoin(a: string, rest: string)
    requires NoSpace(a)
    ensures WordLength(a + " " + rest) == |a|
    ensures WordLength(a) == |a|
    decreases |a|
  {
    if |a| > 0 {
      assert (a + " " + rest)[1..] == a[1..] + " " + rest;
      WordLengthOfJoin(a[1..], rest);
    }
  }

  /** Splitting a join of non-empty space-free words gives the words back. */
  lemma {:induction false} TokensOfJoin(ws: seq<string>)
    requires forall i :: 0 <= i < |ws| ==> |ws[i]| > 0 && NoSpace(ws[i])
    ensures Tokens(Join(ws)) == ws
    decreases |ws|
  {
    if |ws| == 1 {
      var a := ws[0];
      WordLengthOfJoin(a, "");
      assert a[..|a|] == a && a[|a|..] == [];
    } else if |ws| > 1 {
      var a, rest := ws[0], Join(ws[1..]);
      var s := a + " " + rest;
      WordLengthOfJoin(a, rest);
      assert s[..|a|] == a;
      assert s[|a|..] == " " + rest;
      assert (" " + rest)[1..] == rest;
      TokensOfJoin(ws[1..]);
    }
  }

  // Decimal integers.

  predicate IsDigit(c: char) {
    '0' <= c <= '9'
  }

  function DigitValue(c: char): (v: int)
    ensures IsDigit(c) ==> 0 <= v <= 9
  {
    c as int - '0' as int
  }

  predicate IsNumeral(s: string) {
    |s| > 0 && forall i :: 0 <= i < |s| ==> IsDigit(s[i])
  }

  /** The value of a string of decimal digits, read left to right. */
  function DigitsValue(s: string): nat
    requires forall i :: 0 <= i < |s| ==> IsDigit(s[i])
  {
    if |s| == 0 then 0 else DigitsValue(s[..|s| - 1]) * 10 + DigitValue(s[|s| - 1])
  }

  /** `>> int` of a clock field: an optional sign and decimal digits; any other field reads as 0. */
  function ParseInt(s: string): int {
    if |s| > 1 && (s[0] == '-' || s[0] == '+') && IsNumeral(s[1..]) then
      if s[0] == '-' then -(DigitsValue(s[1..]) as int) else DigitsValue(s[1..])
    else if IsNumeral(s) then DigitsValue(s)
    else 0
  }

  function NatString(n: nat): (s: string)
    ensures IsNumeral(s)
    decreases n
  {
    if n < 10 then [Chr('0' as int + n)] else NatString(n / 10) + [Chr('0' as int + n % 10)]
  }

  /** `<< int`: a minus sign for negative numbers, then the decimal digits. */
  function IntString(n: int): (s: string)
    ensures Word(s)
  {
    if n < 0 then "-" + NatString(-n) else NatString(n)
  }

  lemma {:induction false} NatStringValue(n: nat)
    ensures DigitsValue(NatString(n)) == n
    decreases n
  {
    if n >= 10 {
      var s := NatString(n);
      assert s[..|s| - 1] == NatString(n / 10);
      NatStringValue(n / 10);
    }
  }

  /** Reading back a printed integer gives the integer. */
  lemma IntStringParses(n: int)
    ensures ParseInt(IntString(n)) == n
  {
    if n < 0 {
      NatStringValue(-n);
      assert IntString(n)[1..] == NatString(-n);
    } else {
      NatStringValue(n);
    }
  }

  // The piece placement field.

  /** The scan position of loadFEN's board loop: row, column and the board written so far. */
  datatype Cursor = Cursor(row: int, col: int, board: Grid)

  /** A board write; a write off the board is dropped (the source leaves it undefined). */
  function Put(b: Grid, s: Square, cp: ColoredPiece): (r: Grid)
    ensures OnBoard(s) ==> r[Index(s)] == cp
    ensures forall i :: 0 <= i < 64 && (!OnBoard(s) || i != Index(s)) ==> r[i] == b[i]
  {
    if OnBoard(s) then b[Index(s) := cp] else b
  }

  /** One character of the placement field: '/' starts the next row, a digit skips that many
      columns, anything else is decoded and written at the cursor, which then advances. */
  function ScanChar(cur: Cursor, c: char): Cursor {
    if c == '/' then Cursor(cur.row + 1, 0, cur.board)
    else if IsDigit(c) then Cursor(cur.row, cur.col + DigitValue(c), cur.board)
    else Cursor(cur.row, cur.col + 1, Put(cur.board, Square(cur.row, cur.col), CharToColoredPiece(c)))
  }

  function Scan(cur: Cursor, s: string): Cursor {
    if |s| == 0 then cur else ScanChar(Scan(cur, s[..|s| - 1]), s[|s| - 1])
  }

  lemma {:induction false} ScanAppend(cur: Cursor, x: string, y: string)
    ensures Scan(cur, x + y) == Scan(Scan(cur, x), y)
    decreases |y|
  {
    if |y| > 0 {
      assert (x + y)[..|x + y| - 1] == x + y[..|y| - 1];
      ScanAppend(cur, x, y[..|y| - 1]);
    } else {
      assert x + y == x;
    }
  }

  function EmptyGrid(): (g: Grid)
    ensures forall i :: 0 <= i < 64 ==> g[i] == NoPiece
  {
    seq(64, _ => NoPiece)
  }

  /** loadFEN's board: all squares cleared, then the placement field scanned from row 0. */
  function ParseBoard(part: string): Grid {
    Scan(Cursor(0, 0, EmptyGrid()), part).board
  }

  // The other fields.

  /** The rights one colour gets from the castling field: the king-side bit iff its king-side
      letter occurs, the queen-side bit iff its queen-side letter occurs. */
  function RightsIn(s: string, kingSide: char, queenSide: char): (mask: bv8)
    ensures mask & KingSide != 0 <==> kingSide in s
    ensures mask & QueenSide != 0 <==> queenSide in s
    ensures mask & !3 == 0
  {
    (if kingSide in s then KingSide else NoCastling) | (if queenSide in s then QueenSide else NoCastling)
  }

  /** std::string's operator[], which reads '\0' at and past the end. */
  function CharAt(s: string, i: nat): char {
    if i < |s| then s[i] else '\0'
  }

  /** The en-passant field: "-" is no square, anything else is read as <file><rank>. */
  function ParseEnPassant(s: string): (sq: Square)
    ensures s == "-" ==> sq == InvalidSquare
    ensures s != "-" ==> sq == SquareOfName(CharAt(s, 0), CharAt(s, 1))
  {
    if s == "-" then InvalidSquare else SquareOfName(CharAt(s, 0), CharAt(s, 1))
  }

  /** What loadFEN takes from a record. */
  datatype FenRecord = FenRecord(
    board: Grid,
    whiteToMove: bool,
    castleWhite: bv8,
    castleBlack: bv8,
    enPassant: Square,
    halfmove: int,
    fullmove: int)

  function ParseFen(fen: string): FenRecord {
    var ts := Tokens(fen);
    FenRecord(ParseBoard(Field(ts, 0)), Field(ts, 1) == "w",
      RightsIn(Field(ts, 2), 'K', 'Q'), RightsIn(Field(ts, 2), 'k', 'q'),
      ParseEnPassant(Field(ts, 3)), ParseInt(Field(ts, 4)), ParseInt(Field(ts, 5)))
  }

  /** The position loadFEN leaves: the record's fields, and the game-over flag it does not touch. */
  function Loaded(r: FenRecord, gameOver: bool): (st: State)
    ensures st.board == r.board && st.whiteToMove == r.whiteToMove && st.gameOver == gameOver
    ensures st.castleWhite == r.castleWhite && st.castleBlack == r.castleBlack
    ensures st.enPassant == r.enPassant && st.halfmove == r.halfmove && st.fullmove == r.fullmove
  {
    State(r.board, r.whiteToMove, r.castleWhite, r.castleBlack, r.enPassant, r.halfmove,
          r.fullmove, gameOver)
  }

  /** One more character of the castling field: its letter ORs in that right, any other
      character leaves the mask alone. */
  lemma RightsStep(s: string, c: char, kingSide: char, queenSide: char)
    requires kingSide != queenSide
    ensures RightsIn(s + [c], kingSide, queenSide) ==
      if c == kingSide then RightsIn(s, kingSide, queenSide) | KingSide
      else if c == queenSide then RightsIn(s, kingSide, queenSide) | QueenSide
      else RightsIn(s, kingSide, queenSide)
  {
    var before, after := RightsIn(s, kingSide, queenSide), RightsIn(s + [c], kingSide, queenSide);
    assert kingSide in s + [c] <==> kingSide in s || c == kingSide;
    assert queenSide in s + [c] <==> queenSide in s || c == queenSide;
    var expected := if c == kingSide then before | KingSide
      else if c == queenSide then before | QueenSide else before;
    MaskOfBits(after, expected);
  }

  // Writing a record.

  /** The count of a run of empty squares, when there is one. */
  function EmptyRun(n: int): string {
    if n > 0 then IntString(n) else ""
  }

  /** getFEN's row loop from column `col`, with `empties` empty squares not yet written. */
  function RowFrom(st: State, r: int, col: int, empties: int): string
    requires 0 <= col <= 8
    decreases st, 8 - col
  {
    if col == 8 then EmptyRun(empties)
    else if Get(st, Square(r, col)) == NoPiece then RowFrom(st, r, col + 1, empties + 1)
    else EmptyRun(empties) + [PieceToChar(Get(st, Square(r, col)))] + RowFrom(st, r, col + 1, 0)
  }

  /** One step of getFEN's row loop: an empty square extends the run, a piece ends it. */
  lemma RowFromStep(st: State, r: int, col: int, empties: int, cp: ColoredPiece)
    requires 0 <= col < 8 && cp == Get(st, Square(r, col))
    ensures cp == NoPiece ==> RowFrom(st, r, col, empties) == RowFrom(st, r, col + 1, empties + 1)
    ensures cp != NoPiece ==> RowFrom(st, r, col, empties) == EmptyRun(empties) + ([PieceToChar(cp)] + RowFrom(st, r, col + 1, 0))
  {
  }

  /** The empty string is a left unit of concatenation. */
  lemma EmptyPrefix(s: string)
    ensures "" + s == s
  {
  }

  /** Writing a pending run count and a piece letter, regrouped. */
  lemma FlushRun(text: string, run: string, letter: string, tail: string)
    ensures (text + run + letter) + tail == text + (run + (letter + tail))
  {
    Associative(text, run, letter + tail);
    Associative(text + run, letter, tail);
  }

  /** Concatenation is associative. */
  lemma Associative(a: string, b: string, c: string)
    ensures (a + b) + c == a + (b + c)
  {
  }

  function RowString(st: State, r: int): string {
    RowFrom(st, r, 0, 0)
  }

  /** Rows r .. 7, separated by '/'. */
  function BoardFrom(st: State, r: int): string
    requires 0 <= r < 8
    decreases st, 8 - r
  {
    RowString(st, r) + (if r < 7 then "/" + BoardFrom(st, r + 1) else "")
  }

  /** One step of getFEN's loop over the rows: the row's text, then '/' unless it is the last. */
  lemma BoardFromStep(st: State, r: int, text: string, line: string)
    requires 0 <= r < 8 && line == RowString(st, r) && text + BoardFrom(st, r) == BoardFrom(st, 0)
    ensures r < 7 ==> (text + line + "/") + BoardFrom(st, r + 1) == BoardFrom(st, 0)
    ensures r == 7 ==> text + line == BoardFrom(st, 0)
  {
    if r < 7 {
      Associative(text, line, "/" + BoardFrom(st, r + 1));
      Associative(text + line, "/", BoardFrom(st, r + 1));
    } else {
      assert BoardFrom(st, r) == line;
    }
  }

  /** The castling field: K, Q, k, q for the rights held, '-' when both masks are zero. */
  function CastlingString(white: bv8, black: bv8): (s: string)
    ensures white & !3 == 0 && black & !3 == 0 ==> Word(s)
  {
    (if white & KingSide != 0 then "K" else "") + (if white & QueenSide != 0 then "Q" else "")
    + (if black & KingSide != 0 then "k" else "") + (if black & QueenSide != 0 then "q" else "")
    + (if white | black == 0 then "-" else "")
  }

  /** The en-passant field: '-' for the unset square {-1,-1}, otherwise file and rank. */
  function EnPassantString(ep: Square): (s: string)
    ensures ep == InvalidSquare || OnBoard(ep) ==> Word(s)
  {
    if ep.row == -1 && ep.col == -1 then "-" else [Chr('a' as int + ep.col), Chr('8' as int - ep.row)]
  }

  /** The side-to-move field. */
  function SideString(whiteToMove: bool): (s: string)
    ensures Word(s)
    ensures s == "w" <==> whiteToMove
  {
    if whiteToMove then "w" else "b"
  }

  /** The six fields of a record, in the order they are written. */
  datatype FenParts = FenParts(placement: string, side: string, castling: string,
                               enPassant: string, halfmove: string, fullmove: string)

  function Words(p: FenParts): seq<string> {
    [p.placement, p.side, p.castling, p.enPassant, p.halfmove, p.fullmove]
  }

  function PartsOf(st: State): FenParts {
    FenParts(BoardFrom(st, 0), SideString(st.whiteToMove),
      CastlingString(st.castleWhite, st.castleBlack), EnPassantString(st.enPassant),
      IntString(st.halfmove), IntString(st.fullmove))
  }

  /** getFEN. */
  function FenString(st: State): string {
    Join(Words(PartsOf(st)))
  }

  // getFEN inverts loadFEN.

  /** The positions a record describes exactly: every square empty or a real piece, castling
      masks holding only the two castling bits, and an en-passant target that is unset or on
      the board. */
  predicate Printable(st: State) {
    (forall i :: 0 <= i < 64 ==> WellFormedPiece(st.board[i]))
    && st.castleWhite & !3 == 0 && st.castleBlack & !3 == 0
    && (st.enPassant == InvalidSquare || OnBoard(st.enPassant))
  }

  lemma EmptyRunShape(n: int)
    requires 0 < n < 10
    ensures EmptyRun(n) == [Chr('0' as int + n)]
  {
  }

  lemma GridExtensionality(a: Grid, b: Grid)
    requires forall i :: 0 <= i < 64 ==> a[i] == b[i]
    ensures a == b
  {
  }

  /** A grid that agrees with g outside row r and with st on row r from column `from` on. */
  predicate RowFilledFrom(g: Grid, b: Grid, st: State, r: int, from: int) {
    forall i :: 0 <= i < 64 ==>
      g[i] == (if r * 8 + from <= i < r * 8 + 8 then st.board[i] else b[i])
  }

  /** The characters of a printed row are digits 1..8 and piece letters. */
  lemma {:induction false} RowChars(st: State, r: int, col: int, empties: int)
    requires 0 <= r < 8 && 0 <= col <= 8 && 0 <= empties <= col
    requires forall i :: 0 <= i < 64 ==> WellFormedPiece(st.board[i])
    ensures forall i :: 0 <= i < |RowFrom(st, r, col, empties)| ==>
      IsDigit(RowFrom(st, r, col, empties)[i]) || RowFrom(st, r, col, empties)[i] in PieceLetters
    decreases 8 - col
  {
    if col < 8 {
      var cp := Get(st, Square(r, col));
      if cp == NoPiece {
        RowChars(st, r, col + 1, empties + 1);
      } else {
        RowChars(st, r, col + 1, 0);
        assert WellFormedPiece(st.board[Index(Square(r, col))]);
        PieceCharCase(cp);
      }
    }
  }

  /** A run count moves the cursor along the row and writes nothing. */
  lemma RunScans(cur: Cursor, n: int, col: int)
    requires 0 <= n <= 8 && col == cur.col + n
    ensures Scan(cur, EmptyRun(n)) == Cursor(cur.row, col, cur.board)
  {
    if n > 0 {
      EmptyRunShape(n);
      assert Scan(cur, EmptyRun(n)) == ScanChar(cur, Chr('0' as int + n));
    }
  }

  /** A piece letter writes its piece at the cursor and moves one column on. */
  lemma LetterScans(cur: Cursor, cp: ColoredPiece)
    requires WellFormedPiece(cp) && cp != NoPiece
    ensures Scan(cur, [PieceToChar(cp)]) ==
      Cursor(cur.row, cur.col + 1, Put(cur.board, Square(cur.row, cur.col), cp))
  {
    CharOfPieceRoundTrip(cp);
    PieceCharCase(cp);
    assert [PieceToChar(cp)][..0] == [];
  }

  /** The columns lo .. 7 of row r of b are empty. */
  predicate EmptyFrom(b: Grid, r: int, lo: int)
    requires 0 <= r < 8
  {
    forall j {:trigger b[Index(Square(r, j))]} :: 0 <= j && lo <= j < 8 ==> b[Index(Square(r, j))] == NoPiece
  }

  /** Scanning row r's text from column col, with a pending run of `empties` empty squares that
      starts at column lo, leaves the cursor at column 8 with exactly the row's pieces from lo on
      written over b. */
  predicate RowScanned(st: State, r: int, lo: int, col: int, empties: int, b: Grid)
    requires 0 <= col <= 8
  {
    var cur := Scan(Cursor(r, lo, b), RowFrom(st, r, col, empties));
    cur.row == r && cur.col == 8 && RowFilledFrom(cur.board, b, st, r, lo)
  }

  /** Row r of st is empty on the columns lo .. hi - 1. */
  predicate EmptyColumns(st: State, r: int, lo: int, hi: int) {
    forall j {:trigger Get(st, Square(r, j))} :: lo <= j < hi ==> Get(st, Square(r, j)) == NoPiece
  }

  /** An empty square extends a run of empty columns. */
  lemma EmptyColumnsExtend(st: State, r: int, lo: int, hi: int)
    requires EmptyColumns(st, r, lo, hi) && Get(st, Square(r, hi)) == NoPiece
    ensures EmptyColumns(st, r, lo, hi + 1)
  {
  }

  /** Filling from column `col` + 1 after writing column `col`, with the empty run lo .. col - 1
      in front of it, is filling from the start of the run. */
  lemma FillExtends(g: Grid, b: Grid, st: State, r: int, lo: int, col: int)
    requires 0 <= r < 8 && 0 <= lo <= col < 8
    requires EmptyColumns(st, r, lo, col)
    requires EmptyFrom(b, r, lo)
    requires RowFilledFrom(g, Put(b, Square(r, col), Get(st, Square(r, col))), st, r, col + 1)
    ensures RowFilledFrom(g, b, st, r, lo)
  {
    forall i | 0 <= i < 64
      ensures g[i] == (if r * 8 + lo <= i < r * 8 + 8 then st.board[i] else b[i])
    {
      if r * 8 + lo <= i < r * 8 + col {
        assert Index(Square(r, i - r * 8)) == i;
        assert Get(st, Square(r, i - r * 8)) == NoPiece;
      }
    }
  }

  /** At the end of a row the trailing empty run lo .. 7 leaves the board as it was. */
  lemma FillEnd(st: State, r: int, lo: int, b: Grid)
    requires 0 <= r < 8 && 0 <= lo <= 8
    requires EmptyColumns(st, r, lo, 8)
    requires EmptyFrom(b, r, lo)
    ensures RowFilledFrom(b, b, st, r, lo)
  {
    forall i | r * 8 + lo <= i < r * 8 + 8
      ensures st.board[i] == b[i]
    {
      assert Index(Square(r, i - r * 8)) == i;
      assert Get(st, Square(r, i - r * 8)) == NoPiece;
    }
  }

  /** What scanning row r from column col needs: columns lo .. col - 1 of st form the pending
      run of `empties` empty squares, every piece is printable, and columns lo .. 7 of b are
      still empty. */
  predicate RowScanReady(st: State, r: int, lo: int, col: int, empties: int, b: Grid) {
    0 <= r < 8 && 0 <= lo <= col <= 8 && lo + empties == col
    && (forall i :: 0 <= i < 64 ==> WellFormedPiece(st.board[i]))
    && EmptyColumns(st, r, lo, col) && EmptyFrom(b, r, lo)
  }

  /** Scanning a printed row from the start lo of its pending run of `empties` empty squares
      writes exactly the row's pieces from lo on and leaves the cursor at column 8. */
  lemma {:induction false} RowScans(st: State, r: int, lo: int, col: int, empties: int, b: Grid)
    requires RowScanReady(st, r, lo, col, empties, b)
    ensures RowScanned(st, r, lo, col, empties, b)
    decreases 8 - col, 1
  {
    if col == 8 {
      EndScans(st, r, lo, empties, b);
    } else if Get(st, Square(r, col)) == NoPiece {
      EmptyScans(st, r, lo, col, empties, b);
    } else {
      PieceScans(st, r, lo, col, empties, b);
    }
  }

  /** RowScans past an empty square: the run grows by one. */
  lemma {:induction false} EmptyScans(st: State, r: int, lo: int, col: int, empties: int, b: Grid)
    requires RowScanReady(st, r, lo, col, empties, b) && col < 8
    requires Get(st, Square(r, col)) == NoPiece
    ensures RowScanned(st, r, lo, col, empties, b)
    decreases 8 - col, 0
  {
    EmptyColumnsExtend(st, r, lo, col);
    RowScans(st, r, lo, col + 1, empties + 1, b);
    assert RowFrom(st, r, col, empties) == RowFrom(st, r, col + 1, empties + 1);
  }

  /** RowScans past a piece: the rest of the row is scanned from the next column on. */
  lemma {:induction false} PieceScans(st: State, r: int, lo: int, col: int, empties: int, b: Grid)
    requires RowScanReady(st, r, lo, col, empties, b) && col < 8
    requires Get(st, Square(r, col)) != NoPiece
    ensures RowScanned(st, r, lo, col, empties, b)
    decreases 8 - col, 0
  {
    PieceReady(st, r, lo, col, empties, b);
    RowScans(st, r, col + 1, col + 1, 0, Put(b, Square(r, col), Get(st, Square(r, col))));
    LetterStep(st, r, lo, col, empties, b);
  }

  /** After a piece the scan starts afresh on the next column, over the board with the piece
      written. */
  lemma PieceReady(st: State, r: int, lo: int, col: int, empties: int, b: Grid)
    requires RowScanReady(st, r, lo, col, empties, b) && col < 8
    ensures WellFormedPiece(Get(st, Square(r, col)))
    ensures RowScanReady(st, r, col + 1, col + 1, 0, Put(b, Square(r, col), Get(st, Square(r, col))))
  {
    assert WellFormedPiece(st.board[Index(Square(r, col))]);
    PutKeepsEmpty(b, r, col, Get(st, Square(r, col)));
  }

  /** Writing column `col` leaves the columns after it as they were. */
  lemma PutKeepsEmpty(b: Grid, r: int, col: int, cp: ColoredPiece)
    requires 0 <= r < 8 && 0 <= col < 8
    requires EmptyFrom(b, r, col)
    ensures EmptyFrom(Put(b, Square(r, col), cp), r, col + 1)
  {
  }

  /** RowScans at the end of the row: the trailing run count. */
  lemma EndScans(st: State, r: int, lo: int, empties: int, b: Grid)
    requires RowScanReady(st, r, lo, 8, empties, b)
    ensures RowScanned(st, r, lo, 8, empties, b)
  {
    RunScans(Cursor(r, lo, b), empties, 8);
    FillEnd(st, r, lo, b);
  }

  /** PieceScans's step: the run count, the letter, then the rest of the row, given what
      scanning the rest of the row does. */
  lemma LetterStep(st: State, r: int, lo: int, col: int, empties: int, b: Grid)
    requires RowScanReady(st, r, lo, col, empties, b) && col < 8
    requires WellFormedPiece(Get(st, Square(r, col))) && Get(st, Square(r, col)) != NoPiece
    requires RowScanned(st, r, col + 1, col + 1, 0, Put(b, Square(r, col), Get(st, Square(r, col))))
    ensures RowScanned(st, r, lo, col, empties, b)
  {
    var b1 := Put(b, Square(r, col), Get(st, Square(r, col)));
    LetterCursor(st, r, lo, col, empties, b);
    FillExtends(Scan(Cursor(r, col + 1, b1), RowFrom(st, r, col + 1, 0)).board, b, st, r, lo, col);
  }

  /** Scanning the run count and the letter of a piece puts the piece on the board and leaves the
      cursor on the next column. */
  lemma LetterCursor(st: State, r: int, lo: int, col: int, empties: int, b: Grid)
    requires 0 <= r < 8 && 0 <= lo <= col < 8 && lo + empties == col
    requires WellFormedPiece(Get(st, Square(r, col))) && Get(st, Square(r, col)) != NoPiece
    ensures Scan(Cursor(r, lo, b), RowFrom(st, r, col, empties))
      == Scan(Cursor(r, col + 1, Put(b, Square(r, col), Get(st, Square(r, col)))), RowFrom(st, r, col + 1, 0))
  {
    var cp := Get(st, Square(r, col));
    var start := Cursor(r, lo, b);
    RunScans(start, empties, col);
    LetterScans(Cursor(r, col, b), cp);
    var run, letter := EmptyRun(empties), [PieceToChar(cp)];
    ScanAppend(start, run, letter);
    ScanAppend(start, run + letter, RowFrom(st, r, col + 1, 0));
  }

  /** Scanning printed rows r .. 7 from row r fills exactly those rows. */
  lemma {:induction false} BoardScans(st: State, r: int, b: Grid)
    requires 0 <= r < 8
    requires forall i :: 0 <= i < 64 ==> WellFormedPiece(st.board[i])
    requires forall i :: r * 8 <= i < 64 ==> b[i] == NoPiece
    ensures forall i :: 0 <= i < 64 ==>
      Scan(Cursor(r, 0, b), BoardFrom(st, r)).board[i] == (if i >= r * 8 then st.board[i] else b[i])
    decreases 8 - r
  {
    RowScans(st, r, 0, 0, 0, b);
    var cur := Scan(Cursor(r, 0, b), RowString(st, r));
    if r < 7 {
      ScanAppend(Cursor(r, 0, b), RowString(st, r), "/" + BoardFrom(st, r + 1));
      ScanAppend(cur, "/", BoardFrom(st, r + 1));
      assert Scan(cur, "/") == Cursor(r + 1, 0, cur.board);
      BoardScans(st, r + 1, cur.board);
    } else {
      assert BoardFrom(st, r) == RowString(st, r);
    }
  }

  /** The placement field of a printable position contains no space and is not empty. */
  lemma {:induction false} BoardFromChars(st: State, r: int)
    requires 0 <= r < 8
    requires forall i :: 0 <= i < 64 ==> WellFormedPiece(st.board[i])
    ensures NoSpace(BoardFrom(st, r))
    ensures r < 7 ==> Word(BoardFrom(st, r))
    decreases 8 - r
  {
    RowChars(st, r, 0, 0);
    if r < 7 {
      BoardFromChars(st, r + 1);
    }
    var s := BoardFrom(st, r);
    var row := RowString(st, r);
    forall i | 0 <= i < |s| ensures !IsSpace(s[i]) {
      if i < |row| {
        assert s[i] == row[i];
      }
    }
  }

  lemma PlacementRoundTrip(st: State)
    requires forall i :: 0 <= i < 64 ==> WellFormedPiece(st.board[i])
    ensures ParseBoard(BoardFrom(st, 0)) == st.board
  {
    var g := ParseBoard(BoardFrom(st, 0));
    BoardScans(st, 0, EmptyGrid());
    GridExtensionality(g, st.board);
  }

  /** The castling field holds each of the four letters exactly when its right is held. */
  lemma CastlingLetters(white: bv8, black: bv8)
    ensures 'K' in CastlingString(white, black) <==> white & KingSide != 0
    ensures 'Q' in CastlingString(white, black) <==> white & QueenSide != 0
    ensures 'k' in CastlingString(white, black) <==> black & KingSide != 0
    ensures 'q' in CastlingString(white, black) <==> black & QueenSide != 0
  {
    var k1 := if white & KingSide != 0 then "K" else "";
    var q1 := if white & QueenSide != 0 then "Q" else "";
    var k2 := if black & KingSide != 0 then "k" else "";
    var q2 := if black & QueenSide != 0 then "q" else "";
    var dash := if white | black == 0 then "-" else "";
    assert CastlingString(white, black) == k1 + q1 + k2 + q2 + dash;
  }

  /** A mask holding only the castling bits is determined by those two bits. */
  lemma MaskOfBits(m: bv8, n: bv8)
    requires m & !3 == 0 && n & !3 == 0
    requires (m & KingSide != 0) == (n & KingSide != 0) && (m & QueenSide != 0) == (n & QueenSide != 0)
    ensures m == n
  {
  }

  /** The castling field of masks holding only the castling bits gives both masks back. */
  lemma CastlingRoundTrip(white: bv8, black: bv8)
    requires white & !3 == 0 && black & !3 == 0
    ensures RightsIn(CastlingString(white, black), 'K', 'Q') == white
    ensures RightsIn(CastlingString(white, black), 'k', 'q') == black
  {
    var c := CastlingString(white, black);
    CastlingLetters(white, black);
    MaskOfBits(RightsIn(c, 'K', 'Q'), white);
    MaskOfBits(RightsIn(c, 'k', 'q'), black);
  }

  /** The en-passant field gives the square back. */
  lemma EnPassantRoundTrip(ep: Square)
    requires ep == InvalidSquare || OnBoard(ep)
    ensures ParseEnPassant(EnPassantString(ep)) == ep
  {
  }

  /** loadFEN of six words joined by spaces reads each field from its word. */
  lemma ParseOfParts(p: FenParts)
    requires Word(p.placement) && Word(p.side) && Word(p.castling)
    requires Word(p.enPassant) && Word(p.halfmove) && Word(p.fullmove)
    ensures ParseFen(Join(Words(p))) ==
      FenRecord(ParseBoard(p.placement), p.side == "w", RightsIn(p.castling, 'K', 'Q'),
                RightsIn(p.castling, 'k', 'q'), ParseEnPassant(p.enPassant),
                ParseInt(p.halfmove), ParseInt(p.fullmove))
  {
    TokensOfJoin(Words(p));
  }

  /** The six fields joined by single spaces, as getFEN streams them one after another. */
  lemma JoinOfParts(p: FenParts)
    ensures Join(Words(p)) == p.placement + " " + p.side + " " + p.castling + " " + p.enPassant
      + " " + p.halfmove + " " + p.fullmove
  {
    var w := Words(p);
    assert Join(w[5..]) == p.fullmove;
    assert Join(w[4..]) == p.halfmove + " " + p.fullmove;
    assert Join(w[3..]) == p.enPassant + " " + (p.halfmove + " " + p.fullmove);
    assert Join(w[2..]) == p.castling + " " + (p.enPassant + " " + (p.halfmove + " " + p.fullmove));
    assert Join(w[1..]) == p.side + " " + Join(w[2..]);
  }

  /** loadFEN of getFEN's record gives back every field loadFEN sets. */
  lemma FenRoundTrip(st: State)
    requires Printable(st)
    ensures ParseFen(FenString(st)) ==
      FenRecord(st.board, st.whiteToMove, st.castleWhite, st.castleBlack, st.enPassant,
                st.halfmove, st.fullmove)
  {
    BoardFromChars(st, 0);
    ParseOfParts(PartsOf(st));
    PlacementRoundTrip(st);
    CastlingRoundTrip(st.castleWhite, st.castleBlack);
    EnPassantRoundTrip(st.enPassant);
    IntStringParses(st.halfmove);
    IntStringParses(st.fullmove);
  }
}
