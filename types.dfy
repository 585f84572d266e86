/** Value types shared by the whole C++ rules core: pieces, colours, squares,
    moves, castling bits, and the piece/character codec. */
module Types {

  /** Piece kinds, in the order of their numeric codes EMPTY = 0 .. KING = 6. */
  datatype Piece = Empty | Pawn | Knight | Bishop | Rook | Queen | King

  /** Colours; WHITE = 1, BLACK = -1, NONE = 0 in the source. */
  datatype Color = White | Black | NoColor

  function ColorCode(c: Color): (code: int)
    ensures code == 1 <==> c == White
    ensures code == -1 <==> c == Black
    ensures code == 0 <==> c == NoColor
  {
    match c
    case White => 1
    case Black => -1
    case NoColor => 0
  }

  function PieceCode(p: Piece): (code: int)
    ensures 0 <= code <= 6
    ensures code == 0 <==> p == Empty
  {
    match p
    case Empty => 0
    case Pawn => 1
    case Knight => 2
    case Bishop => 3
    case Rook => 4
    case Queen => 5
    case King => 6
  }

  /** Equality of two colored pieces is structural, as operator== compares colour and kind. */
  datatype ColoredPiece = ColoredPiece(color: Color, piece: Piece)

  /** The default ColoredPiece and the empty-square sentinel NO_Piece. */
  const NoPiece := ColoredPiece(NoColor, Empty)

  /** The side opposite to c, as Position::changeTurn computes it: anything but WHITE becomes WHITE. */
  function Flip(c: Color): Color {
    if c == White then Black else White
  }

  /** A real piece: one of the twelve that the FEN letters name. */
  predicate IsRealPiece(cp: ColoredPiece) {
    cp.color != NoColor && cp.piece != Empty
  }

  /** A board entry that the codec can produce: the empty sentinel or a real piece. */
  predicate WellFormedPiece(cp: ColoredPiece) {
    cp == NoPiece || IsRealPiece(cp)
  }

  // Castling bits of one colour's mask.
  const NoCastling: bv8 := 0
  const KingSide: bv8 := 1
  const QueenSide: bv8 := 2

  lemma CastlingBitsDistinct()
    ensures KingSide & QueenSide == NoCastling
    ensures KingSide != NoCastling && QueenSide != NoCastling && KingSide != QueenSide
    ensures KingSide | QueenSide == 3
  {
  }

  /** A board square, row 0 being rank 8 and col 0 being file a. */
  datatype Square = Square(row: int, col: int)

  /** The "no square" sentinel used for an unset en-passant target. */
  const InvalidSquare := Square(-1, -1)

  predicate OnBoard(s: Square) {
    0 <= s.row < 8 && 0 <= s.col < 8
  }

  /** A move; the promotion piece is NO_Piece unless the move promotes. */
  datatype Move = Move(from: Square, to: Square, promotion: ColoredPiece)

  /** A move built without a promotion piece takes the default NO_Piece. */
  function PlainMove(from: Square, to: Square): (m: Move)
    ensures m.from == from && m.to == to && m.promotion == NoPiece
  {
    Move(from, to, NoPiece)
  }

  /** Moves are equal exactly when from, to and promotion piece agree. */
  lemma MoveEquality(a: Move, b: Move)
    ensures a == b <==> a.from == b.from && a.to == b.to && a.promotion == b.promotion
  {
  }

  /** The C++ char conversion keeps the low eight bits of an int. */
  function Chr(code: int): (c: char)
    ensures 0 <= c as int < 256
    ensures 0 <= code < 256 ==> c as int == code
  {
    (code % 256) as char
  }

  /** std::tolower in the "C" locale. */
  function ToLower(c: char): (l: char)
    ensures 'A' <= c <= 'Z' ==> l as int == c as int + 32
    ensures !('A' <= c <= 'Z') ==> l == c
  {
    if 'A' <= c <= 'Z' then (c as int + 32) as char else c
  }

  function LowerString(s: string): (r: string)
    ensures |r| == |s|
    ensures forall i :: 0 <= i < |s| ==> r[i] == ToLower(s[i])
  {
    if s == [] then [] else [ToLower(s[0])] + LowerString(s[1..])
  }

  predicate IsLowerString(s: string) {
    forall i :: 0 <= i < |s| ==> !('A' <= s[i] <= 'Z')
  }

  function PieceToChar(cp: ColoredPiece): char {
    var isWhite := cp.color == White;
    match cp.piece
    case Pawn => if isWhite then 'P' else 'p'
    case Knight => if isWhite then 'N' else 'n'
    case Bishop => if isWhite then 'B' else 'b'
    case Rook => if isWhite then 'R' else 'r'
    case Queen => if isWhite then 'Q' else 'q'
    case King => if isWhite then 'K' else 'k'
    case Empty => '.'
  }

  function CharToColoredPiece(c: char): ColoredPiece {
    match c
    case 'P' => ColoredPiece(White, Pawn)
    case 'N' => ColoredPiece(White, Knight)
    case 'B' => ColoredPiece(White, Bishop)
    case 'R' => ColoredPiece(White, Rook)
    case 'Q' => ColoredPiece(White, Queen)
    case 'K' => ColoredPiece(White, King)
    case 'p' => ColoredPiece(Black, Pawn)
    case 'n' => ColoredPiece(Black, Knight)
    case 'b' => ColoredPiece(Black, Bishop)
    case 'r' => ColoredPiece(Black, Rook)
    case 'q' => ColoredPiece(Black, Queen)
    case 'k' => ColoredPiece(Black, King)
    case _ => NoPiece
  }

  const PieceLetters := "PNBRQKpnbrqk"

  /** Decoding the character of a real piece gives the piece back. */
  lemma CharOfPieceRoundTrip(cp: ColoredPiece)
    requires IsRealPiece(cp)
    ensures CharToColoredPiece(PieceToChar(cp)) == cp
  {
    match cp.piece
    case Pawn =>
    case Knight =>
    case Bishop =>
    case Rook =>
    case Queen =>
    case King =>
  }

  /** Encoding the piece named by a FEN letter gives the letter back. */
  lemma PieceOfCharRoundTrip(c: char)
    requires c in PieceLetters
    ensures PieceToChar(CharToColoredPiece(c)) == c
    ensures IsRealPiece(CharToColoredPiece(c))
  {
  }

  /** White pieces print upper case, other real pieces lower case, EMPTY as '.'. */
  lemma PieceCharCase(cp: ColoredPiece)
    ensures cp.piece == Empty <==> PieceToChar(cp) == '.'
    ensures cp.piece != Empty && cp.color == White ==> 'A' <= PieceToChar(cp) <= 'Z'
    ensures cp.piece != Empty && cp.color != White ==> 'a' <= PieceToChar(cp) <= 'z'
    ensures PieceToChar(cp) in PieceLetters || PieceToChar(cp) == '.'
  {
  }

  /** Unrecognised characters decode to the empty sentinel, the letters to real pieces. */
  lemma CharDecoding(c: char)
    ensures c !in PieceLetters <==> CharToColoredPiece(c) == NoPiece
    ensures WellFormedPiece(CharToColoredPiece(c))
  {
  }

  /** The square a <file><rank> pair names, as Position::loadFEN reads the en-passant field:
      file 'a'..'h' gives col 0..7 and rank '8'..'1' gives row 0..7. */
  function SquareOfName(file: char, rank: char): Square {
    Square(8 - (rank as int - '0' as int), file as int - 'a' as int)
  }

  function FileChar(col: int): char {
    Chr('a' as int + col)
  }

  function RankChar(row: int): char {
    Chr('1' as int + (7 - row))
  }

  /** getMoveString: the source square then the destination square, each as file and rank. */
  function MoveString(m: Move): string {
    [FileChar(m.from.col), RankChar(m.from.row), FileChar(m.to.col), RankChar(m.to.row)]
  }

  /** A move string of an on-board move has four characters and decodes, with the FEN square
      reading, back to the move's two squares; the promotion piece plays no part. */
  lemma MoveStringDecodes(m: Move, p: ColoredPiece)
    requires OnBoard(m.from) && OnBoard(m.to)
    ensures var s := MoveString(m);
      |s| == 4 && SquareOfName(s[0], s[1]) == m.from && SquareOfName(s[2], s[3]) == m.to
      && 'a' <= s[0] <= 'h' && '1' <= s[1] <= '8' && 'a' <= s[2] <= 'h' && '1' <= s[3] <= '8'
    ensures MoveString(m.(promotion := p)) == MoveString(m)
  {
  }

  /** vectorContainsMove: a linear search for a structurally equal move. */
  method ContainsMove(moves: seq<Move>, move: Move) returns (found: bool)
    ensures found <==> move in moves
  {
    for i := 0 to |moves|
      invariant move !in moves[..i]
    {
      if moves[i] == move {
        return true;
      }
    }
    return false;
  }

  const BoardSize := 8
  const NumPlanes := 18

  /** Position of (plane, row, col) in the flat tensor. */
  function TensorIndex(plane: int, row: int, col: int): int {
    plane * BoardSize * BoardSize + row * BoardSize + col
  }

  /** In range, tensorIndex lies below 18*64 and can be decoded back, so it is injective. */
  lemma TensorIndexDecodes(plane: int, row: int, col: int)
    requires 0 <= plane < NumPlanes && 0 <= row < BoardSize && 0 <= col < BoardSize
    ensures 0 <= TensorIndex(plane, row, col) < NumPlanes * BoardSize * BoardSize
    ensures TensorIndex(plane, row, col) / 64 == plane
    ensures TensorIndex(plane, row, col) % 64 / 8 == row
    ensures TensorIndex(plane, row, col) % 8 == col
  {
    var i := TensorIndex(plane, row, col);
    assert i == plane * 64 + (row * 8 + col);
    assert 0 <= row * 8 + col < 64;
  }

  lemma TensorIndexInjective(p1: int, r1: int, c1: int, p2: int, r2: int, c2: int)
    requires 0 <= p1 < NumPlanes && 0 <= r1 < BoardSize && 0 <= c1 < BoardSize
    requires 0 <= p2 < NumPlanes && 0 <= r2 < BoardSize && 0 <= c2 < BoardSize
    ensures TensorIndex(p1, r1, c1) == TensorIndex(p2, r2, c2) <==> p1 == p2 && r1 == r2 && c1 == c2
  {
    TensorIndexDecodes(p1, r1, c1);
    TensorIndexDecodes(p2, r2, c2);
  }
}
