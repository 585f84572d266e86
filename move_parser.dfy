/** MoveParser: the lower-case algebraic strings getMoveSANPairs gives each legal move, with the
    file and rank disambiguation of section 8.2.3 of the PGN standard, and moveStringToMove, which
    looks a typed string up among them. */
module MoveParsers {
  import opened Types
  import opened BoardState
  import opened Legality
  import opened Positions
  import Validation

  datatype Option<T> = None | Some(value: T)

  /** What the inner loop of getMoveSANPairs learns about the other moves: whether some rival
      exists, whether one stands on the same rank (the file is needed) and whether one stands on
      the same file but another rank (the rank is needed). */
  datatype Ambiguity = Ambiguity(any: bool, needCol: bool, needRow: bool)

  /** A rival of m: another move onto m's destination, from another square holding an identical
      piece. */
  predicate Rival(st: State, m: Move, o: Move) {
    o.to == m.to && o.from != m.from && Get(st, o.from) == Get(st, m.from)
  }

  function AmbiguityOf(st: State, others: seq<Move>, m: Move): Ambiguity {
    Ambiguity(
      exists o :: o in others && Rival(st, m, o),
      exists o :: o in others && Rival(st, m, o) && o.from.row == m.from.row,
      exists o :: o in others && Rival(st, m, o) && o.from.row != m.from.row && o.from.col == m.from.col)
  }

  /** The disambiguator written after the piece letter. */
  function Disambiguator(a: Ambiguity, m: Move): string {
    if a.needCol && a.needRow then [FileChar(m.from.col), RankChar(m.from.row)]
    else if a.needCol then [FileChar(m.from.col)]
    else if a.needRow then [RankChar(m.from.row)]
    else if a.any then [FileChar(m.from.col)]
    else []
  }

  function SquareName(s: Square): string {
    [FileChar(s.col), RankChar(s.row)]
  }

  predicate IsCastlingKingMove(st: State, m: Move) {
    Get(st, m.from).piece == King && Abs(m.to.col - m.from.col) == 2
  }

  /** The string getMoveSANPairs builds for m before its final lower-casing. */
  function RawSan(st: State, moves: seq<Move>, m: Move): string {
    var cp := Get(st, m.from);
    var capture := CapturedPiece(st, m) != NoPiece;
    if IsCastlingKingMove(st, m) then
      if m.to.col > m.from.col then "o-o" else "o-o-o"
    else if cp.piece == Pawn then
      (if capture then [FileChar(m.from.col), 'x'] else [])
      + SquareName(m.to)
      + (if m.promotion.piece != Empty then ['=', ToLower(PieceToChar(m.promotion))] else [])
    else
      [ToLower(PieceToChar(cp))] + Disambiguator(AmbiguityOf(st, moves, m), m)
      + (if capture then "x" else "") + SquareName(m.to)
  }

  /** The string of m among moves; it never holds an upper-case letter. */
  function San(st: State, moves: seq<Move>, m: Move): (r: string)
    ensures IsLowerString(r)
    ensures |r| == |RawSan(st, moves, m)|
  {
    LowerString(RawSan(st, moves, m))
  }

  /** getMoveSANPairs: one pair per move, in the order of the moves. */
  function SanPairs(st: State, moves: seq<Move>): (pairs: seq<(Move, string)>)
    ensures |pairs| == |moves|
    ensures forall i :: 0 <= i < |moves| ==> pairs[i] == (moves[i], San(st, moves, moves[i]))
  {
    seq(|moves|, i requires 0 <= i < |moves| => (moves[i], San(st, moves, moves[i])))
  }

  /** The move of the first pair whose string is s. */
  function FirstMatch(pairs: seq<(Move, string)>, s: string): Option<Move> {
    if pairs == [] then None
    else if pairs[0].1 == s then Some(pairs[0].0)
    else FirstMatch(pairs[1..], s)
  }

  /** moveStringToMove on a list of moves: the input is lower-cased and looked up; None stands for
      the invalid_argument exception. */
  function ParseAmong(st: State, moves: seq<Move>, input: string): Option<Move> {
    FirstMatch(SanPairs(st, moves), LowerString(input))
  }

  /** moveStringToMove: the lookup among the legal moves of the side to move. */
  function ParsedMove(st: State, input: string): Option<Move> {
    ParseAmong(st, LegalMoves(st, SideToMove(st)), input)
  }

  /** FirstMatch finds nothing exactly when no pair carries s, and otherwise the move of the
      first pair that does. */
  lemma {:induction false} FirstMatchMeaning(pairs: seq<(Move, string)>, s: string)
    ensures FirstMatch(pairs, s).None? <==> forall i :: 0 <= i < |pairs| ==> pairs[i].1 != s
    ensures FirstMatch(pairs, s).Some? ==>
      exists i :: 0 <= i < |pairs| && pairs[i] == (FirstMatch(pairs, s).value, s)
        && forall j :: 0 <= j < i ==> pairs[j].1 != s
  {
    if pairs != [] && pairs[0].1 != s {
      FirstMatchMeaning(pairs[1..], s);
      var r := FirstMatch(pairs[1..], s);
      if r.Some? {
        var i :| 0 <= i < |pairs[1..]| && pairs[1..][i] == (r.value, s)
          && forall j :: 0 <= j < i ==> pairs[1..][j].1 != s;
        assert pairs[i + 1] == (r.value, s);
        assert forall j :: 0 <= j < i + 1 ==> pairs[j].1 != s by {
          forall j | 0 <= j < i + 1 ensures pairs[j].1 != s {
            if j > 0 {
              assert pairs[j] == pairs[1..][j - 1];
            }
          }
        }
      } else {
        forall i | 0 <= i < |pairs| ensures pairs[i].1 != s {
          if i > 0 {
            assert pairs[i] == pairs[1..][i - 1];
          }
        }
      }
    }
  }

  /** moveStringToMove returns a move of the list whose string is the lower-cased input, with no
      earlier move carrying that string; it fails exactly when no move carries it. */
  lemma ParseAmongMeaning(st: State, moves: seq<Move>, input: string)
    ensures ParseAmong(st, moves, input).None? <==>
      forall i :: 0 <= i < |moves| ==> San(st, moves, moves[i]) != LowerString(input)
    ensures ParseAmong(st, moves, input).Some? ==>
      exists i :: 0 <= i < |moves| && moves[i] == ParseAmong(st, moves, input).value
        && San(st, moves, moves[i]) == LowerString(input)
        && forall j :: 0 <= j < i ==> San(st, moves, moves[j]) != LowerString(input)
  {
    var pairs := SanPairs(st, moves);
    FirstMatchMeaning(pairs, LowerString(input));
    var r := ParseAmong(st, moves, input);
    if r.None? {
      forall i | 0 <= i < |moves| ensures San(st, moves, moves[i]) != LowerString(input) {
        assert pairs[i].1 != LowerString(input);
      }
    } else {
      var i :| 0 <= i < |pairs| && pairs[i] == (r.value, LowerString(input))
        && forall j :: 0 <= j < i ==> pairs[j].1 != LowerString(input);
      assert moves[i] == r.value && San(st, moves, moves[i]) == LowerString(input);
      forall j | 0 <= j < i ensures San(st, moves, moves[j]) != LowerString(input) {
        assert pairs[j].1 != LowerString(input);
      }
    }
  }

  /** A move that shares its string with an earlier, different move of the list, and does not
      itself occur up to that earlier move, is never what the lookup returns. */
  lemma ShadowedMove(st: State, moves: seq<Move>, i: int, k: int, input: string)
    requires 0 <= i < k < |moves|
    requires San(st, moves, moves[i]) == San(st, moves, moves[k])
    requires forall j :: 0 <= j <= i ==> moves[j] != moves[k]
    ensures ParseAmong(st, moves, input) != Some(moves[k])
  {
    ParseAmongMeaning(st, moves, input);
    var r := ParseAmong(st, moves, input);
    if r.Some? {
      var j :| 0 <= j < |moves| && moves[j] == r.value
        && San(st, moves, moves[j]) == LowerString(input)
        && forall j' :: 0 <= j' < j ==> San(st, moves, moves[j']) != LowerString(input);
      if j <= i {
        assert moves[j] != moves[k];
      } else {
        assert San(st, moves, moves[i]) != LowerString(input);
      }
    }
  }

  /** Lower-casing leaves a string without upper-case letters alone and works piece by piece. */
  lemma LowerKeepsLower(s: string)
    requires IsLowerString(s)
    ensures LowerString(s) == s
  {
  }

  lemma LowerConcat(a: string, b: string)
    ensures LowerString(a + b) == LowerString(a) + LowerString(b)
  {
    var l := LowerString(a + b);
    assert forall i :: 0 <= i < |a| ==> l[i] == ToLower(a[i]);
    assert forall i :: 0 <= i < |b| ==> l[|a| + i] == ToLower(b[i]);
  }

  lemma LowerStringsConcat(a: string, b: string)
    requires IsLowerString(a) && IsLowerString(b)
    ensures IsLowerString(a + b)
  {
    forall i | 0 <= i < |a + b| ensures !('A' <= (a + b)[i] <= 'Z') {
      if i >= |a| {
        assert (a + b)[i] == b[i - |a|];
      }
    }
  }

  /** The characters a piece move adds after its letter: no upper case and no 'x'. */
  lemma DisambiguatorCharacters(a: Ambiguity, m: Move)
    requires OnBoard(m.from)
    ensures IsLowerString(Disambiguator(a, m)) && 'x' !in Disambiguator(a, m)
  {
    SquareCharacters(m.from);
  }

  lemma SquareNameCharacters(s: Square)
    requires OnBoard(s)
    ensures IsLowerString(SquareName(s)) && 'x' !in SquareName(s)
    ensures SquareOfName(SquareName(s)[0], SquareName(s)[1]) == s
  {
    SquareCharacters(s);
  }

  /** Files print as 'a'..'h' and ranks as '8'..'1' for row 0..7; neither is upper case. */
  lemma SquareCharacters(s: Square)
    requires OnBoard(s)
    ensures 'a' <= FileChar(s.col) <= 'h' && FileChar(s.col) as int == 'a' as int + s.col
    ensures '1' <= RankChar(s.row) <= '8' && RankChar(s.row) as int == '1' as int + 7 - s.row
  {
  }

  /** The string of a piece move: the lower-case piece letter, the disambiguator, 'x' on a
      capture and the destination. */
  lemma PieceMoveSan(st: State, moves: seq<Move>, m: Move)
    requires OnBoard(m.from) && OnBoard(m.to)
    requires Get(st, m.from).piece != Pawn && !IsCastlingKingMove(st, m)
    ensures San(st, moves, m) ==
      [ToLower(PieceToChar(Get(st, m.from)))] + Disambiguator(AmbiguityOf(st, moves, m), m)
      + (if CapturedPiece(st, m) != NoPiece then "x" else "") + SquareName(m.to)
  {
    SquareCharacters(m.from);
    SquareCharacters(m.to);
    var head := [ToLower(PieceToChar(Get(st, m.from)))];
    var d := Disambiguator(AmbiguityOf(st, moves, m), m);
    var x: string := if CapturedPiece(st, m) != NoPiece then "x" else "";
    var tail := d + x + SquareName(m.to);
    assert RawSan(st, moves, m) == head + d + x + SquareName(m.to);
    assert head + d + x + SquareName(m.to) == head + tail;
    DisambiguatorCharacters(AmbiguityOf(st, moves, m), m);
    SquareNameCharacters(m.to);
    LowerStringsConcat(d, x);
    LowerStringsConcat(d + x, SquareName(m.to));
    LowerConcat(head, tail);
    LowerKeepsLower(head);
    LowerKeepsLower(tail);
  }

  /** The string of a pawn move: "<file>x" on a capture, the destination, and "=<letter>" for a
      promotion. */
  lemma PawnMoveSan(st: State, moves: seq<Move>, m: Move)
    requires OnBoard(m.from) && OnBoard(m.to)
    requires Get(st, m.from).piece == Pawn
    ensures San(st, moves, m) ==
      (if CapturedPiece(st, m) != NoPiece then [FileChar(m.from.col), 'x'] else [])
      + SquareName(m.to)
      + (if m.promotion.piece != Empty then ['=', ToLower(PieceToChar(m.promotion))] else [])
  {
    SquareCharacters(m.from);
    SquareCharacters(m.to);
    LowerKeepsLower(RawSan(st, moves, m));
  }

  /** A two-column king move reads "o-o" towards the h-file and "o-o-o" towards the a-file. */
  lemma CastlingSan(st: State, moves: seq<Move>, m: Move)
    requires IsCastlingKingMove(st, m)
    ensures m.to.col > m.from.col ==> San(st, moves, m) == "o-o"
    ensures m.to.col <= m.from.col ==> San(st, moves, m) == "o-o-o"
  {
    LowerKeepsLower(RawSan(st, moves, m));
  }

  /** Every string other than a castling one ends with the destination square, which reads back
      as that square, and carries an 'x' exactly when the move captures. */
  lemma SanNamesDestination(st: State, moves: seq<Move>, m: Move)
    requires OnBoard(m.from) && OnBoard(m.to) && !IsCastlingKingMove(st, m)
    requires Get(st, m.from).piece != Pawn || m.promotion.piece == Empty
    ensures var r := San(st, moves, m);
      |r| >= 2 && SquareOfName(r[|r| - 2], r[|r| - 1]) == m.to
      && ('x' in r <==> CapturedPiece(st, m) != NoPiece)
  {
    if Get(st, m.from).piece == Pawn {
      PawnSanNamesDestination(st, moves, m);
    } else {
      PieceSanNamesDestination(st, moves, m);
    }
  }

  /** SanNamesDestination for a pawn move without promotion. */
  lemma PawnSanNamesDestination(st: State, moves: seq<Move>, m: Move)
    requires OnBoard(m.from) && OnBoard(m.to)
    requires Get(st, m.from).piece == Pawn && m.promotion.piece == Empty
    ensures var r := San(st, moves, m);
      |r| >= 2 && SquareOfName(r[|r| - 2], r[|r| - 1]) == m.to
      && ('x' in r <==> CapturedPiece(st, m) != NoPiece)
  {
    SquareCharacters(m.from);
    SquareCharacters(m.to);
    var r := San(st, moves, m);
    PawnMoveSan(st, moves, m);
    if CapturedPiece(st, m) != NoPiece {
      assert r[1] == 'x';
    } else {
      assert r == SquareName(m.to);
    }
  }

  /** SanNamesDestination for a move of a piece other than a pawn, castling aside. */
  lemma PieceSanNamesDestination(st: State, moves: seq<Move>, m: Move)
    requires OnBoard(m.from) && OnBoard(m.to) && !IsCastlingKingMove(st, m)
    requires Get(st, m.from).piece != Pawn
    ensures var r := San(st, moves, m);
      |r| >= 2 && SquareOfName(r[|r| - 2], r[|r| - 1]) == m.to
      && ('x' in r <==> CapturedPiece(st, m) != NoPiece)
  {
    SquareCharacters(m.to);
    var r := San(st, moves, m);
    var capture := CapturedPiece(st, m) != NoPiece;
    PieceMoveSan(st, moves, m);
    var cp := Get(st, m.from);
    PieceCharCase(cp);
    var d := Disambiguator(AmbiguityOf(st, moves, m), m);
    assert r == [ToLower(PieceToChar(cp))] + d + (if capture then "x" else "") + SquareName(m.to);
    assert 'x' !in d;
    if capture {
      assert r[1 + |d|] == 'x';
    } else {
      assert r == [ToLower(PieceToChar(cp))] + d + SquareName(m.to);
    }
  }

  /** The disambiguation separates rivals: two moves of identical pieces from different squares
      onto the same destination never get the same string, whatever file and rank they share. */
  lemma RivalsDistinguished(st: State, moves: seq<Move>, m1: Move, m2: Move)
    requires m1 in moves && m2 in moves && Rival(st, m1, m2)
    requires OnBoard(m1.from) && OnBoard(m1.to) && OnBoard(m2.from)
    requires Get(st, m1.from).piece != Pawn && !IsCastlingKingMove(st, m1) && !IsCastlingKingMove(st, m2)
    ensures San(st, moves, m1) != San(st, moves, m2)
  {
    PieceMoveSan(st, moves, m1);
    RivalSan(st, moves, m1, m2);
    DisambiguatorsDiffer(st, moves, m1, m2);
    MiddlesDiffer(San(st, moves, m1), San(st, moves, m2), [ToLower(PieceToChar(Get(st, m1.from)))],
      Disambiguator(AmbiguityOf(st, moves, m1), m1), Disambiguator(AmbiguityOf(st, moves, m2), m2),
      (if CapturedPiece(st, m1) != NoPiece then "x" else "") + SquareName(m1.to));
  }

  /** The string of a rival differs from the move's own only in the disambiguator. */
  lemma RivalSan(st: State, moves: seq<Move>, m1: Move, m2: Move)
    requires Rival(st, m1, m2) && OnBoard(m1.to) && OnBoard(m2.from)
    requires Get(st, m1.from).piece != Pawn && !IsCastlingKingMove(st, m2)
    ensures San(st, moves, m2) ==
      [ToLower(PieceToChar(Get(st, m1.from)))] + Disambiguator(AmbiguityOf(st, moves, m2), m2)
      + (if CapturedPiece(st, m1) != NoPiece then "x" else "") + SquareName(m1.to)
  {
    RivalsShareParts(st, m1, m2);
    PieceMoveSan(st, moves, m2);
  }

  /** Two rivals move the same piece onto the same square, and so capture the same piece. */
  lemma RivalsShareParts(st: State, m1: Move, m2: Move)
    requires Rival(st, m1, m2)
    ensures Rival(st, m2, m1)
    ensures m2.to == m1.to && Get(st, m2.from) == Get(st, m1.from)
    ensures CapturedPiece(st, m2) == CapturedPiece(st, m1)
  {
  }

  /** Two strings built around different middles differ. */
  lemma MiddlesDiffer(s1: string, s2: string, head: string, d1: string, d2: string, tail: string)
    requires s1 == head + d1 + tail && s2 == head + d2 + tail
    requires |d1| != |d2| || exists k :: 0 <= k < |d1| && d1[k] != d2[k]
    ensures s1 != s2
  {
    if |d1| == |d2| {
      var k :| 0 <= k < |d1| && d1[k] != d2[k];
      assert s1[|head| + k] == d1[k];
      assert s2[|head| + k] == d2[k];
    }
  }

  /** The disambiguators of two rivals differ, and both are non-empty. */
  lemma DisambiguatorsDiffer(st: State, moves: seq<Move>, m1: Move, m2: Move)
    requires m1 in moves && m2 in moves && Rival(st, m1, m2) && Rival(st, m2, m1)
    requires OnBoard(m1.from) && OnBoard(m2.from)
    ensures var d1 := Disambiguator(AmbiguityOf(st, moves, m1), m1);
      var d2 := Disambiguator(AmbiguityOf(st, moves, m2), m2);
      |d1| != |d2| || exists k :: 0 <= k < |d1| && d1[k] != d2[k]
  {
    SquareCharacters(m1.from);
    SquareCharacters(m2.from);
    var a1 := AmbiguityOf(st, moves, m1);
    var a2 := AmbiguityOf(st, moves, m2);
    var d1 := Disambiguator(a1, m1);
    var d2 := Disambiguator(a2, m2);
    assert a1.any && a2.any;
    if m1.from.row == m2.from.row {
      assert a1.needCol && a2.needCol;
      assert d1[0] != d2[0];
    } else if m1.from.col == m2.from.col {
      assert a1.needRow && a2.needRow;
      assert d1[|d1| - 1] != d2[|d2| - 1];
    } else if |d1| == |d2| {
      if |d1| == 2 {
        assert d1[1] != d2[1];
      } else {
        assert d1[0] != d2[0];
      }
    }
  }

  /** A position where a b-pawn and a bishop can both take on c3
      (4k3/8/8/8/8/2n5/1P1B4/4K3 w - - 0 1). */
  function ShadowState(): (st: State)
    ensures Get(st, Square(6, 1)) == ColoredPiece(White, Pawn)
    ensures Get(st, Square(6, 3)) == ColoredPiece(White, Bishop)
    ensures Get(st, Square(5, 2)) == ColoredPiece(Black, Knight)
    ensures st.enPassant == InvalidSquare
  {
    var board := seq(64, i =>
      if i == 49 then ColoredPiece(White, Pawn)
      else if i == 51 then ColoredPiece(White, Bishop)
      else if i == 42 then ColoredPiece(Black, Knight)
      else if i == 60 then ColoredPiece(White, King)
      else if i == 4 then ColoredPiece(Black, King)
      else NoPiece);
    State(board, true, NoCastling, NoCastling, InvalidSquare, 0, 1, false)
  }

  const PawnTakesC3 := PlainMove(Square(6, 1), Square(5, 2))
  const BishopTakesC3 := PlainMove(Square(6, 3), Square(5, 2))

  /** The only white bishop of ShadowState stands on d2. */
  lemma ShadowBishop(s: Square)
    requires Get(ShadowState(), s) == ColoredPiece(White, Bishop)
    ensures s == Square(6, 3)
  {
    IndexInjective(s, Square(6, 3));
  }

  /** As written, the pawn capture bxc3 and the bishop capture Bxc3 both print "bxc3" (the
      lower-cased piece letter of the bishop is the b-file), whatever the other moves are. */
  lemma PawnAndBishopShareString(moves: seq<Move>)
    ensures San(ShadowState(), moves, PawnTakesC3) == "bxc3"
    ensures San(ShadowState(), moves, BishopTakesC3) == "bxc3"
  {
    var st := ShadowState();
    SquareCharacters(Square(6, 1));
    SquareCharacters(Square(5, 2));
    SquareCharacters(Square(6, 3));
    PawnMoveSan(st, moves, PawnTakesC3);
    PieceMoveSan(st, moves, BishopTakesC3);
    forall o | o in moves && Rival(st, BishopTakesC3, o) ensures false {
      ShadowBishop(o.from);
    }
    assert Disambiguator(AmbiguityOf(st, moves, BishopTakesC3), BishopTakesC3) == [];
  }

  /** So once the pawn capture comes first in the list, no input ever selects the bishop capture. */
  lemma BishopCaptureUnreachable(moves: seq<Move>, i: int, k: int, input: string)
    requires 0 <= i < k < |moves| && moves[i] == PawnTakesC3 && moves[k] == BishopTakesC3
    requires BishopTakesC3 !in moves[..i + 1]
    ensures ParseAmong(ShadowState(), moves, input) != Some(BishopTakesC3)
  {
    PawnAndBishopShareString(moves);
    forall j | 0 <= j <= i ensures moves[j] != moves[k] {
      assert moves[j] == moves[..i + 1][j];
    }
    ShadowedMove(ShadowState(), moves, i, k, input);
  }

  /** Whether m moves a bishop. */
  predicate MovesBishop(st: State, m: Move) {
    Get(st, m.from).piece == Bishop
  }

  /** Whether the input, as typed, asks for a bishop: it starts with an upper-case 'B', the only
      piece letter that lower-casing turns into a file letter. */
  predicate AsksForBishop(input: string) {
    |input| > 0 && input[0] == 'B'
  }

  /** The move of the first pair that carries s and moves a bishop exactly when bishop holds. */
  function FirstMatchOfKind(st: State, pairs: seq<(Move, string)>, s: string, bishop: bool): Option<Move> {
    if pairs == [] then None
    else if pairs[0].1 == s && MovesBishop(st, pairs[0].0) == bishop then Some(pairs[0].0)
    else FirstMatchOfKind(st, pairs[1..], s, bishop)
  }

  /** The intended lookup among the pairs: a move of the kind the input asks for when one carries
      s, any move carrying s otherwise. */
  function CorrectedMatch(st: State, pairs: seq<(Move, string)>, s: string, bishop: bool): Option<Move> {
    var kind := FirstMatchOfKind(st, pairs, s, bishop);
    if kind.Some? then kind else FirstMatch(pairs, s)
  }

  /** The intended moveStringToMove: the strings and the lower-casing of the input stay as they
      are, and only where a bishop move and another move share the string does the case of the
      input's first letter choose between them. */
  function ParseAmongCorrected(st: State, moves: seq<Move>, input: string): Option<Move> {
    CorrectedMatch(st, SanPairs(st, moves), LowerString(input), AsksForBishop(input))
  }

  /** FirstMatchOfKind finds nothing exactly when no pair of that kind carries s, and otherwise
      the move of a pair of that kind that does. */
  lemma {:induction false} FirstMatchOfKindMeaning(st: State, pairs: seq<(Move, string)>, s: string, bishop: bool)
    ensures FirstMatchOfKind(st, pairs, s, bishop).None? <==>
      forall i :: 0 <= i < |pairs| ==> pairs[i].1 != s || MovesBishop(st, pairs[i].0) != bishop
    ensures FirstMatchOfKind(st, pairs, s, bishop).Some? ==>
      exists i :: 0 <= i < |pairs| && pairs[i] == (FirstMatchOfKind(st, pairs, s, bishop).value, s)
        && MovesBishop(st, pairs[i].0) == bishop
  {
    if pairs != [] && !(pairs[0].1 == s && MovesBishop(st, pairs[0].0) == bishop) {
      FirstMatchOfKindMeaning(st, pairs[1..], s, bishop);
      var r := FirstMatchOfKind(st, pairs[1..], s, bishop);
      if r.Some? {
        var i :| 0 <= i < |pairs[1..]| && pairs[1..][i] == (r.value, s) && MovesBishop(st, pairs[1..][i].0) == bishop;
        assert pairs[i + 1] == pairs[1..][i];
      } else {
        forall i | 0 <= i < |pairs| ensures pairs[i].1 != s || MovesBishop(st, pairs[i].0) != bishop {
          if i > 0 {
            assert pairs[i] == pairs[1..][i - 1];
          }
        }
      }
    }
  }

  /** The intended lookup fails exactly when the lookup as written does, returns a move of a pair
      carrying s, and returns a move of the asked-for kind whenever one carries s. */
  lemma CorrectedMatchMeaning(st: State, pairs: seq<(Move, string)>, s: string, bishop: bool)
    ensures CorrectedMatch(st, pairs, s, bishop).None? <==> FirstMatch(pairs, s).None?
    ensures CorrectedMatch(st, pairs, s, bishop).Some? ==>
      exists i :: 0 <= i < |pairs| && pairs[i] == (CorrectedMatch(st, pairs, s, bishop).value, s)
    ensures (exists i :: 0 <= i < |pairs| && pairs[i].1 == s && MovesBishop(st, pairs[i].0) == bishop) ==>
      CorrectedMatch(st, pairs, s, bishop).Some? && MovesBishop(st, CorrectedMatch(st, pairs, s, bishop).value) == bishop
  {
    FirstMatchOfKindMeaning(st, pairs, s, bishop);
    FirstMatchMeaning(pairs, s);
    var kind := FirstMatchOfKind(st, pairs, s, bishop);
    if kind.Some? {
      var i :| 0 <= i < |pairs| && pairs[i] == (kind.value, s) && MovesBishop(st, pairs[i].0) == bishop;
      assert pairs[i].1 == s;
    }
  }

  /** Where every pair carrying s carries the same move, the intended lookup agrees with the
      lookup as written. */
  lemma CorrectedMatchUnshared(st: State, pairs: seq<(Move, string)>, s: string, bishop: bool)
    requires forall i, j :: 0 <= i < |pairs| && 0 <= j < |pairs| && pairs[i].1 == s && pairs[j].1 == s ==>
      pairs[i].0 == pairs[j].0
    ensures CorrectedMatch(st, pairs, s, bishop) == FirstMatch(pairs, s)
  {
    CorrectedMatchMeaning(st, pairs, s, bishop);
    FirstMatchMeaning(pairs, s);
    var r := CorrectedMatch(st, pairs, s, bishop);
    if r.Some? {
      var i :| 0 <= i < |pairs| && pairs[i] == (r.value, s);
      var j :| 0 <= j < |pairs| && pairs[j] == (FirstMatch(pairs, s).value, s)
        && forall k :: 0 <= k < j ==> pairs[k].1 != s;
      assert pairs[i].1 == s && pairs[j].1 == s;
    }
  }

  /** Some listed move carries s and moves a bishop exactly when bishop holds. */
  predicate KindCarries(st: State, moves: seq<Move>, s: string, bishop: bool) {
    exists m :: m in moves && San(st, moves, m) == s && MovesBishop(st, m) == bishop
  }

  /** No two different listed moves carry s. */
  predicate Unshared(st: State, moves: seq<Move>, s: string) {
    forall m, o :: m in moves && o in moves && San(st, moves, m) == s && San(st, moves, o) == s ==> m == o
  }

  /** The intended moveStringToMove accepts every input the source accepts, and returns a listed
      move whose string is the lower-cased input; when a move of the kind the input asks for
      carries that string, the move returned is of that kind. */
  lemma CorrectedKeepsInputs(st: State, moves: seq<Move>, input: string)
    ensures ParseAmongCorrected(st, moves, input).None? <==> ParseAmong(st, moves, input).None?
    ensures ParseAmongCorrected(st, moves, input).Some? ==>
      ParseAmongCorrected(st, moves, input).value in moves
      && San(st, moves, ParseAmongCorrected(st, moves, input).value) == LowerString(input)
    ensures KindCarries(st, moves, LowerString(input), AsksForBishop(input)) ==>
      ParseAmongCorrected(st, moves, input).Some?
      && MovesBishop(st, ParseAmongCorrected(st, moves, input).value) == AsksForBishop(input)
  {
    var pairs := SanPairs(st, moves);
    var key := LowerString(input);
    var bishop := AsksForBishop(input);
    CorrectedMatchMeaning(st, pairs, key, bishop);
    var r := ParseAmongCorrected(st, moves, input);
    if r.Some? {
      var i :| 0 <= i < |pairs| && pairs[i] == (r.value, key);
      assert moves[i] == r.value;
    }
    if KindCarries(st, moves, key, bishop) {
      var m :| m in moves && San(st, moves, m) == key && MovesBishop(st, m) == bishop;
      var i :| 0 <= i < |moves| && moves[i] == m;
      assert pairs[i].1 == key && MovesBishop(st, pairs[i].0) == bishop;
    }
  }

  /** Where no two different listed moves share the string of the lower-cased input, the intended
      lookup returns what the source returns. */
  lemma CorrectedAgreesUnshared(st: State, moves: seq<Move>, input: string)
    requires Unshared(st, moves, LowerString(input))
    ensures ParseAmongCorrected(st, moves, input) == ParseAmong(st, moves, input)
  {
    var pairs := SanPairs(st, moves);
    var key := LowerString(input);
    forall i, j | 0 <= i < |pairs| && 0 <= j < |pairs| && pairs[i].1 == key && pairs[j].1 == key
      ensures pairs[i].0 == pairs[j].0
    {
      assert pairs[i].0 in moves && pairs[j].0 in moves;
    }
    CorrectedMatchUnshared(st, pairs, key, AsksForBishop(input));
  }

  /** Both spellings of the example capture lower-case to "bxc3"; only the first asks for a
      bishop. */
  lemma ShadowInputs()
    ensures LowerString("Bxc3") == "bxc3" && LowerString("bxc3") == "bxc3"
    ensures AsksForBishop("Bxc3") && !AsksForBishop("bxc3")
  {
  }

  /** Every bishop of the position stands on b. */
  ghost predicate OnlyBishopOn(st: State, b: Square) {
    forall s :: Get(st, s).piece == Bishop ==> s == b
  }

  /** When a bishop move carries the string of an input starting with 'B' and b holds the only
      bishop, the intended lookup returns a move from b onto the square the input ends with. */
  lemma CorrectedBishopPick(st: State, moves: seq<Move>, input: string, b: Square)
    requires OnlyBishopOn(st, b) && AsksForBishop(input)
    requires KindCarries(st, moves, LowerString(input), true)
    requires forall o :: o in moves ==> OnBoard(o.to)
    ensures ParseAmongCorrected(st, moves, input).Some?
    ensures ParseAmongCorrected(st, moves, input).value.from == b
    ensures var key := LowerString(input);
      |key| >= 2 && SquareOfName(key[|key| - 2], key[|key| - 1]) == ParseAmongCorrected(st, moves, input).value.to
  {
    CorrectedKeepsInputs(st, moves, input);
    var m := ParseAmongCorrected(st, moves, input).value;
    assert Get(st, m.from).piece == Bishop;
    PieceSanNamesDestination(st, moves, m);
  }

  /** The only bishop of ShadowState stands on d2. */
  lemma ShadowOnlyBishop()
    ensures OnlyBishopOn(ShadowState(), Square(6, 3))
  {
    forall s | Get(ShadowState(), s).piece == Bishop ensures s == Square(6, 3) {
      IndexInjective(s, Square(6, 3));
    }
  }

  /** On the example position the intended lookup takes "Bxc3" to the bishop capture from d2. */
  lemma CorrectedShadowBishop(moves: seq<Move>)
    requires BishopTakesC3 in moves
    requires forall o :: o in moves ==> OnBoard(o.to)
    ensures ParseAmongCorrected(ShadowState(), moves, "Bxc3").Some?
    ensures ParseAmongCorrected(ShadowState(), moves, "Bxc3").value.from == Square(6, 3)
    ensures ParseAmongCorrected(ShadowState(), moves, "Bxc3").value.to == Square(5, 2)
  {
    PawnAndBishopShareString(moves);
    ShadowInputs();
    assert MovesBishop(ShadowState(), BishopTakesC3);
    assert KindCarries(ShadowState(), moves, "bxc3", true);
    ShadowOnlyBishop();
    CorrectedBishopPick(ShadowState(), moves, "Bxc3", Square(6, 3));
    SquareCharacters(Square(5, 2));
  }

  /** And it takes "bxc3" to a move that is not a bishop's, as the lookup as written does for both
      spellings when the pawn capture comes first. */
  lemma CorrectedShadowPawn(moves: seq<Move>)
    requires PawnTakesC3 in moves
    ensures ParseAmongCorrected(ShadowState(), moves, "bxc3").Some?
    ensures !MovesBishop(ShadowState(), ParseAmongCorrected(ShadowState(), moves, "bxc3").value)
  {
    var st := ShadowState();
    PawnAndBishopShareString(moves);
    ShadowInputs();
    assert !MovesBishop(st, PawnTakesC3);
    assert KindCarries(st, moves, "bxc3", false);
    CorrectedKeepsInputs(st, moves, "bxc3");
  }

  /** The inner loop of getMoveSANPairs: the three flags over all the other moves. */
  method Disambiguate(p: Position, moves: seq<Move>, m: Move) returns (a: Ambiguity)
    requires p.Valid()
    ensures a == AmbiguityOf(p.Snapshot(), moves, m)
  {
    ghost var st := p.Snapshot();
    var cp := p.ReadSquare(m.from);
    var any, needCol, needRow := false, false, false;
    for i := 0 to |moves|
      invariant Ambiguity(any, needCol, needRow) == AmbiguityOf(st, moves[..i], m)
    {
      var o := moves[i];
      assert moves[..i + 1] == moves[..i] + [o];
      if o.to == m.to && o.from != m.from {
        var other := p.ReadSquare(o.from);
        if other == cp {
          any := true;
          if o.from.row == m.from.row {
            needCol := true;
          } else if o.from.col == m.from.col {
            needRow := true;
          }
        }
      }
    }
    assert moves[..|moves|] == moves;
    a := Ambiguity(any, needCol, needRow);
  }

  /** The body of getMoveSANPairs' outer loop for one move. */
  method SanOf(p: Position, moves: seq<Move>, m: Move) returns (s: string)
    requires p.Valid()
    ensures s == San(p.Snapshot(), moves, m)
  {
    ghost var st := p.Snapshot();
    var cp := p.ReadSquare(m.from);
    var captured := p.GetCapturedPiece(m);
    var fromCol := FileChar(m.from.col);
    var toCol := FileChar(m.to.col);
    var toRow := RankChar(m.to.row);
    var rep: string;
    if cp.piece == King && Abs(m.to.col - m.from.col) == 2 {
      rep := if m.to.col > m.from.col then "o-o" else "o-o-o";
    } else if cp.piece == Pawn {
      var capture: string := [];
      if captured != NoPiece {
        capture := [fromCol, 'x'];
      }
      var promotion: string := [];
      if m.promotion.piece != Empty {
        promotion := ['=', ToLower(PieceToChar(m.promotion))];
      }
      rep := capture + [toCol, toRow] + promotion;
    } else {
      var a := Disambiguate(p, moves, m);
      var d: string := [];
      if a.needCol && a.needRow {
        d := [fromCol, RankChar(m.from.row)];
      } else if a.needCol {
        d := [fromCol];
      } else if a.needRow {
        d := [RankChar(m.from.row)];
      } else if a.any {
        d := [fromCol];
      }
      assert d == Disambiguator(AmbiguityOf(st, moves, m), m);
      var x: string := [];
      if captured != NoPiece {
        x := ['x'];
      }
      rep := [ToLower(PieceToChar(cp))] + d + x + [toCol, toRow];
    }
    assert rep == RawSan(st, moves, m);
    s := LowerString(rep);
  }

  /** getMoveSANPairs. */
  method GetMoveSanPairs(p: Position, moves: seq<Move>) returns (pairs: seq<(Move, string)>)
    requires p.Valid()
    ensures pairs == SanPairs(p.Snapshot(), moves)
  {
    pairs := [];
    for i := 0 to |moves|
      invariant |pairs| == i
      invariant forall j :: 0 <= j < i ==> pairs[j] == (moves[j], San(p.Snapshot(), moves, moves[j]))
    {
      var s := SanOf(p, moves, moves[i]);
      pairs := pairs + [(moves[i], s)];
    }
  }

  /** moveStringToMove: None where the source throws invalid_argument. */
  method MoveStringToMove(p: Position, input: string) returns (r: Option<Move>)
    requires p.Valid() && Sane(p.Snapshot())
    modifies p.board, p`enPassant, p`castleWhite, p`castleBlack, p`whiteToMove, p`gameOver
    modifies p`halfmove, p`fullmove
    ensures p.Snapshot() == old(p.Snapshot())
    ensures r == ParsedMove(old(p.Snapshot()), input)
  {
    var normalized := LowerString(input);
    var c := if p.whiteToMove then White else Black;
    var legal := Validation.GetLegalMoves(p, c);
    var pairs := GetMoveSanPairs(p, legal);
    for i := 0 to |pairs|
      invariant FirstMatch(pairs, normalized) == FirstMatch(pairs[i..], normalized)
    {
      if pairs[i].1 == normalized {
        return Some(pairs[i].0);
      }
      assert pairs[i..][1..] == pairs[i + 1..];
    }
    assert pairs[|pairs|..] == [];
    return None;
  }
}
